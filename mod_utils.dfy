/**
 * assignModsToArmorSet: place the locked mods of a loadout on the armour
 * pieces of one set, and report which mods found no place.
 *
 * The steps run in the source's order: an empty record entry per item; the
 * slot-specific mods of each lockable bucket on the first item in that
 * bucket; the slot-independent mods through the engine; and finally the
 * hashes turned back into mod instances popped from per-hash pools.
 */
module ModUtils {
  import opened ModTypes
  import opened SlotAssignment
  import opened SlotIndependent
  import opened Accounting

  /** The record of hashes once the slot-specific and the slot-independent steps have run. */
  function PlannedHashes(setToMatch: seq<Item>, es: LockedModMap, ignoreArmorElement: bool, t: Tables,
                         engine: EngineInput -> Placement): map<ItemId, seq<ModHash>>
  {
    var s := SlotPhase(setToMatch, es, ignoreArmorElement, t, t.lockableBuckets);
    AppendPlacement(s.assignments, engine(EngineCall(s.processItems, es, ignoreArmorElement, t)))
  }

  /**
   * Whatever a sound engine does, the record holds one entry per item of the
   * set, and every hash in it is the hash of some mod of the input: the pop
   * phase never looks up a hash without a pool.
   */
  lemma PlannedHashesFromInput(setToMatch: seq<Item>, es: LockedModMap, ignoreArmorElement: bool, t: Tables,
                               engine: EngineInput -> Placement)
    requires SoundEngine(engine)
    ensures var planned := PlannedHashes(setToMatch, es, ignoreArmorElement, t, engine);
      && planned.Keys == IdSet(setToMatch)
      && forall id | id in planned :: forall i | 0 <= i < |planned[id]| :: planned[id][i] in HashSet(Flat(es))
  {
    var s := SlotPhase(setToMatch, es, ignoreArmorElement, t, t.lockableBuckets);
    var input := EngineCall(s.processItems, es, ignoreArmorElement, t);
    var planned := AppendPlacement(s.assignments, engine(input));
    EngineAppendsOnlyInputHashes(s.assignments, input, engine(input));
    EngineModsFromInput(s.processItems, es, ignoreArmorElement, t);
    HashSetMono(EngineMods(input), Flat(es));
    forall id, i | id in planned && 0 <= i < |planned[id]|
      ensures planned[id][i] in HashSet(Flat(es))
    {
      if i < |s.assignments[id]| {
        assert planned[id][i] == s.assignments[id][i];
        assert s.assignments[id][i] in s.assignments[id];
      }
    }
  }

  /** The hashes of the input's mods are exactly the pools `_.groupBy` makes of them. */
  lemma PoolsForPlan(planned: map<ItemId, seq<ModHash>>, flat: seq<LockedMod>)
    requires forall id | id in planned :: forall i | 0 <= i < |planned[id]| :: planned[id][i] in HashSet(flat)
    ensures PlannedFromPools(planned, GroupByHash(flat))
  {
  }

  /** One more item: one more empty entry, and its id at the end of the key order if it is new. */
  lemma InitialAssignmentsStep(items: seq<Item>, i: nat)
    requires i < |items|
    ensures InitialAssignments(items[..i + 1]) == InitialAssignments(items[..i])[items[i].id := []]
    ensures IdOrder(items[..i + 1]) ==
      if items[i].id in InitialAssignments(items[..i]) then IdOrder(items[..i]) else IdOrder(items[..i]) + [items[i].id]
  {
    assert items[..i + 1][..i] == items[..i];
    assert IdSet(items[..i + 1]) == IdSet(items[..i]) + {items[i].id} by {
      assert items[..i + 1] == items[..i] + [items[i]];
    }
  }

  /** `assignments[item.id] = []` for each item of the set, in order. */
  method NewAssignments(setToMatch: seq<Item>) returns (assignments: AssignmentRecord)
    ensures fresh(assignments) && assignments.Valid()
    ensures assignments.byItem == InitialAssignments(setToMatch)
    ensures assignments.order == IdOrder(setToMatch)
  {
    assignments := new AssignmentRecord();
    var i := 0;
    while i < |setToMatch|
      invariant 0 <= i <= |setToMatch|
      invariant assignments.Valid()
      invariant assignments.byItem == InitialAssignments(setToMatch[..i])
      invariant assignments.order == IdOrder(setToMatch[..i])
    {
      InitialAssignmentsStep(setToMatch, i);
      assignments.Put(setToMatch[i].id, []);
      i := i + 1;
    }
    assert setToMatch[..i] == setToMatch;
  }

  /** The loop over LockableBucketHashes: slot-specific mods, and the process items it collects. */
  method AssignSlotSpecificMods(setToMatch: seq<Item>, lockedArmor2Mods: LockedModMap, ignoreArmorElement: bool,
                                t: Tables, assignments: AssignmentRecord)
    returns (processItems: seq<ProcessItem>)
    requires assignments.Valid() && assignments.byItem == InitialAssignments(setToMatch)
    modifies assignments
    ensures assignments.Valid() && assignments.order == old(assignments.order)
    ensures SlotState(assignments.byItem, processItems) ==
      SlotPhase(setToMatch, lockedArmor2Mods, ignoreArmorElement, t, t.lockableBuckets)
  {
    processItems := [];
    var buckets := t.lockableBuckets;
    var b := 0;
    while b < |buckets|
      invariant 0 <= b <= |buckets|
      invariant assignments.Valid() && assignments.order == old(assignments.order)
      invariant SlotState(assignments.byItem, processItems) ==
        SlotPhase(setToMatch, lockedArmor2Mods, ignoreArmorElement, t, buckets[..b])
    {
      var hash := buckets[b];
      assert buckets[..b + 1][..b] == buckets[..b];
      var found := FirstWithBucket(setToMatch, hash);
      if found.Some? {
        var item := found.value;
        assert item.id in IdSet(setToMatch) by {
          assert item in setToMatch;
        }
        var lockedMods := ModsForBucket(lockedArmor2Mods, t, hash);
        AssignModsForSlot(item, assignments, ignoreArmorElement, lockedMods);
        processItems := processItems + [ProcessItem(item, lockedMods)];
      }
      b := b + 1;
    }
    assert buckets[..b] == buckets;
  }

  /**
   * The closing steps of assignModsToArmorSet, from the finished record of
   * hashes (`planned`, keys in `order`) and the flattened input `flat`: pop
   * the mods, then list the input's mods whose key no assigned mod carries.
   * Each item receives only mods whose hashes were planned for it, never more
   * than planned; the mods handed out are drawn from the input, each instance
   * at most once; with distinct keys the assigned and the unassigned mods
   * together account for every input mod exactly once; and when the plan asks
   * for no hash more often than the input holds it, every item receives
   * exactly its planned hashes.
   */
  method SettleMods(order: seq<ItemId>, planned: map<ItemId, seq<ModHash>>, flat: seq<LockedMod>)
    returns (assignedMods: map<ItemId, seq<LockedMod>>, unassignedMods: seq<LockedMod>)
    requires NoDup(order) && forall id :: id in planned <==> id in order
    requires forall id | id in planned :: forall i | 0 <= i < |planned[id]| :: planned[id][i] in HashSet(flat)
    ensures assignedMods == TakeItems(order, planned, GroupByHash(flat)).byItem
    ensures assignedMods.Keys == planned.Keys
    ensures forall id | id in assignedMods ::
      && |assignedMods[id]| <= |planned[id]|
      && forall m | m in assignedMods[id] :: m.hash in planned[id]
    ensures multiset(ConcatValues(assignedMods, order)) <= multiset(flat)
    ensures unassignedMods == Unassigned(flat, KeySet(ConcatValues(assignedMods, order)))
    ensures forall m :: m in unassignedMods <==> m in flat && m.key !in KeySet(ConcatValues(assignedMods, order))
    ensures UniqueKeys(flat) ==> |ConcatValues(assignedMods, order)| + |unassignedMods| == |flat|
    ensures multiset(ConcatValues(planned, order)) <= multiset(Hashes(flat)) ==>
      forall id | id in assignedMods :: Hashes(assignedMods[id]) == planned[id]
  {
    var modsByHash := GroupByHash(flat);
    PoolsForPlan(planned, flat);
    assignedMods := TakeFromPools(order, planned, modsByHash);
    TakeFromPoolsSound(order, planned, flat);

    var allAssigned := ConcatValues(assignedMods, order);
    unassignedMods := Unassigned(flat, KeySet(allAssigned));
    if UniqueKeys(flat) {
      AssignedAndUnassignedCount(flat, allAssigned);
    }
  }

  /**
   * assignModsToArmorSet: the record of hashes a sound engine completes is
   * settled as SettleMods describes, over the set's items in order and the
   * record's mods in enumeration order.
   */
  method AssignModsToArmorSet(setToMatch: seq<Item>, lockedArmor2Mods: LockedModMap, ignoreArmorElement: bool,
                              t: Tables, engine: EngineInput -> Placement)
    returns (assignedMods: map<ItemId, seq<LockedMod>>, unassignedMods: seq<LockedMod>)
    requires SoundEngine(engine)
    ensures var planned := PlannedHashes(setToMatch, lockedArmor2Mods, ignoreArmorElement, t, engine);
      var pools := GroupByHash(Flat(lockedArmor2Mods));
      && PlannedFromPools(planned, pools)
      && assignedMods == TakeItems(IdOrder(setToMatch), planned, pools).byItem
    ensures var planned := PlannedHashes(setToMatch, lockedArmor2Mods, ignoreArmorElement, t, engine);
      && assignedMods.Keys == IdSet(setToMatch)
      && forall id | id in assignedMods ::
        && |assignedMods[id]| <= |planned[id]|
        && forall m | m in assignedMods[id] :: m.hash in planned[id]
    ensures multiset(ConcatValues(assignedMods, IdOrder(setToMatch))) <= multiset(Flat(lockedArmor2Mods))
    ensures unassignedMods == Unassigned(Flat(lockedArmor2Mods), KeySet(ConcatValues(assignedMods, IdOrder(setToMatch))))
    ensures forall m :: m in unassignedMods <==>
      m in Flat(lockedArmor2Mods) && m.key !in KeySet(ConcatValues(assignedMods, IdOrder(setToMatch)))
    ensures UniqueKeys(Flat(lockedArmor2Mods)) ==>
      |ConcatValues(assignedMods, IdOrder(setToMatch))| + |unassignedMods| == |Flat(lockedArmor2Mods)|
    ensures var planned := PlannedHashes(setToMatch, lockedArmor2Mods, ignoreArmorElement, t, engine);
      multiset(ConcatValues(planned, IdOrder(setToMatch))) <= multiset(Hashes(Flat(lockedArmor2Mods))) ==>
        forall id | id in assignedMods :: Hashes(assignedMods[id]) == planned[id]
  {
    var assignments := NewAssignments(setToMatch);
    var processItems := AssignSlotSpecificMods(setToMatch, lockedArmor2Mods, ignoreArmorElement, t, assignments);
    AssignSlotIndependantMods(processItems, lockedArmor2Mods, assignments, ignoreArmorElement, t, engine);
    PlannedHashesFromInput(setToMatch, lockedArmor2Mods, ignoreArmorElement, t, engine);
    PoolsForPlan(assignments.byItem, Flat(lockedArmor2Mods));
    assignedMods, unassignedMods := SettleMods(assignments.order, assignments.byItem, Flat(lockedArmor2Mods));
  }
}
