/**
 * The assignments record and the slot-specific step of assignModsToArmorSet:
 * each lockable bucket's slot-specific mods go, all or nothing, to the first
 * item of the set in that bucket.
 */
module SlotAssignment {
  import opened Wrappers
  import opened ModTypes
  import opened Energy

  /**
   * `assignments: Record<string, number[]>`: the mod hashes placed on each
   * item so far. `order` is the record's key order (the order keys were first
   * written), which decides the order `_.mapValues` and `Object.values` visit.
   */
  class AssignmentRecord {
    var byItem: map<ItemId, seq<ModHash>>
    var order: seq<ItemId>

    ghost predicate Valid()
      reads this
    {
      NoDup(order) && forall id :: id in byItem <==> id in order
    }

    constructor ()
      ensures Valid() && byItem == map[] && order == []
    {
      byItem := map[];
      order := [];
    }

    /** `assignments[id] = hashes` */
    method Put(id: ItemId, hashes: seq<ModHash>)
      requires Valid()
      modifies this
      ensures Valid()
      ensures byItem == old(byItem)[id := hashes]
      ensures order == if id in old(byItem) then old(order) else old(order) + [id]
    {
      if id !in byItem {
        order := order + [id];
      }
      byItem := byItem[id := hashes];
    }
  }

  /** Whether assignModsForSlot places `mods` on `item`. */
  predicate Accepts(item: Item, ignoreArmorElement: bool, mods: Option<seq<LockedMod>>)
  {
    && mods.Some?
    && |mods.value| > 0
    && ((forall i | 0 <= i < |mods.value| :: DoEnergiesMatch(mods.value[i], item)) || ignoreArmorElement)
  }

  /**
   * The record after assignModsForSlot: all of the slot's mod hashes are
   * appended to the item's entry, or nothing changes; no other entry changes.
   */
  function SlotAssign(assignments: map<ItemId, seq<ModHash>>, item: Item, ignoreArmorElement: bool,
                      mods: Option<seq<LockedMod>>): (r: map<ItemId, seq<ModHash>>)
    requires item.id in assignments
    ensures r.Keys == assignments.Keys
    ensures forall id | id in assignments && id != item.id :: r[id] == assignments[id]
    ensures r[item.id] != assignments[item.id] <==>
      && mods.Some? && |mods.value| > 0
      && (ignoreArmorElement || forall i | 0 <= i < |mods.value| :: DoEnergiesMatch(mods.value[i], item))
    ensures r[item.id] != assignments[item.id] ==> r[item.id] == assignments[item.id] + Hashes(mods.value)
  {
    if Accepts(item, ignoreArmorElement, mods) then
      assert |assignments[item.id] + Hashes(mods.value)| > |assignments[item.id]|;
      assignments[item.id := assignments[item.id] + Hashes(mods.value)]
    else assignments
  }

  /** assignModsForSlot, updating the shared record in place. */
  method AssignModsForSlot(item: Item, assignments: AssignmentRecord, ignoreArmorElement: bool,
                           mods: Option<seq<LockedMod>>)
    requires assignments.Valid() && item.id in assignments.byItem
    modifies assignments
    ensures assignments.Valid() && assignments.order == old(assignments.order)
    ensures assignments.byItem == SlotAssign(old(assignments.byItem), item, ignoreArmorElement, mods)
  {
    if mods.Some? && |mods.value| > 0 {
      var ms := mods.value;
      var every := forall i | 0 <= i < |ms| :: DoEnergiesMatch(ms[i], item);
      if every || ignoreArmorElement {
        assignments.Put(item.id, assignments.byItem[item.id] + Hashes(ms));
      }
    }
  }

  /** The index `setToMatch.find` stops at: the first item in bucket `b`, or |items| if none. */
  function FindBucketIndex(items: seq<Item>, b: BucketHash): (i: nat)
    ensures i <= |items|
    ensures i < |items| ==> items[i].bucketHash == b
    ensures forall j | 0 <= j < i :: items[j].bucketHash != b
  {
    if |items| == 0 then 0
    else if items[0].bucketHash == b then 0
    else
      var i := FindBucketIndex(items[1..], b);
      assert forall j | 1 <= j < |items| :: items[j] == items[1..][j - 1];
      1 + i
  }

  /** `setToMatch.find((i) => i.bucket.hash === b)` */
  function FirstWithBucket(items: seq<Item>, b: BucketHash): (r: Option<Item>)
    ensures r.Some? ==> r.value in items && r.value.bucketHash == b
    ensures r.Some? ==> FindBucketIndex(items, b) < |items| && r.value == items[FindBucketIndex(items, b)]
    ensures r.None? <==> forall i | 0 <= i < |items| :: items[i].bucketHash != b
  {
    var i := FindBucketIndex(items, b);
    if i < |items| then Some(items[i]) else None
  }

  /** `lockedArmor2Mods[bucketsToCategories[b]]` */
  function ModsForBucket(es: LockedModMap, t: Tables, b: BucketHash): Option<seq<LockedMod>>
  {
    if b in t.bucketsToCategories then Lookup(es, t.bucketsToCategories[b]) else None
  }

  /** The record right after its initialisation loop: one empty entry per item id. */
  function InitialAssignments(items: seq<Item>): (r: map<ItemId, seq<ModHash>>)
    ensures r.Keys == IdSet(items)
    ensures forall id | id in r :: r[id] == []
  {
    map id | id in IdSet(items) :: []
  }

  /** The record and the process-item list after the loop over lockable buckets. */
  datatype SlotState = SlotState(assignments: map<ItemId, seq<ModHash>>, processItems: seq<ProcessItem>)

  /** The state after the bucket loop has visited `buckets`, in order. */
  function SlotPhase(items: seq<Item>, es: LockedModMap, ignoreArmorElement: bool, t: Tables,
                     buckets: seq<BucketHash>): (r: SlotState)
    ensures r.assignments.Keys == IdSet(items)
    ensures forall p | p in r.processItems :: p.source in items
    ensures forall id | id in r.assignments :: forall h | h in r.assignments[id] :: h in HashSet(Flat(es))
  {
    if |buckets| == 0 then SlotState(InitialAssignments(items), [])
    else
      var prev := SlotPhase(items, es, ignoreArmorElement, t, buckets[..|buckets| - 1]);
      var b := buckets[|buckets| - 1];
      match FirstWithBucket(items, b)
      case None => prev
      case Some(item) =>
        var mods := ModsForBucket(es, t, b);
        var next := SlotAssign(prev.assignments, item, ignoreArmorElement, mods);
        assert forall h | mods.Some? && h in Hashes(mods.value) :: h in HashSet(Flat(es)) by {
          forall h | mods.Some? && h in Hashes(mods.value) ensures h in HashSet(Flat(es)) {
            var i :| 0 <= i < |mods.value| && Hashes(mods.value)[i] == h;
            assert mods.value[i] in multiset(Flat(es));
          }
        }
        SlotState(next, prev.processItems + [ProcessItem(item, mods)])
  }

  /** What bucket `b` contributes to item `id`: its slot's hashes if `id` is that bucket's first item and accepts them. */
  function BucketShare(items: seq<Item>, es: LockedModMap, ignoreArmorElement: bool, t: Tables,
                       b: BucketHash, id: ItemId): seq<ModHash>
  {
    match FirstWithBucket(items, b)
    case None => []
    case Some(item) =>
      var mods := ModsForBucket(es, t, b);
      if item.id == id && Accepts(item, ignoreArmorElement, mods) then Hashes(mods.value) else []
  }

  /** Reference definition, item by item: the shares of every bucket, in bucket order. */
  function ShareOf(items: seq<Item>, es: LockedModMap, ignoreArmorElement: bool, t: Tables,
                   buckets: seq<BucketHash>, id: ItemId): seq<ModHash>
  {
    if |buckets| == 0 then []
    else
      ShareOf(items, es, ignoreArmorElement, t, buckets[..|buckets| - 1], id)
      + BucketShare(items, es, ignoreArmorElement, t, buckets[|buckets| - 1], id)
  }

  /** The bucket loop gives each item exactly the slot lists of the buckets it is first in and accepts. */
  lemma {:induction false} SlotPhaseIsPerItemShare(items: seq<Item>, es: LockedModMap, ignoreArmorElement: bool,
                                                   t: Tables, buckets: seq<BucketHash>, id: ItemId)
    requires id in IdSet(items)
    ensures SlotPhase(items, es, ignoreArmorElement, t, buckets).assignments[id]
         == ShareOf(items, es, ignoreArmorElement, t, buckets, id)
  {
    if |buckets| > 0 {
      SlotPhaseIsPerItemShare(items, es, ignoreArmorElement, t, buckets[..|buckets| - 1], id);
    }
  }

  lemma {:induction false} NoShares(items: seq<Item>, es: LockedModMap, ignoreArmorElement: bool, t: Tables,
                                    buckets: seq<BucketHash>, id: ItemId)
    requires forall b | b in buckets :: BucketShare(items, es, ignoreArmorElement, t, b, id) == []
    ensures ShareOf(items, es, ignoreArmorElement, t, buckets, id) == []
  {
    if |buckets| > 0 {
      NoShares(items, es, ignoreArmorElement, t, buckets[..|buckets| - 1], id);
    }
  }

  /**
   * With distinct item ids, an item preceded in the set by another item of the
   * same bucket receives no slot-specific mods at all.
   */
  lemma NonFirstItemReceivesNoSlotMods(items: seq<Item>, es: LockedModMap, ignoreArmorElement: bool, t: Tables,
                                        buckets: seq<BucketHash>, j: nat, k: nat)
    requires UniqueIds(items)
    requires j < k < |items| && items[j].bucketHash == items[k].bucketHash
    ensures SlotPhase(items, es, ignoreArmorElement, t, buckets).assignments[items[k].id] == []
  {
    var id := items[k].id;
    forall b | b in buckets
      ensures BucketShare(items, es, ignoreArmorElement, t, b, id) == []
    {
      var i := FindBucketIndex(items, b);
      if i < |items| && items[i].id == id {
        assert false;
      }
    }
    NoShares(items, es, ignoreArmorElement, t, buckets, id);
    SlotPhaseIsPerItemShare(items, es, ignoreArmorElement, t, buckets, id);
  }
}
