/**
 * assignSlotIndependantMods: classify the locked mods, derive the energy lock
 * of each slot from the slot-specific mods, and hand the general, "other" and
 * raid mods to the slot-independent placement engine.
 *
 * The engine (the permutation generator together with
 * canTakeSlotIndependantMods) is not part of this model. It is the parameter
 * `engine`: what it appends to each item, given everything it is passed.
 */
module SlotIndependent {
  import opened Wrappers
  import opened ModTypes
  import opened Energy
  import opened Classification
  import opened SlotAssignment

  /** The hashes the engine appends to each item. */
  type Placement = map<ItemId, seq<ModHash>>

  /** Everything assignSlotIndependantMods hands to the engine. */
  datatype EngineInput = EngineInput(
    generalMods: seq<LockedMod>,
    otherMods: seq<LockedMod>,
    raidMods: seq<LockedMod>,
    items: seq<ProcessItem>,
    ignoreArmorElement: bool,
    lockedArmorElements: ArmorElements)

  function EngineMods(input: EngineInput): seq<LockedMod>
  {
    input.generalMods + input.otherMods + input.raidMods
  }

  /** The engine appends only to the items it was given, and only hashes of the mods it was given. */
  ghost predicate EngineSound(input: EngineInput, placed: Placement)
  {
    && (forall id | id in placed :: exists p | p in input.items :: p.source.id == id)
    && (forall id | id in placed :: forall h | h in placed[id] :: h in HashSet(EngineMods(input)))
  }

  ghost predicate SoundEngine(engine: EngineInput -> Placement)
  {
    forall input :: EngineSound(input, engine(input))
  }

  /** The record after the engine's hashes are appended: same keys, old lists kept as prefixes. */
  function AppendPlacement(assignments: map<ItemId, seq<ModHash>>, placed: Placement): (r: map<ItemId, seq<ModHash>>)
    ensures r.Keys == assignments.Keys
    ensures forall id | id in assignments ::
      && |assignments[id]| <= |r[id]|
      && r[id][..|assignments[id]|] == assignments[id]
      && (forall k | |assignments[id]| <= k < |r[id]| :: id in placed && r[id][k] in placed[id])
  {
    map id | id in assignments :: assignments[id] + (if id in placed then placed[id] else [])
  }

  /** A sound engine only ever appends hashes of the slot-independent mods it was given. */
  lemma EngineAppendsOnlyInputHashes(assignments: map<ItemId, seq<ModHash>>, input: EngineInput, placed: Placement)
    requires EngineSound(input, placed)
    ensures var r := AppendPlacement(assignments, placed);
      forall id | id in assignments ::
        forall k | |assignments[id]| <= k < |r[id]| :: r[id][k] in HashSet(EngineMods(input))
  {
    var r := AppendPlacement(assignments, placed);
    forall id, k | id in assignments && |assignments[id]| <= k < |r[id]|
      ensures r[id][k] in HashSet(EngineMods(input))
    {
      var h := r[id][k];
      assert id in placed && h in placed[id];
      assert forall h' | h' in placed[id] :: h' in HashSet(EngineMods(input));
    }
  }

  /** canTakeSlotIndependantMods, as far as it changes the record. */
  method CanTakeSlotIndependantMods(input: EngineInput, assignments: AssignmentRecord,
                                    engine: EngineInput -> Placement)
    requires assignments.Valid()
    requires EngineSound(input, engine(input))
    modifies assignments
    ensures assignments.Valid() && assignments.order == old(assignments.order)
    ensures assignments.byItem == AppendPlacement(old(assignments.byItem), engine(input))
    ensures assignments.byItem.Keys == old(assignments.byItem).Keys
    ensures forall id | id in old(assignments.byItem) ::
      var before := old(assignments.byItem)[id];
      && assignments.byItem[id][..|before|] == before
      && forall k | |before| <= k < |assignments.byItem[id]| :: assignments.byItem[id][k] in HashSet(EngineMods(input))
  {
    EngineAppendsOnlyInputHashes(assignments.byItem, input, engine(input));
    assignments.byItem := AppendPlacement(assignments.byItem, engine(input));
  }

  /** What assignSlotIndependantMods passes to the engine. */
  function EngineCall(items: seq<ProcessItem>, es: LockedModMap, ignoreArmorElement: bool, t: Tables): EngineInput
  {
    var g := Classify(es, t);
    EngineInput(g.general, g.other, g.raid, items, ignoreArmorElement, AssignEnergyTypeToSlot(None, Some(g.slotSpecific), t))
  }

  /** assignSlotIndependantMods */
  method AssignSlotIndependantMods(setToMatch: seq<ProcessItem>, lockedArmor2Mods: LockedModMap,
                                   assignments: AssignmentRecord, ignoreArmorElement: bool, t: Tables,
                                   engine: EngineInput -> Placement)
    requires assignments.Valid()
    requires SoundEngine(engine)
    modifies assignments
    ensures assignments.Valid() && assignments.order == old(assignments.order)
    ensures assignments.byItem ==
      AppendPlacement(old(assignments.byItem), engine(EngineCall(setToMatch, lockedArmor2Mods, ignoreArmorElement, t)))
  {
    var generalMods: seq<LockedMod> := [];
    var otherMods: seq<LockedMod> := [];
    var raidMods: seq<LockedMod> := [];
    var lockedMods: map<CategoryHash, seq<LockedMod>> := map[];

    var i := 0;
    while i < |lockedArmor2Mods|
      invariant 0 <= i <= |lockedArmor2Mods|
      invariant Groups(generalMods, lockedMods, raidMods, otherMods) == Classify(lockedArmor2Mods[..i], t)
    {
      var entry := lockedArmor2Mods[i];
      assert lockedArmor2Mods[..i + 1][..i] == lockedArmor2Mods[..i];
      var plugCategoryHash := entry.category;
      if entry.mods.None? {
        // an undefined list is skipped
      } else if plugCategoryHash == t.general {
        generalMods := entry.mods.value;
      } else if plugCategoryHash in t.slotSpecific {
        lockedMods := lockedMods[plugCategoryHash := entry.mods.value];
      } else if plugCategoryHash in t.raid {
        raidMods := raidMods + entry.mods.value;
      } else if plugCategoryHash !in t.known {
        otherMods := otherMods + entry.mods.value;
      }
      i := i + 1;
    }
    assert lockedArmor2Mods[..i] == lockedArmor2Mods;

    var lockedArmorElements := AssignEnergyTypeToSlot(None, Some(lockedMods), t);
    var input := EngineInput(generalMods, otherMods, raidMods, setToMatch, ignoreArmorElement, lockedArmorElements);
    CanTakeSlotIndependantMods(input, assignments, engine);
  }

  /**
   * The energy lock handed to the engine comes from the slot-specific lists of
   * the record alone (the first mod of the slot's category whose type is not
   * Any), whatever the items, the ignore flag or the slot-specific step placed.
   */
  lemma EngineLocksFromSlotSpecificMods(items: seq<ProcessItem>, es: LockedModMap, ignoreArmorElement: bool,
                                        t: Tables, s: ArmorSlot)
    requires UniqueCategories(es)
    ensures var c := t.SlotCategory(s);
      var lock := EngineCall(items, es, ignoreArmorElement, t).lockedArmorElements.Get(s);
      lock == if KindOf(t, c) == SlotSpecific && Lookup(es, c).Some?
              then FirstConcrete(Lookup(es, c).value, LockedModType) else Any
  {
    var c := t.SlotCategory(s);
    var g := Classify(es, t);
    ClassifySlotSpecific(es, t, c);
    var lock := EngineCall(items, es, ignoreArmorElement, t).lockedArmorElements.Get(s);
    assert IsFirstConcrete(lock, g.slotSpecific, c, LockedModType);
    if c in g.slotSpecific {
      var expected := FirstConcrete(g.slotSpecific[c], LockedModType);
      if lock == Any {
        assert expected == Any;
      } else {
        var i :| 0 <= i < |g.slotSpecific[c]| && LockedModType(g.slotSpecific[c][i]) == lock
                 && forall j | 0 <= j < i :: LockedModType(g.slotSpecific[c][j]) == Any;
        FirstConcreteAt(g.slotSpecific[c], LockedModType, i);
      }
    }
  }

  /** The first concrete type is the type at the first position whose type is not Any. */
  lemma {:induction false} FirstConcreteAt<M>(mods: seq<M>, typeOf: M -> EnergyType, i: nat)
    requires i < |mods| && typeOf(mods[i]) != Any
    requires forall j | 0 <= j < i :: typeOf(mods[j]) == Any
    ensures FirstConcrete(mods, typeOf) == typeOf(mods[i])
  {
    if i > 0 {
      assert typeOf(mods[0]) == Any;
      assert forall j | 0 <= j < i - 1 :: mods[1..][j] == mods[j + 1];
      FirstConcreteAt(mods[1..], typeOf, i - 1);
    }
  }

  /** The engine is handed only mods of the record. */
  lemma EngineModsFromInput(items: seq<ProcessItem>, es: LockedModMap, ignoreArmorElement: bool, t: Tables)
    ensures forall m | m in EngineMods(EngineCall(items, es, ignoreArmorElement, t)) :: m in Flat(es)
  {
    ClassifiedFromInput(es, t);
  }
}
