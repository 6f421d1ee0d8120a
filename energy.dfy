/**
 * Energy compatibility between mods and armour, and the per-slot energy lock
 * derived from the slot-specific mods.
 */
module Energy {
  import opened Wrappers
  import opened ModTypes

  /** `mod.modDef.plug.energyCost?.energyType`, with a missing cost read as Any (both falsy). */
  function LockedModType(mod: LockedMod): (r: EnergyType)
    ensures r == Any <==> mod.energyCost.None? || mod.energyCost.value.energyType == Any
  {
    match mod.energyCost
    case None => Any
    case Some(cost) => cost.energyType
  }

  /** `mod.energy?.type`, with missing energy read as Any (both falsy). */
  function ProcessModType(mod: ProcessMod): (r: EnergyType)
    ensures r == Any <==> mod.energy.None? || mod.energy.value.energyType == Any
  {
    match mod.energy
    case None => Any
    case Some(energy) => energy.energyType
  }

  /**
   * doEnergiesMatch: the item has an energy system, and the mod either costs
   * no energy, is of type Any, or is of the item's energy type.
   */
  function DoEnergiesMatch(mod: LockedMod, item: Item): (r: bool)
    ensures item.energy.None? ==> !r
    ensures item.energy.Some? ==>
      (r <==> LockedModType(mod) == Any || LockedModType(mod) == item.energy.value.energyType)
  {
    match item.energy
    case None => false
    case Some(energy) =>
      || mod.energyCost.None?
      || mod.energyCost.value.energyType == Any
      || mod.energyCost.value.energyType == energy.energyType
  }

  /** isEnergyLower: the item has an energy system whose capacity is at most `limit`. */
  function IsEnergyLower(item: Item, limit: int): (r: bool)
    ensures r <==> item.energy.Some? && item.energy.value.energyCapacity <= limit
  {
    match item.energy
    case None => false
    case Some(energy) => energy.energyCapacity <= limit
  }

  /**
   * `mods.find((mod) => typeOf(mod))` followed by `?.type ?? Any`: the type of
   * the first mod whose type is truthy (not Any), or Any if there is none.
   */
  function FirstConcrete<M>(mods: seq<M>, typeOf: M -> EnergyType): (r: EnergyType)
    ensures r == Any <==> forall i | 0 <= i < |mods| :: typeOf(mods[i]) == Any
    ensures r != Any ==>
      exists i | 0 <= i < |mods| :: typeOf(mods[i]) == r && forall j | 0 <= j < i :: typeOf(mods[j]) == Any
  {
    if |mods| == 0 then Any
    else if typeOf(mods[0]) != Any then typeOf(mods[0])
    else
      var r := FirstConcrete(mods[1..], typeOf);
      FirstConcreteTail(mods, typeOf, r);
      r
  }

  /** Skipping a leading Any mod keeps `find`'s answer. */
  lemma FirstConcreteTail<M>(mods: seq<M>, typeOf: M -> EnergyType, r: EnergyType)
    requires |mods| > 0 && typeOf(mods[0]) == Any
    requires r == Any <==> forall i | 0 <= i < |mods| - 1 :: typeOf(mods[1..][i]) == Any
    requires r != Any ==>
      exists i | 0 <= i < |mods| - 1 :: typeOf(mods[1..][i]) == r && forall j | 0 <= j < i :: typeOf(mods[1..][j]) == Any
    ensures r == Any <==> forall i | 0 <= i < |mods| :: typeOf(mods[i]) == Any
    ensures r != Any ==>
      exists i | 0 <= i < |mods| :: typeOf(mods[i]) == r && forall j | 0 <= j < i :: typeOf(mods[j]) == Any
  {
    assert forall i | 1 <= i < |mods| :: mods[i] == mods[1..][i - 1];
    if r != Any {
      var i :| 0 <= i < |mods| - 1 && typeOf(mods[1..][i]) == r && forall j | 0 <= j < i :: typeOf(mods[1..][j]) == Any;
      assert typeOf(mods[i + 1]) == r;
    }
  }

  /**
   * What the `find` returns for category `c` of `byCategory`, stated by
   * position: Any when the list is missing or holds only Any mods, and
   * otherwise the type at the first position whose type is not Any.
   */
  ghost predicate IsFirstConcrete<M>(v: EnergyType, byCategory: map<CategoryHash, seq<M>>, c: CategoryHash,
                                     typeOf: M -> EnergyType)
  {
    && (v == Any <==> (c !in byCategory || forall i | 0 <= i < |byCategory[c]| :: typeOf(byCategory[c][i]) == Any))
    && (v != Any ==>
          && c in byCategory
          && exists i | 0 <= i < |byCategory[c]| ::
               typeOf(byCategory[c][i]) == v && forall j | 0 <= j < i :: typeOf(byCategory[c][j]) == Any)
  }

  function SlotLock<M>(byCategory: map<CategoryHash, seq<M>>, c: CategoryHash, typeOf: M -> EnergyType): EnergyType
  {
    if c in byCategory then FirstConcrete(byCategory[c], typeOf) else Any
  }

  function LocksFrom<M>(byCategory: map<CategoryHash, seq<M>>, t: Tables, typeOf: M -> EnergyType): (r: ArmorElements)
    ensures forall s :: IsFirstConcrete(r.Get(s), byCategory, t.SlotCategory(s), typeOf)
  {
    var r := ArmorElements(
      SlotLock(byCategory, t.helmet, typeOf),
      SlotLock(byCategory, t.gauntlets, typeOf),
      SlotLock(byCategory, t.chest, typeOf),
      SlotLock(byCategory, t.leg, typeOf),
      SlotLock(byCategory, t.classItem, typeOf));
    assert forall s :: r.Get(s) == SlotLock(byCategory, t.SlotCategory(s), typeOf);
    r
  }

  /**
   * assignEnergyTypeToSlot: the process mods decide when they are given; else
   * the locked mods; else every slot is Any. Each slot is locked to the type of
   * the first mod of its category whose type is not Any.
   */
  function AssignEnergyTypeToSlot(processMods: Option<map<CategoryHash, seq<ProcessMod>>>,
                                  lockedMods: Option<map<CategoryHash, seq<LockedMod>>>,
                                  t: Tables): (r: ArmorElements)
    ensures processMods.Some? ==>
      forall s :: IsFirstConcrete(r.Get(s), processMods.value, t.SlotCategory(s), ProcessModType)
    ensures processMods.None? && lockedMods.Some? ==>
      forall s :: IsFirstConcrete(r.Get(s), lockedMods.value, t.SlotCategory(s), LockedModType)
    ensures processMods.None? && lockedMods.None? ==> forall s :: r.Get(s) == Any
  {
    match processMods
    case Some(pm) => LocksFrom(pm, t, ProcessModType)
    case None =>
      match lockedMods
      case Some(lm) => LocksFrom(lm, t, LockedModType)
      case None => ArmorElements(Any, Any, Any, Any, Any)
  }

  /**
   * The lock a slot's mods produce never contradicts an item that all of them
   * match: it is Any or that item's energy type.
   */
  lemma MatchingModsLockItemElement(mods: seq<LockedMod>, item: Item)
    requires forall i | 0 <= i < |mods| :: DoEnergiesMatch(mods[i], item)
    ensures var lock := FirstConcrete(mods, LockedModType);
            lock == Any || (item.energy.Some? && lock == item.energy.value.energyType)
  {
    var lock := FirstConcrete(mods, LockedModType);
    if lock != Any {
      var i :| 0 <= i < |mods| && LockedModType(mods[i]) == lock;
      assert DoEnergiesMatch(mods[i], item);
    }
  }
}
