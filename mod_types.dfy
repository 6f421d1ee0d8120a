/**
 * The data the loadout optimizer's mod bookkeeping works on: armour items,
 * locked mods, the locked-mod record keyed by plug category, and the constant
 * tables (category hashes, bucket hashes) that the code imports.
 */
module ModTypes {
  import opened Wrappers

  /** DestinyEnergyType. `Any` is 0, which JavaScript treats as falsy. */
  type EnergyType = int
  const Any: EnergyType := 0

  type ItemId = string
  type ModHash = int
  type CategoryHash = int
  type BucketHash = int

  /** `item.energy`: absent for armour without an energy system. */
  datatype ItemEnergy = ItemEnergy(energyType: EnergyType, energyCapacity: int)

  /** The parts of a DimItem the bookkeeping reads: its id, its bucket hash and its energy. */
  datatype Item = Item(id: ItemId, bucketHash: BucketHash, energy: Option<ItemEnergy>)

  /** `modDef.plug.energyCost`. */
  datatype EnergyCost = EnergyCost(energyType: EnergyType, energyCost: int)

  /** A locked mod instance: its unique `key`, its definition hash and its energy cost. */
  datatype LockedMod = LockedMod(key: int, hash: ModHash, energyCost: Option<EnergyCost>)

  /** The energy a ProcessMod carries (`mod.energy`). */
  datatype ProcessModEnergy = ProcessModEnergy(energyType: EnergyType, val: int)

  /** A mod as the optimizer's worker sees it. */
  datatype ProcessMod = ProcessMod(hash: ModHash, energy: Option<ProcessModEnergy>)

  /**
   * An item as handed to the slot-independent engine. The mapper that builds
   * it is not part of this model, so the value records the mapper's inputs:
   * the item and the slot's locked mods.
   */
  datatype ProcessItem = ProcessItem(source: Item, lockedMods: Option<seq<LockedMod>>)

  /** One entry of a LockedModMap: a plug category and its list, which may be undefined. */
  datatype Entry = Entry(category: CategoryHash, mods: Option<seq<LockedMod>>)

  /** A LockedModMap as its entries, in the order the record enumerates them. */
  type LockedModMap = seq<Entry>

  /** The five armour slots, in canonical order. */
  datatype ArmorSlot = Helmet | Gauntlets | Chest | Leg | ClassItem

  /** LockedArmorElements: the energy type each slot is locked to. */
  datatype ArmorElements = ArmorElements(
    helmet: EnergyType, gauntlets: EnergyType, chest: EnergyType, leg: EnergyType, classItem: EnergyType)
  {
    function Get(s: ArmorSlot): EnergyType
    {
      match s
      case Helmet => helmet
      case Gauntlets => gauntlets
      case Chest => chest
      case Leg => leg
      case ClassItem => classItem
    }
  }

  /**
   * The imported constant tables: the per-slot and general plug categories
   * (armor2PlugCategoryHashesByName), the slot-specific, raid and known
   * category lists, the lockable bucket hashes and the bucket-to-category map.
   * Their contents are parameters of the model.
   */
  datatype Tables = Tables(
    helmet: CategoryHash,
    gauntlets: CategoryHash,
    chest: CategoryHash,
    leg: CategoryHash,
    classItem: CategoryHash,
    general: CategoryHash,
    slotSpecific: seq<CategoryHash>,
    raid: seq<CategoryHash>,
    known: seq<CategoryHash>,
    lockableBuckets: seq<BucketHash>,
    bucketsToCategories: map<BucketHash, CategoryHash>)
  {
    function SlotCategory(s: ArmorSlot): CategoryHash
    {
      match s
      case Helmet => helmet
      case Gauntlets => gauntlets
      case Chest => chest
      case Leg => leg
      case ClassItem => classItem
    }
  }

  predicate NoDup<T(==)>(s: seq<T>)
  {
    forall i, j | 0 <= i < j < |s| :: s[i] != s[j]
  }

  /** No two entries of the record share a key, as in any JavaScript object. */
  predicate UniqueCategories(es: LockedModMap)
  {
    forall i, j | 0 <= i < j < |es| :: es[i].category != es[j].category
  }

  /** No two mod instances share a `key`. */
  predicate UniqueKeys(mods: seq<LockedMod>)
  {
    forall i, j | 0 <= i < j < |mods| :: mods[i].key != mods[j].key
  }

  /** No two items share an id. */
  predicate UniqueIds(items: seq<Item>)
  {
    forall i, j | 0 <= i < j < |items| :: items[i].id != items[j].id
  }

  /** `mods.map((mod) => mod.modDef.hash)` */
  function Hashes(mods: seq<LockedMod>): (r: seq<ModHash>)
    ensures |r| == |mods|
    ensures forall i | 0 <= i < |mods| :: r[i] == mods[i].hash
  {
    seq(|mods|, i requires 0 <= i < |mods| => mods[i].hash)
  }

  function HashSet(mods: seq<LockedMod>): set<ModHash>
  {
    set m | m in mods :: m.hash
  }

  /** Fewer mods, fewer hashes. */
  lemma HashSetMono(a: seq<LockedMod>, b: seq<LockedMod>)
    requires forall m | m in a :: m in b
    ensures HashSet(a) <= HashSet(b)
  {
    forall h | h in HashSet(a)
      ensures h in HashSet(b)
    {
      var m :| m in a && m.hash == h;
    }
  }

  function KeySet(mods: seq<LockedMod>): set<int>
  {
    set m | m in mods :: m.key
  }

  function IdSet(items: seq<Item>): set<ItemId>
  {
    set item | item in items :: item.id
  }

  /** The ids of `items` in first-occurrence order: the key order of a record filled from them. */
  function IdOrder(items: seq<Item>): (r: seq<ItemId>)
    ensures NoDup(r)
    ensures forall id :: id in r <==> id in IdSet(items)
  {
    if |items| == 0 then []
    else
      var prev := IdOrder(items[..|items| - 1]);
      var id := items[|items| - 1].id;
      assert items == items[..|items| - 1] + [items[|items| - 1]];
      if id in prev then prev else prev + [id]
  }

  function ModsOf(e: Entry): seq<LockedMod>
  {
    match e.mods
    case None => []
    case Some(ms) => ms
  }

  /** `Object.values(lockedArmor2Mods).flat()` with the undefined lists removed. */
  function Flat(es: LockedModMap): seq<LockedMod>
  {
    if |es| == 0 then [] else Flat(es[..|es| - 1]) + ModsOf(es[|es| - 1])
  }

  /** `lockedArmor2Mods[c]`: the list stored under key `c`, undefined if there is none. */
  function Lookup(es: LockedModMap, c: CategoryHash): (r: Option<seq<LockedMod>>)
    ensures r.Some? ==> multiset(r.value) <= multiset(Flat(es))
  {
    if |es| == 0 then None
    else if es[|es| - 1].category == c then es[|es| - 1].mods
    else Lookup(es[..|es| - 1], c)
  }

  /** With distinct categories, looking up an entry's category finds that entry's list. */
  lemma {:induction false} LookupAt(es: LockedModMap, i: nat)
    requires UniqueCategories(es) && i < |es|
    ensures Lookup(es, es[i].category) == es[i].mods
  {
    var n := |es| - 1;
    if i < n {
      assert UniqueCategories(es[..n]);
      assert es[..n][i] == es[i];
      LookupAt(es[..n], i);
    }
  }
}
