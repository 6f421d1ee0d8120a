# Locked-mod assignment bookkeeping of the loadout optimizer

This project is a Dafny model of the mod bookkeeping in DIM's loadout optimizer. The modelled
file is `src/app/loadout-builder/mod-utils.ts`. Given one candidate armour set, the locked mods keyed by
plug category, and the `ignoreArmorElement` flag, `assignModsToArmorSet` decides which mod
instances go on which armour piece and which are left over. The model follows the source's
steps in order:

1. **Empty record.** One empty hash list per item, in set order (`ModUtils.NewAssignments`).
   The record is the class `SlotAssignment.AssignmentRecord`: a map from item id to hashes,
   plus the key order.
2. **Slot-specific mods.** For each lockable bucket, the slot-specific mods go to the first item
   of the set in that bucket. They go all or nothing, subject to every mod passing
   `doEnergiesMatch` unless the flag is set (`SlotAssignment.AssignModsForSlot`,
   `ModUtils.AssignSlotSpecificMods`).
3. **Slot-independent step.** The entries of the locked-mod map `lockedArmor2Mods` are classified
   into general, slot-specific, raid and "other" mods. The per-slot energy lock is derived with `assignEnergyTypeToSlot`.
   The slot-independent placement engine then appends hashes
   (`SlotIndependent.AssignSlotIndependantMods`).
4. **Hashes to instances.** The input mods are grouped into one pool per hash. Each item's
   hashes are turned back into instances by popping from those pools (`Accounting.TakeFromPools`).
   The mods whose key no assigned mod carries are then listed (`Accounting.Unassigned`).

Each method is proved equal to a specification function over values: `InitialAssignments` and
`IdOrder` (the initialisation loop), `SlotAssign` and `SlotPhase` (the slot-specific step),
`Classify` and `AppendPlacement` (the slot-independent step), `DrawAll` and `TakeItems` (the
pops) and `Unassigned` (the leftovers). `IdOrder`, `SlotPhase`, `Classify`, `DrawAll`,
`TakeItems` and `Unassigned` follow a loop and are defined by recursion over a prefix;
`InitialAssignments` is a map comprehension, and `SlotAssign` and `AppendPlacement` describe one
step without a loop. The properties the source promises are lemmas about those functions.

Undefined values are `Option`. A JavaScript object is a `seq` of entries in its enumeration
order. Energy types are integers, with `Any` as the falsy 0.

The engine is not part of this model. It consists of the permutation generator and
`canTakeSlotIndependantMods`, and its file `processWorker/processUtils` is not part of the model.
It is a parameter `engine: EngineInput -> Placement`. What is assumed of it:
- it adds entries only for items it was given, and only hashes of mods it was given
  (`SlotIndependent.SoundEngine`);
- it only appends to the record: its placement is added after each item's existing list
  (`SlotIndependent.AppendPlacement`);
- what it places is a function of its other inputs, not of the `assignments` record it is also
  handed (mod-utils.ts:168).

No theorem rests on the last two. For any single run, the placement that run makes can be
taken as the function's value.

The constant tables are the datatype parameter `ModTypes.Tables`. They are the category hashes by
name, the slot-specific, raid and known category lists, `LockableBucketHashes` and
`bucketsToCategories`.

Where the prose design of the system and the code disagree, the model follows the code:
- **Dropped categories.** Known categories that are none of general, slot-specific or raid are
  dropped, not made "other" (mod-utils.ts:141).
  `Classification.ClassifyPartition` therefore has a fifth part, `Dropped`.
- **Energy lock.** The lock handed to the engine comes from every slot-specific list of the
  input. It does not depend on whether step 2 actually placed those mods
  (`SlotIndependent.EngineLocksFromSlotSpecificMods`).
- **Item lookup.** Step 2 goes over `LockableBucketHashes` and takes the first item with each
  bucket hash (mod-utils.ts:185-186). It does not look up one piece per canonical slot.
- **Conservation.** Leftovers are matched by `key`. With distinct keys, every input mod is
  assigned or left over and the counts add up. With repeated keys the count identity need not
  hold. `ModUtils.AssignModsToArmorSet` states it under `UniqueKeys`.

## Model

| member | source | states |
|---|---|---|
| Energy.DoEnergiesMatch | src/app/loadout-builder/mod-utils.ts:24-28 | false when the item has no energy; otherwise true iff the mod's type (a missing cost reads as Any) is Any or the item's type |
| Energy.LockedModType | src/app/loadout-builder/mod-utils.ts:74-75 | `mod.modDef.plug.energyCost?.energyType`: the type is Any exactly when the mod has no cost or a cost of type Any, the two values `find` treats as falsy |
| Energy.ProcessModType | src/app/loadout-builder/mod-utils.ts:56 | `mod.energy?.type`: the type is Any exactly when the mod has no energy or energy of type Any, the two values `find` treats as falsy |
| Energy.IsEnergyLower | src/app/loadout-builder/mod-utils.ts:33-34 | true iff the item has energy and its capacity is at most the limit |
| Energy.FirstConcrete | src/app/loadout-builder/mod-utils.ts:56-57 | `find(type)?.type ?? Any`: Any iff every mod's type is Any; otherwise the type at the first position whose type is not Any |
| Energy.LocksFrom | src/app/loadout-builder/mod-utils.ts:55-69 | each of the five slots gets the first non-Any type of its category's list, or Any when the list is missing or all Any |
| Energy.AssignEnergyTypeToSlot | src/app/loadout-builder/mod-utils.ts:47-96 | process mods decide when given (locked mods ignored); else locked mods decide; else all five slots are Any |
| Energy.MatchingModsLockItemElement | src/app/loadout-builder/mod-utils.ts:74-75 | when every mod of a slot matches an item, the slot's lock is Any or that item's energy type |
| SlotAssignment.AssignmentRecord.constructor | src/app/loadout-builder/mod-utils.ts:177 | the record starts with no keys |
| SlotAssignment.AssignmentRecord.Put | src/app/loadout-builder/mod-utils.ts:180 | writing a key sets its list, and a first write appends the key to the key order |
| SlotAssignment.SlotAssign | src/app/loadout-builder/mod-utils.ts:109-111 | the item's entry changes iff the mods are defined and non-empty and (all match or the flag is set); it then becomes the old list followed by the mods' hashes in order; other entries never change |
| SlotAssignment.Accepts | src/app/loadout-builder/mod-utils.ts:109 | the guard of assignModsForSlot: the list is defined and non-empty, and every mod passes `doEnergiesMatch` or the flag is set |
| SlotAssignment.AssignModsForSlot | src/app/loadout-builder/mod-utils.ts:103-112 | updates the shared record in place to exactly `SlotAssign` of the old record; key order unchanged |
| SlotAssignment.FindBucketIndex | src/app/loadout-builder/mod-utils.ts:186 | `find` stops at the first item with the bucket hash; every item before it has another bucket |
| SlotAssignment.FirstWithBucket | src/app/loadout-builder/mod-utils.ts:186 | `setToMatch.find` by bucket hash: the item found is the one at `FindBucketIndex`, the first of the set with that bucket; nothing is found iff no item of the set has it |
| SlotAssignment.ModsForBucket | src/app/loadout-builder/mod-utils.ts:189 | `lockedArmor2Mods[bucketsToCategories[hash]]`: undefined when the bucket has no category or the category has no entry |
| SlotAssignment.InitialAssignments | src/app/loadout-builder/mod-utils.ts:179-181 | one entry per item id of the set, each empty |
| SlotAssignment.SlotPhase | src/app/loadout-builder/mod-utils.ts:185-193 | after the bucket loop, keys are the set's ids, process items come from the set, every hash is a hash of an input mod |
| SlotAssignment.BucketShare | src/app/loadout-builder/mod-utils.ts:188-190 | reference definition: the hashes one bucket gives one item, namely its slot list if the item is the bucket's first item and accepts the list, else nothing |
| SlotAssignment.ShareOf | src/app/loadout-builder/mod-utils.ts:185-193 | reference definition: the shares of all buckets for one item, in bucket order |
| SlotAssignment.SlotPhaseIsPerItemShare | src/app/loadout-builder/mod-utils.ts:185-193 | each item receives exactly the slot lists of the buckets it is first in and accepts, in bucket order |
| SlotAssignment.NonFirstItemReceivesNoSlotMods | src/app/loadout-builder/mod-utils.ts:186-190 | with distinct ids, an item preceded by another item of its bucket receives no slot-specific mods |
| Classification.ClassifyConcatenates | src/app/loadout-builder/mod-utils.ts:139-143 | raid and "other" lists are the concatenations of their categories' lists in entry order |
| Classification.KindOf | src/app/loadout-builder/mod-utils.ts:135-143 | the branch of the if-chain a category takes: general first, then slot-specific, then raid, then not known ("other"), else dropped |
| Classification.ClassifyEntry | src/app/loadout-builder/mod-utils.ts:133-143 | one turn of the loop: an undefined list is skipped, the general list replaces the previous one, a slot-specific list is stored under its category, raid and "other" lists are appended, a dropped kind changes nothing |
| Classification.Classify | src/app/loadout-builder/mod-utils.ts:130-144 | the groups after the loop has visited every entry in enumeration order; its properties are the lemmas of this module |
| Classification.OfKind | src/app/loadout-builder/mod-utils.ts:130-144 | reference definition: the defined lists of one kind, concatenated in entry order |
| Classification.ClassifyPartition | src/app/loadout-builder/mod-utils.ts:130-144 | the input's mods are the multiset union of the general, slot-specific, raid, other and dropped parts: each mod lands in exactly one |
| Classification.ClassifyGeneral | src/app/loadout-builder/mod-utils.ts:135-136 | with distinct categories, the general list equals the (single) defined list of the general category, taken as-is |
| Classification.ClassifySlotSpecific | src/app/loadout-builder/mod-utils.ts:137-138 | with distinct categories, a category is in the slot-specific map iff it is slot-specific with a defined list, stored under its own category |
| Classification.SlotListsInEntryOrder | src/app/loadout-builder/mod-utils.ts:137-138 | the lists of a slot-specific map read off in the entry order of the record |
| Classification.SlotListsMatch | src/app/loadout-builder/mod-utils.ts:137-138 | a map holding each slot-specific entry's list under its category reads off to the reference slot-specific list |
| Classification.ClassifySlotSpecificInOrder | src/app/loadout-builder/mod-utils.ts:137-138 | with distinct categories, the loop's map has every slot-specific category with a defined list, and its lists in entry order are exactly the record's slot-specific mods |
| Classification.ClassifyIsPartition | src/app/loadout-builder/mod-utils.ts:130-144 | with distinct categories, the loop's own groups (general, slot-specific lists, raid, other) and the dropped mods together are the multiset of input mods, so each mod lands in exactly one |
| Classification.ClassifiedFromInput | src/app/loadout-builder/mod-utils.ts:130-144 | every grouped mod is a mod of the input |
| SlotIndependent.AppendPlacement | src/app/loadout-builder/mod-utils.ts:161-169 | the engine keeps the record's keys and only appends: old lists stay prefixes, and new hashes come from the engine's placement |
| SlotIndependent.EngineSound | src/app/loadout-builder/mod-utils.ts:161-169 | assumed of one engine run: entries only for the items it was given, hashes only of the mods it was given |
| SlotIndependent.SoundEngine | src/app/loadout-builder/mod-utils.ts:161-169 | the engine is sound on every input |
| SlotIndependent.EngineCall | src/app/loadout-builder/mod-utils.ts:150-169 | what the engine is handed: the general, "other" and raid groups of `Classify`, the process items, the flag, and the locks `assignEnergyTypeToSlot({ lockedMods })` derives from the slot-specific map |
| SlotIndependent.EngineAppendsOnlyInputHashes | src/app/loadout-builder/mod-utils.ts:161-169 | a sound engine appends only hashes of the mods it was given |
| SlotIndependent.CanTakeSlotIndependantMods | src/app/loadout-builder/mod-utils.ts:161-169 | the record becomes `AppendPlacement` of the old one: keys and key order kept, old lists kept as prefixes, appended hashes from the input mods |
| SlotIndependent.AssignSlotIndependantMods | src/app/loadout-builder/mod-utils.ts:119-170 | the classification loop computes `Classify`; the engine receives its groups and the locks from the slot-specific map; the record becomes the engine's appended record |
| SlotIndependent.EngineLocksFromSlotSpecificMods | src/app/loadout-builder/mod-utils.ts:137-150 | each slot's lock is the first non-Any type of the slot-specific list stored under that slot's category, or Any, whatever the items or the flag |
| SlotIndependent.FirstConcreteAt | src/app/loadout-builder/mod-utils.ts:74-75 | the answer of `find` is the type at the first non-Any position |
| SlotIndependent.EngineModsFromInput | src/app/loadout-builder/mod-utils.ts:153-169 | the engine is handed only mods of the input |
| ModTypes.Hashes | src/app/loadout-builder/mod-utils.ts:110 | `mods.map((mod) => mod.modDef.hash)`: same length, hash by hash |
| ModTypes.IdOrder | src/app/loadout-builder/mod-utils.ts:179-181 | the record's key order: no repeats, exactly the set's ids |
| ModTypes.Lookup | src/app/loadout-builder/mod-utils.ts:189 | a defined list looked up by category holds only mods of the input |
| ModTypes.LookupAt | src/app/loadout-builder/mod-utils.ts:189 | with distinct categories, looking up an entry's category yields that entry's list |
| ModTypes.Flat | src/app/loadout-builder/mod-utils.ts:198-200 | `Object.values(lockedArmor2Mods).flat()` with the undefined lists removed, entries in enumeration order |
| Accounting.FilterHash | src/app/loadout-builder/mod-utils.ts:197-202 | a pool holds exactly the input mods of its hash |
| Accounting.GroupByHash | src/app/loadout-builder/mod-utils.ts:197-202 | `_.groupBy` by hash: one pool per hash of the input, holding that hash's mods in input order |
| Accounting.FilterHashSize | src/app/loadout-builder/mod-utils.ts:197-202 | a pool holds as many mods as the input has of its hash |
| Accounting.GroupedByHash | src/app/loadout-builder/mod-utils.ts:197-202 | `_.groupBy` by hash: each pool holds only its own hash, as many as the input has |
| Accounting.PopHash | src/app/loadout-builder/mod-utils.ts:204 | one `pop()`: the last mod of the hash's pool moves to the taken list; an empty pool yields `undefined`, which `.filter(Boolean)` drops |
| Accounting.DrawAll | src/app/loadout-builder/mod-utils.ts:204 | `modHashes.map(pop).filter(Boolean)`: the pops for a list of hashes, one after another, on shared pools |
| Accounting.Conserves | src/app/loadout-builder/mod-utils.ts:204 | the pools are stacks: each original pool is what is left of it followed by the taken mods of its hash, latest first |
| Accounting.PopConserves | src/app/loadout-builder/mod-utils.ts:204 | a pop keeps each pool's original contents equal to what is left followed by its taken mods, latest first |
| Accounting.DrawConserves | src/app/loadout-builder/mod-utils.ts:204 | popping for a list of hashes neither creates nor loses a mod: the pools are stacks |
| Accounting.DrawKeepsPoolsByHash | src/app/loadout-builder/mod-utils.ts:204 | popping keeps every pool holding only its own hash |
| Accounting.DrawBounds | src/app/loadout-builder/mod-utils.ts:204 | `.filter(Boolean)` after the pops: at most one mod per hash, and only mods of the asked hashes |
| Accounting.DrawWithinAsked | src/app/loadout-builder/mod-utils.ts:204 | no pool loses more mods than its hash was asked for |
| Accounting.DrawServed | src/app/loadout-builder/mod-utils.ts:204 | when no hash is asked for more often than its pool holds, every hash yields a mod of that hash, in order |
| Accounting.TakeForItem | src/app/loadout-builder/mod-utils.ts:204 | the `modHashes.map(pop)` loop computes exactly `DrawAll` |
| Accounting.TakeItems | src/app/loadout-builder/mod-utils.ts:203-205 | `_.mapValues` over the record's keys in key order, each item's hashes drawn in turn from the shared pools |
| Accounting.ConcatValues | src/app/loadout-builder/mod-utils.ts:206 | `Object.values(record).flat()`: the record's lists concatenated in key order |
| Accounting.TakeItemsShape | src/app/loadout-builder/mod-utils.ts:203-205 | `_.mapValues` gives an entry for exactly the record's keys, bounded by and drawn from each item's hashes |
| Accounting.TakeItemsConserve | src/app/loadout-builder/mod-utils.ts:203-205 | across all items the shared pools stay stacks of the mods handed out |
| Accounting.TakeItemsHashesInPools | src/app/loadout-builder/mod-utils.ts:203-205 | every mod handed out has the hash of a pool |
| Accounting.TakeItemsWithinPlan | src/app/loadout-builder/mod-utils.ts:203-205 | no pool shrinks by more than the number of times its hash was planned |
| Accounting.TakeItemsTight | src/app/loadout-builder/mod-utils.ts:203-205 | when no hash is planned more often than its pool holds, each item gets one mod per planned hash, in order |
| Accounting.TakeFromPools | src/app/loadout-builder/mod-utils.ts:203-205 | the loop over record keys with shared, mutated pools computes exactly `TakeItems` |
| Accounting.TakenFromInput | src/app/loadout-builder/mod-utils.ts:197-206 | the mods handed out are a sub-multiset of the input: each instance at most once |
| Accounting.TakeFromPoolsSound | src/app/loadout-builder/mod-utils.ts:197-205 | keys, per-item bounds, drawn from the input without duplication, and exact when the plan fits the input |
| Accounting.Unassigned | src/app/loadout-builder/mod-utils.ts:207-211 | leftovers are exactly the input mods whose key no assigned mod has, a sub-multiset of the input |
| Accounting.UnassignedCount | src/app/loadout-builder/mod-utils.ts:207-211 | with distinct keys, the filter drops exactly one mod per assigned key present in the input |
| Accounting.AssignedAndUnassignedCount | src/app/loadout-builder/mod-utils.ts:206-211 | with distinct keys and assigned mods drawn from the input, assigned plus leftovers number the input |
| ModUtils.PlannedHashesFromInput | src/app/loadout-builder/mod-utils.ts:195-204 | with a sound engine, the record has one entry per item and every hash in it names an existing pool, so no `pop` meets `undefined` |
| ModUtils.PlannedHashes | src/app/loadout-builder/mod-utils.ts:183-195 | the record once the bucket loop (`SlotPhase`) and the engine's appended placement (`AppendPlacement`) have run |
| ModUtils.NewAssignments | src/app/loadout-builder/mod-utils.ts:177-181 | a fresh record with one empty entry per item, keys in first-occurrence order |
| ModUtils.InitialAssignmentsStep | src/app/loadout-builder/mod-utils.ts:179-181 | one more item adds one empty entry, and appends its id to the key order if it is new |
| ModUtils.AssignSlotSpecificMods | src/app/loadout-builder/mod-utils.ts:183-193 | the bucket loop leaves the record and the process items equal to `SlotPhase` over `LockableBucketHashes` |
| ModUtils.SettleMods | src/app/loadout-builder/mod-utils.ts:197-213 | mods are popped as `TakeItems` says and the leftovers filtered by key; entries bounded by planned hashes; drawn from the input at most once each; a mod is left over iff no assigned mod has its key; with distinct keys the counts add up; exact when the plan fits |
| ModUtils.AssignModsToArmorSet | src/app/loadout-builder/mod-utils.ts:172-214 | the whole function, for any sound engine: every planned hash has a pool; one entry per item id; the assignment and leftover properties of `SettleMods` over the completed record |

## Left out

- The permutation generator and `canTakeSlotIndependantMods`: their file (`processWorker/processUtils`) is not part of this model. The engine is a function parameter `EngineInput -> Placement`. The only precondition on it is `SoundEngine`; append-only placement and independence from the `assignments` record are built into its type and `AppendPlacement` (see above). Nothing is claimed about first-fit placement, capacity checks or permutation completeness.
- `mapArmor2ModToProcessMod` and `mapDimItemToProcessItem` (`processWorker/mappers`) are not part of this model. `ProcessItem` records the mapper's inputs, and the engine works on `LockedMod` values.
- The contents of the constant tables (`d2-known-values`, `./types`) are abstract: they are the `Tables` parameter.
- `_.groupBy` and `_.mapValues` are written out as `GroupByHash`, `TakeItems` and `TakeFromPools`.
- The guard `if (!generalMods || !otherMods || !raidMods) return;` (mod-utils.ts:146-148) is left out: the three groups are always arrays, so it never returns.
- JavaScript key ordering is left out. `AssignmentRecord.order` is insertion order; JavaScript enumerates array-index-like keys in ascending numeric order first. The model does not decide which kind of key an item id is. An input record is a sequence of entries taken to be in its enumeration order already.
- `modsByHash[modHash].pop()` on a hash with no pool throws a TypeError in JavaScript. The model's `TakeFromPools` requires every planned hash to have a pool, and `ModUtils.PlannedHashesFromInput` proves this for every sound engine, so the crash path is not modelled.
- Energy types are integers with `Any` as 0. The energy cost and capacity figures beyond `isEnergyLower` belong to the engine.
- Worker pools and running candidate sets in parallel are left out: that is concurrency outside this file.
