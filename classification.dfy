/**
 * How assignSlotIndependantMods sorts the locked-mod record into the general,
 * slot-specific, raid and "other" groups.
 */
module Classification {
  import opened Wrappers
  import opened ModTypes

  /** Which branch of the classification if-chain a plug category takes. */
  datatype Kind = General | SlotSpecific | Raid | Other | Dropped

  function KindOf(t: Tables, c: CategoryHash): Kind
  {
    if c == t.general then General
    else if c in t.slotSpecific then SlotSpecific
    else if c in t.raid then Raid
    else if c !in t.known then Other
    else Dropped
  }

  datatype Groups = Groups(
    general: seq<LockedMod>,
    slotSpecific: map<CategoryHash, seq<LockedMod>>,
    raid: seq<LockedMod>,
    other: seq<LockedMod>)

  const NoGroups := Groups([], map[], [], [])

  /** One turn of the loop over the record's entries. */
  function ClassifyEntry(g: Groups, e: Entry, t: Tables): Groups
  {
    match e.mods
    case None => g
    case Some(ms) =>
      match KindOf(t, e.category)
      case General => g.(general := ms)
      case SlotSpecific => g.(slotSpecific := g.slotSpecific[e.category := ms])
      case Raid => g.(raid := g.raid + ms)
      case Other => g.(other := g.other + ms)
      case Dropped => g
  }

  /** The groups after the loop has visited every entry of `es`, in order. */
  function Classify(es: LockedModMap, t: Tables): Groups
  {
    if |es| == 0 then NoGroups else ClassifyEntry(Classify(es[..|es| - 1], t), es[|es| - 1], t)
  }

  /** Reference definition: the defined lists of kind `k`, concatenated in entry order. */
  function OfKind(es: LockedModMap, t: Tables, k: Kind): seq<LockedMod>
  {
    if |es| == 0 then []
    else
      var e := es[|es| - 1];
      OfKind(es[..|es| - 1], t, k) + (if e.mods.Some? && KindOf(t, e.category) == k then e.mods.value else [])
  }

  /** Raid and "other" lists are the concatenations of the lists of their kind, in entry order. */
  lemma {:induction false} ClassifyConcatenates(es: LockedModMap, t: Tables)
    ensures Classify(es, t).raid == OfKind(es, t, Raid)
    ensures Classify(es, t).other == OfKind(es, t, Other)
  {
    if |es| > 0 {
      ClassifyConcatenates(es[..|es| - 1], t);
    }
  }

  /** Every mod of the record has exactly one kind: the record is the disjoint union of the five kinds. */
  lemma {:induction false} ClassifyPartition(es: LockedModMap, t: Tables)
    ensures multiset(Flat(es)) ==
      multiset(OfKind(es, t, General)) + multiset(OfKind(es, t, SlotSpecific)) + multiset(OfKind(es, t, Raid))
      + multiset(OfKind(es, t, Other)) + multiset(OfKind(es, t, Dropped))
  {
    if |es| > 0 {
      var n := |es| - 1;
      var prefix, e := es[..n], es[n];
      ClassifyPartition(prefix, t);
      assert multiset(Flat(es)) == multiset(Flat(prefix)) + multiset(ModsOf(e));
      OfKindStep(es, t, General);
      OfKindStep(es, t, SlotSpecific);
      OfKindStep(es, t, Raid);
      OfKindStep(es, t, Other);
      OfKindStep(es, t, Dropped);
      AddToOnePart(multiset(Flat(prefix)), multiset(ModsOf(e)), KindOf(t, e.category),
                   multiset(OfKind(prefix, t, General)), multiset(OfKind(prefix, t, SlotSpecific)),
                   multiset(OfKind(prefix, t, Raid)), multiset(OfKind(prefix, t, Other)),
                   multiset(OfKind(prefix, t, Dropped)),
                   multiset(OfKind(es, t, General)), multiset(OfKind(es, t, SlotSpecific)),
                   multiset(OfKind(es, t, Raid)), multiset(OfKind(es, t, Other)),
                   multiset(OfKind(es, t, Dropped)));
    }
  }

  /** Part `kind` of a partition once `ms` has joined part `k`. */
  function Joined<T>(part: multiset<T>, ms: multiset<T>, k: Kind, kind: Kind): multiset<T>
  {
    if k == kind then part + ms else part
  }

  /** Adding `ms` to the whole of a five-part partition adds it to exactly one part. */
  lemma AddToOnePart<T>(whole: multiset<T>, ms: multiset<T>, k: Kind,
                        g: multiset<T>, sl: multiset<T>, ra: multiset<T>, ot: multiset<T>, dr: multiset<T>,
                        g': multiset<T>, sl': multiset<T>, ra': multiset<T>, ot': multiset<T>, dr': multiset<T>)
    requires whole == g + sl + ra + ot + dr
    requires g' == Joined(g, ms, k, General) && sl' == Joined(sl, ms, k, SlotSpecific)
    requires ra' == Joined(ra, ms, k, Raid) && ot' == Joined(ot, ms, k, Other) && dr' == Joined(dr, ms, k, Dropped)
    ensures whole + ms == g' + sl' + ra' + ot' + dr'
  {
  }

  lemma OfKindStep(es: LockedModMap, t: Tables, k: Kind)
    requires |es| > 0
    ensures multiset(OfKind(es, t, k)) ==
      Joined(multiset(OfKind(es[..|es| - 1], t, k)), multiset(ModsOf(es[|es| - 1])), KindOf(t, es[|es| - 1].category), k)
  {
  }

  lemma {:induction false} SlotKeysFromEntries(es: LockedModMap, t: Tables, c: CategoryHash)
    requires c in Classify(es, t).slotSpecific
    ensures exists i | 0 <= i < |es| :: es[i].category == c
  {
    var n := |es| - 1;
    if es[n].category != c {
      SlotKeysFromEntries(es[..n], t, c);
      var i :| 0 <= i < n && es[..n][i].category == c;
      assert es[i].category == c;
    }
  }

  lemma {:induction false} NoGeneralEntry(es: LockedModMap, t: Tables)
    requires forall i | 0 <= i < |es| :: es[i].category != t.general
    ensures Classify(es, t).general == [] && OfKind(es, t, General) == []
  {
    if |es| > 0 {
      NoGeneralEntry(es[..|es| - 1], t);
    }
  }

  /** With distinct keys, the general list is the list stored under the general category. */
  lemma {:induction false} ClassifyGeneral(es: LockedModMap, t: Tables)
    requires UniqueCategories(es)
    ensures Classify(es, t).general == OfKind(es, t, General)
  {
    if |es| > 0 {
      var n := |es| - 1;
      var prefix := es[..n];
      assert UniqueCategories(prefix);
      ClassifyGeneral(prefix, t);
      if es[n].mods.Some? && KindOf(t, es[n].category) == General {
        assert forall i | 0 <= i < n :: prefix[i].category != es[n].category;
        NoGeneralEntry(prefix, t);
      }
    }
  }

  /**
   * With distinct keys, the slot-specific map holds exactly the defined lists
   * of slot-specific categories, each under its own category.
   */
  lemma {:induction false} ClassifySlotSpecific(es: LockedModMap, t: Tables, c: CategoryHash)
    requires UniqueCategories(es)
    ensures c in Classify(es, t).slotSpecific <==> KindOf(t, c) == SlotSpecific && Lookup(es, c).Some?
    ensures c in Classify(es, t).slotSpecific ==> Classify(es, t).slotSpecific[c] == Lookup(es, c).value
  {
    if |es| > 0 {
      var n := |es| - 1;
      var e := es[n];
      var prefix := es[..n];
      var g := Classify(prefix, t);
      assert Classify(es, t) == ClassifyEntry(g, e, t);
      if e.category == c {
        assert Lookup(es, c) == e.mods;
        if c in g.slotSpecific {
          SlotKeysFromEntries(prefix, t, c);
          assert false;
        }
        SlotMapStep(g, e, t);
      } else {
        SlotMapStep(g, e, t);
        assert Lookup(es, c) == Lookup(prefix, c);
        assert UniqueCategories(prefix);
        ClassifySlotSpecific(prefix, t, c);
      }
    }
  }

  lemma SlotMapStep(g: Groups, e: Entry, t: Tables)
    ensures ClassifyEntry(g, e, t).slotSpecific ==
      if e.mods.Some? && KindOf(t, e.category) == SlotSpecific
      then g.slotSpecific[e.category := e.mods.value] else g.slotSpecific
  {
  }

  /** The lists of a slot-specific map, one per slot-specific entry of `es` with a defined list, in entry order. */
  function SlotListsInEntryOrder(es: LockedModMap, t: Tables, slots: map<CategoryHash, seq<LockedMod>>): seq<LockedMod>
    requires forall i | 0 <= i < |es| :: es[i].mods.Some? && KindOf(t, es[i].category) == SlotSpecific ==>
      es[i].category in slots
  {
    if |es| == 0 then []
    else
      var e := es[|es| - 1];
      SlotListsInEntryOrder(es[..|es| - 1], t, slots)
      + (if e.mods.Some? && KindOf(t, e.category) == SlotSpecific then slots[e.category] else [])
  }

  /** A map holding each slot-specific entry's list under its category lists them as the reference does. */
  lemma {:induction false} SlotListsMatch(es: LockedModMap, t: Tables, slots: map<CategoryHash, seq<LockedMod>>)
    requires forall i | 0 <= i < |es| :: es[i].mods.Some? && KindOf(t, es[i].category) == SlotSpecific ==>
      es[i].category in slots && slots[es[i].category] == es[i].mods.value
    ensures SlotListsInEntryOrder(es, t, slots) == OfKind(es, t, SlotSpecific)
  {
    if |es| > 0 {
      var n := |es| - 1;
      assert forall i | 0 <= i < n :: es[..n][i] == es[i];
      SlotListsMatch(es[..n], t, slots);
    }
  }

  /**
   * With distinct categories, the slot-specific map the loop builds has an
   * entry for every slot-specific category with a defined list, and its lists,
   * in entry order, are exactly the slot-specific mods of the record.
   */
  lemma ClassifySlotSpecificInOrder(es: LockedModMap, t: Tables)
    requires UniqueCategories(es)
    ensures var slots := Classify(es, t).slotSpecific;
      && (forall i | 0 <= i < |es| :: es[i].mods.Some? && KindOf(t, es[i].category) == SlotSpecific ==>
           es[i].category in slots)
      && SlotListsInEntryOrder(es, t, slots) == OfKind(es, t, SlotSpecific)
  {
    var slots := Classify(es, t).slotSpecific;
    forall i | 0 <= i < |es| && es[i].mods.Some? && KindOf(t, es[i].category) == SlotSpecific
      ensures es[i].category in slots && slots[es[i].category] == es[i].mods.value
    {
      ClassifySlotSpecific(es, t, es[i].category);
      LookupAt(es, i);
    }
    SlotListsMatch(es, t, slots);
  }

  /**
   * With distinct categories, the groups the loop returns partition the
   * record: every mod is in exactly one of the general list, the slot-specific
   * lists, the raid list and the "other" list, or in a dropped known category.
   */
  lemma ClassifyIsPartition(es: LockedModMap, t: Tables)
    requires UniqueCategories(es)
    ensures var g := Classify(es, t);
      && (forall i | 0 <= i < |es| :: es[i].mods.Some? && KindOf(t, es[i].category) == SlotSpecific ==>
           es[i].category in g.slotSpecific)
      && multiset(Flat(es)) ==
           multiset(g.general) + multiset(SlotListsInEntryOrder(es, t, g.slotSpecific)) + multiset(g.raid)
           + multiset(g.other) + multiset(OfKind(es, t, Dropped))
  {
    ClassifyPartition(es, t);
    ClassifyGeneral(es, t);
    ClassifyConcatenates(es, t);
    ClassifySlotSpecificInOrder(es, t);
  }

  /** Every grouped mod is a mod of the record. */
  lemma {:induction false} ClassifiedFromInput(es: LockedModMap, t: Tables)
    ensures var g := Classify(es, t);
      forall m | m in g.general + g.raid + g.other :: m in Flat(es)
    ensures var g := Classify(es, t);
      forall c | c in g.slotSpecific :: forall m | m in g.slotSpecific[c] :: m in Flat(es)
  {
    if |es| > 0 {
      ClassifiedFromInput(es[..|es| - 1], t);
    }
  }
}
