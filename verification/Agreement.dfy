/** The two canonical forms, of snapshots in the store and of items in a briefing, agree. */
module Agreement {
  import opened Wrappers
  import opened Json
  import opened Briefing

  function MapList(g: Json -> Json, list: seq<Json>): seq<Json> {
    seq(|list|, i requires 0 <= i < |list| => g(list[i]))
  }

  /** `g` leaves an object an object and keeps its key. */
  ghost predicate KeepsKey(keyOf: Json -> string, g: Json -> Json, item: Json) {
    (g(item).Obj? <==> item.Obj?) && (item.Obj? ==> keyOf(g(item)) == keyOf(item))
  }

  /** Indexing by key commutes with a transformation that keeps keys. */
  lemma {:induction false} IndexCommutes(keyOf: Json -> string, g: Json -> Json, list: seq<Json>)
    requires forall i | 0 <= i < |list| :: KeepsKey(keyOf, g, list[i])
    ensures Index(keyOf, MapList(g, list)) == MapValues(g, Index(keyOf, list))
  {
    if list != [] {
      var init, last := list[..|list| - 1], list[|list| - 1];
      IndexCommutes(keyOf, g, init);
      assert KeepsKey(keyOf, g, last);
      assert MapList(g, list)[..|list| - 1] == MapList(g, init);
    }
  }

  lemma {:induction false} IndexMembers(keyOf: Json -> string, list: seq<Json>, k: string)
    requires k in Index(keyOf, list)
    ensures Index(keyOf, list)[k] in list
  {
    var init, last := list[..|list| - 1], list[|list| - 1];
    assert list == init + [last];
    if k in Index(keyOf, init) {
      IndexMembers(keyOf, init, k);
    }
  }

  // ----- both removal and decoding keep keys -----

  function Strip(): Json -> Json {
    (j: Json) => Remove(VOLATILE, j)
  }

  function Reread(float64: string -> string): Json -> Json {
    (j: Json) => Decode(float64, j)
  }

  lemma StripField(item: Json, name: string)
    requires name !in VOLATILE
    ensures StringField(Remove(VOLATILE, item), name) == StringField(item, name)
  {}

  lemma RereadField(float64: string -> string, item: Json, name: string)
    ensures StringField(Decode(float64, item), name) == StringField(item, name)
  {}

  lemma StripKeepsKey(s: Section, item: Json)
    ensures KeepsKey(KeyBy(s), Strip(), item)
  {
    match s
    case Departures =>
      StripField(item, "expected_at");
      StripField(item, "scheduled_at");
      StripField(item, "line_name");
      StripField(item, "destination");
    case Velov => StripField(item, "id");
    case Journey =>
      StripField(item, "mode");
      StripField(item, "summary");
    case Mobility => StripField(item, "id");
    case Environment => StripField(item, "indicator");
  }

  lemma RereadKeepsKey(float64: string -> string, s: Section, item: Json)
    ensures KeepsKey(KeyBy(s), Reread(float64), item)
  {
    match s
    case Departures =>
      RereadField(float64, item, "expected_at");
      RereadField(float64, item, "scheduled_at");
      RereadField(float64, item, "line_name");
      RereadField(float64, item, "destination");
    case Velov => RereadField(float64, item, "id");
    case Journey =>
      RereadField(float64, item, "mode");
      RereadField(float64, item, "summary");
    case Mobility => RereadField(float64, item, "id");
    case Environment => RereadField(float64, item, "indicator");
  }

  lemma NamesAreLasting(s: Section)
    ensures ListName(s) !in VOLATILE && SectionName(s) !in VOLATILE
  {}

  /** A decoded value: nothing typed in it. */
  ghost predicate IsDecoded(j: Json) {
    Decode(KeepDigits, j) == j
  }

  lemma StrippedList(float64: string -> string, s: Section, value: Json)
    requires IsDecoded(value)
    ensures ItemList(float64, s, Remove(VOLATILE, value)) == MapList(Strip(), ItemList(float64, s, value))
  {
    NamesAreLasting(s);
    match Field(value, ListName(s))
    case Some(Arr(items, typed)) =>
      assert Decode(KeepDigits, value).fields[ListName(s)] == Decode(KeepDigits, Arr(items, typed));
      assert !typed;
    case _ =>
  }

  /** The items of a stripped section are the stripped items of the section. */
  lemma StrippedItems(float64: string -> string, s: Section, value: Json)
    requires IsDecoded(value)
    ensures ItemsOf(float64, s, Remove(VOLATILE, value)) == MapValues(Strip(), ItemsOf(float64, s, value))
  {
    var list := ItemList(float64, s, value);
    StrippedList(float64, s, value);
    forall i | 0 <= i < |list| ensures KeepsKey(KeyBy(s), Strip(), list[i]) {
      StripKeepsKey(s, list[i]);
    }
    IndexCommutes(KeyBy(s), Strip(), list);
  }

  /** The items of a section that was stored and read back are its items, stored and read back. */
  lemma RereadItems(float64: string -> string, s: Section, value: Json)
    requires Settled(float64)
    ensures ItemsOf(float64, s, Decode(float64, value)) == MapValues(Reread(float64), ItemsOf(float64, s, value))
  {
    var list := ItemList(float64, s, value);
    RereadList(float64, s, value);
    forall i | 0 <= i < |list| ensures KeepsKey(KeyBy(s), Reread(float64), list[i]) {
      RereadKeepsKey(float64, s, list[i]);
    }
    IndexCommutes(KeyBy(s), Reread(float64), list);
  }

  lemma RereadList(float64: string -> string, s: Section, value: Json)
    requires Settled(float64)
    ensures ItemList(float64, s, Decode(float64, value)) == MapList(Reread(float64), ItemList(float64, s, value))
  {
    match Field(value, ListName(s))
    case Some(Arr(items, typed)) =>
      if typed {
        forall i | 0 <= i < |items| ensures Decode(float64, Decode(float64, items[i])) == Decode(float64, items[i]) {
          DecodeTwice(float64, items[i]);
        }
      }
    case _ =>
  }

  lemma DecodedItem(float64: string -> string, s: Section, value: Json, k: string)
    requires IsDecoded(value) && k in ItemsOf(float64, s, value)
    ensures IsDecoded(ItemsOf(float64, s, value)[k])
  {
    var list := ItemList(float64, s, value);
    IndexMembers(KeyBy(s), list, k);
    var i :| 0 <= i < |list| && list[i] == ItemsOf(float64, s, value)[k];
    var field := Field(value, ListName(s)).value;
    assert Decode(KeepDigits, field) == field;
    assert list == field.items;
    assert Decode(KeepDigits, field).items[i] == Decode(KeepDigits, list[i]);
  }

  // ----- equivalent facts have no differences, number formats apart -----

  /** float64 reading leaves the lasting numbers of an item as they are printed. */
  predicate NumbersStable(float64: string -> string, item: Json) {
    Remove(VOLATILE, Decode(float64, item)) == Remove(VOLATILE, Decode(KeepDigits, item))
  }

  /** The numbers of every item of the new facts are stable. */
  ghost predicate ItemNumbersStable(float64: string -> string, facts: Facts) {
    forall s: Section | SectionName(s) in facts :: SectionStable(float64, s, facts[SectionName(s)])
  }

  ghost predicate SectionStable(float64: string -> string, s: Section, value: Json) {
    forall k | k in ItemsOf(float64, s, value) :: NumbersStable(float64, ItemsOf(float64, s, value)[k])
  }

  /** The stored facts and the new ones, stored and read back, agree apart from volatile fields. */
  ghost predicate Equivalent(float64: string -> string, stored: Facts, current: Facts) {
    forall s: Section :: EquivalentSection(float64, s, stored, current)
  }

  ghost predicate EquivalentSection(float64: string -> string, s: Section, stored: Facts, current: Facts) {
    var name := SectionName(s);
    && (name in stored <==> name in current)
    && (name in stored ==>
          IsDecoded(stored[name]) && Remove(VOLATILE, stored[name]) == Remove(VOLATILE, Decode(float64, current[name])))
  }

  function MapValues(g: Json -> Json, items: Items): Items {
    map k | k in items :: g(items[k])
  }

  lemma SameImages(g: Json -> Json, h: Json -> Json, olds: Items, read: Items, news: Items, stripped: Items)
    requires stripped == MapValues(g, olds) && stripped == MapValues(g, read) && read == MapValues(h, news)
    ensures olds.Keys == news.Keys
    ensures forall k | k in olds :: g(olds[k]) == g(h(news[k]))
  {
    assert olds.Keys == stripped.Keys && read.Keys == stripped.Keys && read.Keys == news.Keys;
    forall k | k in olds ensures g(olds[k]) == g(h(news[k])) {
      assert stripped[k] == g(olds[k]);
      assert stripped[k] == g(read[k]);
    }
  }

  lemma EquivalentKeys(float64: string -> string, s: Section, stored: Json, current: Json)
    requires Settled(float64) && IsDecoded(stored)
    requires Remove(VOLATILE, stored) == Remove(VOLATILE, Decode(float64, current))
    ensures ItemsOf(float64, s, stored).Keys == ItemsOf(float64, s, current).Keys
    ensures forall k | k in ItemsOf(float64, s, stored) && k in ItemsOf(float64, s, current) ::
      Remove(VOLATILE, ItemsOf(float64, s, stored)[k])
          == Remove(VOLATILE, Decode(float64, ItemsOf(float64, s, current)[k]))
  {
    KeepDecoded(float64, current);
    StrippedItems(float64, s, stored);
    StrippedItems(float64, s, Decode(float64, current));
    RereadItems(float64, s, current);
    SameImages(Strip(), Reread(float64), ItemsOf(float64, s, stored), ItemsOf(float64, s, Decode(float64, current)),
               ItemsOf(float64, s, current), ItemsOf(float64, s, Remove(VOLATILE, stored)));
  }

  lemma EquivalentItem(float64: string -> string, s: Section, stored: Json, current: Json, k: string)
    requires Settled(float64) && IsDecoded(stored)
    requires Remove(VOLATILE, stored) == Remove(VOLATILE, Decode(float64, current))
    ensures KeyChange(s, ItemsOf(float64, s, stored), ItemsOf(float64, s, current), k) == None <==>
            (k in ItemsOf(float64, s, current) ==> NumbersStable(float64, ItemsOf(float64, s, current)[k]))
  {
    EquivalentKeys(float64, s, stored, current);
    if k in ItemsOf(float64, s, stored) {
      DecodedItem(float64, s, stored, k);
    }
  }

  lemma {:induction false} NoKeyChanges(s: Section, before: Items, after: Items, keys: seq<string>)
    ensures KeyChanges(s, before, after, keys) == [] <==>
        forall i | 0 <= i < |keys| :: KeyChange(s, before, after, keys[i]) == None
  {
    if keys != [] {
      NoKeyChanges(s, before, after, keys[..|keys| - 1]);
    }
  }

  /** Comparing over all keys in order finds nothing exactly when no key has changed. */
  lemma NoItemChanges(s: Section, before: Items, after: Items)
    ensures KeyChanges(s, before, after, Ordered(before.Keys + after.Keys)) == [] <==>
            forall k :: KeyChange(s, before, after, k) == None
  {
    var keys := Ordered(before.Keys + after.Keys);
    NoKeyChanges(s, before, after, keys);
    if forall i | 0 <= i < |keys| :: KeyChange(s, before, after, keys[i]) == None {
      forall k ensures KeyChange(s, before, after, k) == None {
        KeyChangeKeys(s, before, after, k);
        if k in before.Keys + after.Keys {
          assert k in StringSorting.Members(keys);
          var i :| 0 <= i < |keys| && keys[i] == k;
        }
      }
    }
  }

  lemma EquivalentSectionDiff(float64: string -> string, s: Section, stored: Facts, current: Facts)
    requires Settled(float64) && EquivalentSection(float64, s, stored, current)
    ensures SectionChanges(float64, s, stored, current) == [] <==>
            (SectionName(s) in current ==> SectionStable(float64, s, current[SectionName(s)]))
  {
    var name := SectionName(s);
    if name in stored {
      var olds, news := ItemsOf(float64, s, stored[name]), ItemsOf(float64, s, current[name]);
      NoItemChanges(s, olds, news);
      forall k ensures KeyChange(s, olds, news, k) == None <==> (k in news ==> NumbersStable(float64, news[k])) {
        EquivalentItem(float64, s, stored[name], current[name], k);
      }
    }
  }

  lemma {:induction false} NoChangesUpTo(float64: string -> string, before: Facts, after: Facts, n: nat)
    requires n <= |SECTIONS|
    ensures ChangesUpTo(float64, before, after, n) == [] <==>
            forall s: Section | SectionRank(s) < n :: SectionChanges(float64, s, before, after) == []
  {
    if n > 0 {
      NoChangesUpTo(float64, before, after, n - 1);
      RankedSection(n - 1);
    }
  }

  /**
   Facts that the store takes for equivalent show no difference in a briefing exactly
   when float64 reading leaves the lasting numbers of the new items as they are printed.
   */
  lemma EquivalentFactsDiff(float64: string -> string, stored: Facts, current: Facts)
    requires Settled(float64) && Equivalent(float64, stored, current)
    ensures AllChanges(float64, stored, current) == [] <==> ItemNumbersStable(float64, current)
  {
    NoChangesUpTo(float64, stored, current, |SECTIONS|);
    forall s: Section
      ensures SectionChanges(float64, s, stored, current) == [] <==>
              (SectionName(s) in current ==> SectionStable(float64, s, current[SectionName(s)]))
    {
      assert EquivalentSection(float64, s, stored, current);
      EquivalentSectionDiff(float64, s, stored, current);
    }
    assert forall s: Section :: SectionRank(s) < |SECTIONS|;
  }

  /** Lists of Go structs, which the live services supply, have stable numbers whatever they are. */
  lemma TypedListsAreStable(float64: string -> string, s: Section, value: Json)
    requires Settled(float64)
    requires Field(value, ListName(s)).Some? && Field(value, ListName(s)).value.Arr?
        && Field(value, ListName(s)).value.typed
    ensures SectionStable(float64, s, value)
  {
    var items := Field(value, ListName(s)).value.items;
    var list := ItemList(float64, s, value);
    forall k | k in ItemsOf(float64, s, value) ensures NumbersStable(float64, ItemsOf(float64, s, value)[k]) {
      IndexMembers(KeyBy(s), list, k);
      var i :| 0 <= i < |list| && list[i] == ItemsOf(float64, s, value)[k];
      DecodeTwice(float64, items[i]);
      KeepDecoded(float64, items[i]);
    }
  }

  /** The section's list is absent, or a list of structs. */
  predicate TypedSection(s: Section, value: Json) {
    match Field(value, ListName(s))
    case Some(Arr(_, typed)) => typed
    case _ => true
  }

  ghost predicate TypedFacts(facts: Facts) {
    forall s: Section | SectionName(s) in facts :: TypedSection(s, facts[SectionName(s)])
  }

  lemma TypedFactsAreStable(float64: string -> string, facts: Facts)
    requires Settled(float64) && TypedFacts(facts)
    ensures ItemNumbersStable(float64, facts)
  {
    forall s: Section | SectionName(s) in facts ensures SectionStable(float64, s, facts[SectionName(s)]) {
      assert TypedSection(s, facts[SectionName(s)]);
      TypedSectionIsStable(float64, s, facts[SectionName(s)]);
    }
  }

  lemma TypedSectionIsStable(float64: string -> string, s: Section, value: Json)
    requires Settled(float64) && TypedSection(s, value)
    ensures SectionStable(float64, s, value)
  {
    var list := Field(value, ListName(s));
    if list.Some? && list.value.Arr? {
      TypedListsAreStable(float64, s, value);
    } else {
      assert ItemList(float64, s, value) == [];
      assert ItemsOf(float64, s, value) == map[];
    }
  }
}
