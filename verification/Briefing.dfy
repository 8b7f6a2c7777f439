/** The difference between a stored briefing and new facts. */
module Briefing {
  import opened Wrappers
  import opened Text
  import opened Sorting
  import opened StringSorting
  import opened Json

  datatype Section = Departures | Velov | Journey | Mobility | Environment

  const SECTIONS: seq<Section> := [Departures, Velov, Journey, Mobility, Environment]

  function SectionName(s: Section): string {
    match s
    case Departures => "departures"
    case Velov => "velov"
    case Journey => "journey"
    case Mobility => "mobility"
    case Environment => "environment"
  }

  function ListName(s: Section): string {
    match s
    case Departures => "departures"
    case Velov => "stations"
    case Journey => "options"
    case Mobility => "alerts"
    case Environment => "indicators"
  }

  const VOLATILE: set<string> :=
      {"age_seconds", "distance_m", "generated_at", "observed_at", "request_id", "retrieved_at"}

  /** canonicalBriefingValue */
  function Canonical(value: Json): Json {
    Remove(VOLATILE, Decode(KeepDigits, value))
  }

  /** equalBriefingValue */
  predicate EqualValues(left: Json, right: Json) {
    Canonical(left) == Canonical(right)
  }

  // ----- the items of a section -----

  function StringField(item: Json, name: string): string {
    match Field(item, name)
    case Some(Str(text)) => Trim(text)
    case _ => ""
  }

  function ItemKey(s: Section, item: Json): string {
    match s
    case Departures =>
      var expected := StringField(item, "expected_at");
      var when := if expected == "" then StringField(item, "scheduled_at") else expected;
      StringField(item, "line_name") + "|" + StringField(item, "destination") + "|" + when
    case Velov => StringField(item, "id")
    case Journey => StringField(item, "mode") + "|" + StringField(item, "summary")
    case Mobility => StringField(item, "id")
    case Environment => StringField(item, "indicator")
  }

  /** The section's list; a list of Go structs is marshalled and decoded with float64 numbers. */
  function ItemList(float64: string -> string, s: Section, value: Json): seq<Json> {
    match Field(value, ListName(s))
    case Some(Arr(items, typed)) => if typed then Decode(float64, Arr(items, typed)).items else items
    case _ => []
  }

  type Items = map<string, Json>

  /** The objects among `list` by key; a later item replaces an earlier one of the same key. */
  function Index(keyOf: Json -> string, list: seq<Json>): Items {
    if list == [] then map[]
    else
      var before, item := Index(keyOf, list[..|list| - 1]), list[|list| - 1];
      if !item.Obj? || keyOf(item) == "" then before else before[keyOf(item) := item]
  }

  function KeyBy(s: Section): Json -> string {
    (item: Json) => ItemKey(s, item)
  }

  function ItemsOf(float64: string -> string, s: Section, value: Json): Items {
    Index(KeyBy(s), ItemList(float64, s, value))
  }

  method IndexItems(keyOf: Json -> string, list: seq<Json>) returns (result: Items)
    ensures result == Index(keyOf, list)
  {
    result := map[];
    for i := 0 to |list|
      invariant result == Index(keyOf, list[..i])
    {
      assert list[..i + 1][..i] == list[..i];
      var item := list[i];
      if !item.Obj? {
        continue;
      }
      var key := keyOf(item);
      if key != "" {
        result := result[key := item];
      }
    }
    assert list[..|list|] == list;
  }

  method BriefingItems(float64: string -> string, s: Section, value: Json) returns (result: Items)
    ensures result == ItemsOf(float64, s, value)
  {
    result := IndexItems(KeyBy(s), ItemList(float64, s, value));
  }

  // ----- which items are the same -----

  /** The expected time, or the scheduled one when there is none. */
  function DepartureTime(item: Json): string {
    if StringField(item, "expected_at") != "" then StringField(item, "expected_at")
    else StringField(item, "scheduled_at")
  }

  predicate SameField(a: Json, b: Json, name: string) {
    StringField(a, name) == StringField(b, name)
  }

  /** The two items agree on the fields that identify an item of the section. */
  predicate SameItem(s: Section, a: Json, b: Json) {
    match s
    case Departures =>
      SameField(a, b, "line_name") && SameField(a, b, "destination") && DepartureTime(a) == DepartureTime(b)
    case Velov => SameField(a, b, "id")
    case Journey => SameField(a, b, "mode") && SameField(a, b, "summary")
    case Mobility => SameField(a, b, "id")
    case Environment => SameField(a, b, "indicator")
  }

  /** The fields that the key puts before a bar hold no bar themselves. */
  predicate Barless(s: Section, item: Json) {
    match s
    case Departures => '|' !in StringField(item, "line_name") && '|' !in StringField(item, "destination")
    case Journey => '|' !in StringField(item, "mode")
    case _ => true
  }

  lemma CutAtBar(a: string, b: string, c: string, d: string)
    requires '|' !in a && '|' !in c
    ensures a + "|" + b == c + "|" + d <==> a == c && b == d
  {
    var s, t := a + "|" + b, c + "|" + d;
    if s == t {
      IndexOfFirst(a, '|', b);
      IndexOfFirst(c, '|', d);
      assert s == a + ['|'] + b && t == c + ['|'] + d;
      assert s[..|a|] == a && t[..|a|] == c;
      assert s[|a| + 1..] == b && t[|a| + 1..] == d;
    }
  }

  lemma DepartureKey(item: Json)
    ensures ItemKey(Departures, item)
         == StringField(item, "line_name") + "|" + (StringField(item, "destination") + "|" + DepartureTime(item))
  {
    var line, destination := StringField(item, "line_name"), StringField(item, "destination");
    var when := DepartureTime(item);
    assert ItemKey(Departures, item) == line + "|" + destination + "|" + when;
    Regrouped(line, destination, when);
  }

  lemma Regrouped(a: string, b: string, c: string)
    ensures a + "|" + b + "|" + c == a + "|" + (b + "|" + c)
  {
  }

  /** Keys tell items apart exactly as their identifying fields do, as long as these hold no bar. */
  lemma KeysIdentify(s: Section, a: Json, b: Json)
    requires Barless(s, a) && Barless(s, b)
    ensures ItemKey(s, a) == ItemKey(s, b) <==> SameItem(s, a, b)
  {
    match s
    case Departures =>
      DepartureKey(a);
      DepartureKey(b);
      CutAtBar(StringField(a, "line_name"), StringField(a, "destination") + "|" + DepartureTime(a),
          StringField(b, "line_name"), StringField(b, "destination") + "|" + DepartureTime(b));
      CutAtBar(StringField(a, "destination"), DepartureTime(a), StringField(b, "destination"), DepartureTime(b));
    case Journey =>
      CutAtBar(StringField(a, "mode"), StringField(a, "summary"), StringField(b, "mode"), StringField(b, "summary"));
    case _ =>
  }

  /** Only items that are identified by one field can lack a key. */
  lemma WithoutKey(s: Section, item: Json)
    ensures ItemKey(s, item) == "" <==>
      match s
      case Departures => false
      case Journey => false
      case Environment => StringField(item, "indicator") == ""
      case _ => StringField(item, "id") == ""
  {
    if s == Departures {
      DepartureKey(item);
    }
  }

  /** A departure of line `line` to `destination`, without times. */
  function BareDeparture(line: string, destination: string): Json {
    Obj(map["line_name" := Str(line), "destination" := Str(destination)])
  }

  lemma BareDecoded(float64: string -> string, line: string, destination: string)
    ensures Decode(float64, BareDeparture(line, destination)) == BareDeparture(line, destination)
  {
  }

  lemma BareKey(line: string, destination: string)
    requires Tight(line) && Tight(destination)
    ensures ItemKey(Departures, BareDeparture(line, destination)) == line + "|" + (destination + "|" + "")
    ensures StringField(BareDeparture(line, destination), "line_name") == line
  {
    TrimTight(line);
    TrimTight(destination);
    DepartureKey(BareDeparture(line, destination));
  }

  lemma TightWords()
    ensures Tight("A|B") && Tight("C") && Tight("A") && Tight("B|C")
  {
    VisibleIsNoSpace('A');
    VisibleIsNoSpace('B');
    VisibleIsNoSpace('C');
  }

  lemma MergedKeys()
    ensures ItemKey(Departures, BareDeparture("A|B", "C")) == ItemKey(Departures, BareDeparture("A", "B|C"))
    ensures !SameItem(Departures, BareDeparture("A|B", "C"), BareDeparture("A", "B|C"))
  {
    TightWords();
    BareKey("A|B", "C");
    BareKey("A", "B|C");
    assert "A|B" + "|" + ("C" + "|" + "") == "A|B|C|" == "A" + "|" + ("B|C" + "|" + "");
    assert |"A|B"| != |"A"|;
  }

  /** Two different departures whose fields hold bars share a key, so the briefing sees only the last of them. */
  lemma BarMergesDepartures(a: Json, b: Json, float64: string -> string, typed: bool)
    requires a == BareDeparture("A|B", "C") && b == BareDeparture("A", "B|C")
    ensures !SameItem(Departures, a, b)
    ensures ItemsOf(float64, Departures, Obj(map["departures" := Arr([a, b], typed)])).Values == {b}
  {
    MergedKeys();
    BareDecoded(float64, "A|B", "C");
    BareDecoded(float64, "A", "B|C");
    TwoItems(float64, a, b, typed);
  }

  /** Of two items with one key, the second is kept. */
  lemma SecondIsKept(keyOf: Json -> string, a: Json, b: Json)
    requires a.Obj? && b.Obj? && keyOf(a) == keyOf(b) != ""
    ensures Index(keyOf, [a, b]) == map[keyOf(b) := b]
  {
    assert [a, b][..1] == [a] && [a][..0] == [];
    assert Index(keyOf, [a]) == map[keyOf(a) := a];
  }

  lemma ListOfTwo(float64: string -> string, a: Json, b: Json, typed: bool)
    requires Decode(float64, a) == a && Decode(float64, b) == b
    ensures ItemList(float64, Departures, Obj(map["departures" := Arr([a, b], typed)])) == [a, b]
  {
  }

  lemma TwoItems(float64: string -> string, a: Json, b: Json, typed: bool)
    requires a.Obj? && b.Obj? && ItemKey(Departures, a) == ItemKey(Departures, b)
    requires Decode(float64, a) == a && Decode(float64, b) == b
    ensures ItemsOf(float64, Departures, Obj(map["departures" := Arr([a, b], typed)])).Values == {b}
  {
    var value, key := Obj(map["departures" := Arr([a, b], typed)]), ItemKey(Departures, b);
    ListOfTwo(float64, a, b, typed);
    WithoutKey(Departures, b);
    SecondIsKept(KeyBy(Departures), a, b);
    var items := ItemsOf(float64, Departures, value);
    assert items == map[key := b];
    assert items[key] == b;
  }

  /** The item at `i` is the last object of the list with this key. */
  ghost predicate IsLastItem(keyOf: Json -> string, list: seq<Json>, i: int, key: string) {
    && 0 <= i < |list| && list[i].Obj? && keyOf(list[i]) == key
    && forall j | i < j < |list| :: !(list[j].Obj? && keyOf(list[j]) == key)
  }

  /** The items are the last objects of their nonempty keys, and there are no others. */
  lemma {:induction false} ItemsAreLast(keyOf: Json -> string, list: seq<Json>, key: string)
    ensures
      if key in Index(keyOf, list)
      then key != "" && exists i :: IsLastItem(keyOf, list, i, key) && list[i] == Index(keyOf, list)[key]
      else key == "" || forall i :: !IsLastItem(keyOf, list, i, key)
  {
    if list != [] {
      var n := |list| - 1;
      var init := list[..n];
      ItemsAreLast(keyOf, init, key);
      if list[n].Obj? && keyOf(list[n]) == key {
        assert IsLastItem(keyOf, list, n, key);
      } else {
        forall i ensures IsLastItem(keyOf, list, i, key) <==> IsLastItem(keyOf, init, i, key) {
          if IsLastItem(keyOf, list, i, key) || IsLastItem(keyOf, init, i, key) {
            assert i != n;
          }
        }
        if key in Index(keyOf, init) {
          var i :| IsLastItem(keyOf, init, i, key) && init[i] == Index(keyOf, init)[key];
          assert IsLastItem(keyOf, list, i, key) && list[i] == Index(keyOf, list)[key];
        }
      }
    }
  }

  // ----- changes -----

  datatype Kind = EvidenceLost | Added | Removed | Updated

  /** A change names its section and item key; a lost section has no item. */
  datatype Change = Change(section: Section, key: Option<string>, kind: Kind, previous: Option<Json>,
      current: Option<Json>)

  type Facts = map<string, Json>

  function ItemAt(items: Items, key: string): Option<Json> {
    if key in items then Some(items[key]) else None
  }

  /** What happened to one key. */
  function KeyChange(s: Section, before: Items, after: Items, key: string): Option<Change> {
    match (ItemAt(before, key), ItemAt(after, key))
    case (Some(o), None) => Some(Change(s, Some(key), Removed, Some(o), None))
    case (None, Some(n)) => Some(Change(s, Some(key), Added, None, Some(n)))
    case (Some(o), Some(n)) => if EqualValues(o, n) then None else Some(Change(s, Some(key), Updated, Some(o), Some(n)))
    case (None, None) => None
  }

  function KeyChanges(s: Section, before: Items, after: Items, keys: seq<string>): seq<Change> {
    if keys == [] then []
    else
      KeyChanges(s, before, after, keys[..|keys| - 1])
      + (match KeyChange(s, before, after, keys[|keys| - 1]) case None => [] case Some(c) => [c])
  }

  ghost predicate Ascending(keys: seq<string>) {
    SortedBy(LexLe, keys) && Distinct(keys)
  }

  method SortedKeys(keys: set<string>) returns (ordered: seq<string>)
    ensures Ascending(ordered) && Members(ordered) == keys
  {
    ordered := [];
    var rest := keys;
    while rest != {}
      invariant Distinct(ordered) && Members(ordered) + rest == keys && Members(ordered) !! rest
    {
      var key :| key in rest;
      assert key !in Members(ordered);
      assert Members(ordered + [key]) == Members(ordered) + {key};
      ordered, rest := ordered + [key], rest - {key};
    }
    SortStrings(ordered);
    ordered := Sort(LexLe, ordered);
  }

  lemma AscendingExists(keys: set<string>) returns (ordered: seq<string>)
    ensures Ascending(ordered) && Members(ordered) == keys
    decreases keys
  {
    if keys == {} {
      ordered := [];
    } else {
      var key :| key in keys;
      var rest := AscendingExists(keys - {key});
      assert key !in Members(rest);
      assert Members(rest + [key]) == Members(rest) + {key};
      SortStrings(rest + [key]);
      ordered := Sort(LexLe, rest + [key]);
    }
  }

  /** There is only one way to list a set of strings in ascending order. */
  lemma {:induction false} AscendingIsUnique(a: seq<string>, b: seq<string>)
    requires Ascending(a) && Ascending(b) && Members(a) == Members(b)
    ensures a == b
  {
    if a != [] && b != [] {
      HeadIsLeast(a, b);
      HeadIsLeast(b, a);
      LexAntisymmetric(a[0], b[0]);
      assert Members(a[1..]) == Members(a) - {a[0]} by { TailMembers(a); }
      assert Members(b[1..]) == Members(b) - {b[0]} by { TailMembers(b); }
      AscendingIsUnique(a[1..], b[1..]);
      assert a == [a[0]] + a[1..] && b == [b[0]] + b[1..];
    } else {
      NoMembers(a);
      NoMembers(b);
    }
  }

  lemma NoMembers(s: seq<string>)
    ensures Members(s) == {} <==> s == []
  {
    if s != [] {
      assert s[0] in Members(s);
    }
  }

  lemma HeadIsLeast(a: seq<string>, b: seq<string>)
    requires Ascending(a) && Members(a) == Members(b) && a != [] && b != []
    ensures LexLe(a[0], b[0])
  {
    assert b[0] in Members(a);
    var i :| 0 <= i < |a| && a[i] == b[0];
    LexTotal(a[0], a[0]);
  }

  lemma TailMembers(a: seq<string>)
    requires a != [] && Distinct(a)
    ensures Members(a[1..]) == Members(a) - {a[0]}
  {
    forall x ensures x in Members(a[1..]) <==> x in Members(a) - {a[0]} {
      if x in a[1..] {
        var i :| 0 <= i < |a[1..]| && a[1..][i] == x;
        assert a[i + 1] == x;
      }
      if x in Members(a) - {a[0]} {
        var i :| 0 <= i < |a| && a[i] == x;
        assert a[1..][i - 1] == x;
      }
    }
  }

  /** The keys of a set in ascending order. */
  ghost function Ordered(keys: set<string>): (ordered: seq<string>)
    ensures Ascending(ordered) && Members(ordered) == keys
  {
    assert exists s :: Ascending(s) && Members(s) == keys by {
      var s := AscendingExists(keys);
    }
    var s :| Ascending(s) && Members(s) == keys;
    s
  }

  ghost function SectionChanges(float64: string -> string, s: Section, before: Facts, after: Facts): seq<Change> {
    var name := SectionName(s);
    if name in before && name !in after then [Change(s, None, EvidenceLost, Some(before[name]), None)]
    else if name !in before || name !in after then []
    else
      var old', new' := ItemsOf(float64, s, before[name]), ItemsOf(float64, s, after[name]);
      KeyChanges(s, old', new', Ordered(old'.Keys + new'.Keys))
  }

  ghost function ChangesUpTo(float64: string -> string, before: Facts, after: Facts, n: nat): seq<Change>
    requires n <= |SECTIONS|
  {
    if n == 0 then []
        else ChangesUpTo(float64, before, after, n - 1) + SectionChanges(float64, SECTIONS[n - 1], before, after)
  }

  ghost function AllChanges(float64: string -> string, before: Facts, after: Facts): seq<Change> {
    ChangesUpTo(float64, before, after, |SECTIONS|)
  }

  const MAXIMUM_CHANGES := 50

  /** The facts of a snapshot, if it has any. */
  function FactsOf(snapshot: Option<Json>): Option<Facts> {
    match snapshot
    case None => None
    case Some(value) =>
      match Field(value, "facts")
      case Some(Obj(fields)) => Some(fields)
      case _ => None
  }

  /** compareBriefingFacts: the changes in section and key order, cut at fifty. */
  method CompareBriefingFacts(float64: string -> string, previous: Option<Json>, current: Facts)
      returns (changes: seq<Change>, truncated: bool)
    ensures FactsOf(previous) == None ==> changes == [] && !truncated
    ensures FactsOf(previous).Some? ==>
      var all := AllChanges(float64, FactsOf(previous).value, current);
      && (truncated <==> |all| > MAXIMUM_CHANGES)
      && changes == if truncated then all[..MAXIMUM_CHANGES] else all
  {
    changes, truncated := [], false;
    if FactsOf(previous) == None {
      return;
    }
    var previousFacts := FactsOf(previous).value;
    for i := 0 to |SECTIONS|
      invariant changes == ChangesUpTo(float64, previousFacts, current, i)
    {
      var part := CompareSection(float64, SECTIONS[i], previousFacts, current);
      changes := changes + part;
    }
    truncated := |changes| > MAXIMUM_CHANGES;
    if truncated {
      changes := changes[..MAXIMUM_CHANGES];
    }
  }

  /** One turn of the loop over the sections. */
  method CompareSection(float64: string -> string, s: Section, before: Facts, after: Facts)
      returns (changes: seq<Change>)
    ensures changes == SectionChanges(float64, s, before, after)
  {
    var name := SectionName(s);
    if name in before && name !in after {
      return [Change(s, None, EvidenceLost, Some(before[name]), None)];
    }
    if name !in before || name !in after {
      return [];
    }
    var oldItems := BriefingItems(float64, s, before[name]);
    var newItems := BriefingItems(float64, s, after[name]);
    var ordered := SortedKeys(oldItems.Keys + newItems.Keys);
    AscendingIsUnique(ordered, Ordered(oldItems.Keys + newItems.Keys));
    changes := CompareItems(s, oldItems, newItems, ordered);
  }

  method CompareItems(s: Section, oldItems: Items, newItems: Items, ordered: seq<string>) returns (changes: seq<Change>)
    ensures changes == KeyChanges(s, oldItems, newItems, ordered)
  {
    changes := [];
    for i := 0 to |ordered|
      invariant changes == KeyChanges(s, oldItems, newItems, ordered[..i])
    {
      assert ordered[..i + 1][..i] == ordered[..i];
      var key := ordered[i];
      if key in oldItems && key !in newItems {
        changes := changes + [Change(s, Some(key), Removed, Some(oldItems[key]), None)];
      } else if key !in oldItems && key in newItems {
        changes := changes + [Change(s, Some(key), Added, None, Some(newItems[key]))];
      } else if key in oldItems && key in newItems && !EqualValues(oldItems[key], newItems[key]) {
        changes := changes + [Change(s, Some(key), Updated, Some(oldItems[key]), Some(newItems[key]))];
      }
    }
    assert ordered[..|ordered|] == ordered;
  }

  // ----- exactly one change for each difference -----

  function SectionRank(s: Section): nat {
    match s
    case Departures => 0
    case Velov => 1
    case Journey => 2
    case Mobility => 3
    case Environment => 4
  }

  /** The facts call for change `c`. */
  ghost predicate Justified(float64: string -> string, before: Facts, after: Facts, c: Change) {
    var name := SectionName(c.section);
    match c.key
    case None => name in before && name !in after
        && c == Change(c.section, None, EvidenceLost, Some(before[name]), None)
    case Some(key) =>
      && name in before && name in after
      && JustifiedItem(ItemsOf(float64, c.section, before[name]), ItemsOf(float64, c.section, after[name]), key, c)
  }

  /** The item was added, was removed, or differs in a field that is not volatile. */
  ghost predicate JustifiedItem(olds: Items, news: Items, key: string, c: Change) {
    match c.kind
    case Added => key !in olds && key in news && c.previous == None && c.current == Some(news[key])
    case Removed => key in olds && key !in news && c.previous == Some(olds[key]) && c.current == None
    case Updated =>
      && key in olds && key in news && !SameBut(KeepDigits, VOLATILE, olds[key], news[key])
      && c.previous == Some(olds[key]) && c.current == Some(news[key])
    case EvidenceLost => false
  }

  /** A change of one field shows exactly when the field is not one of the six volatile ones and its value differs. */
  lemma OneFieldMatters(fields: map<string, Json>, name: string, value: Json)
    requires name in fields
    ensures EqualValues(Obj(fields), Obj(fields[name := value])) <==>
            || name == "age_seconds" || name == "distance_m" || name == "generated_at"
            || name == "observed_at" || name == "request_id" || name == "retrieved_at"
            || SameBut(KeepDigits, VOLATILE, fields[name], value)
  {
    RemainsAgree(KeepDigits, VOLATILE, Obj(fields), Obj(fields[name := value]));
    OneFieldDiffers(KeepDigits, VOLATILE, fields, name, value);
  }

  lemma KeyChangeJustified(s: Section, olds: Items, news: Items, key: string, c: Change)
    ensures KeyChange(s, olds, news, key) == Some(c) <==>
            c.section == s && c.key == Some(key) && JustifiedItem(olds, news, key, c)
  {
    if key in olds && key in news {
      RemainsAgree(KeepDigits, VOLATILE, olds[key], news[key]);
    }
  }

  /** Changes stand in section order, and within a section in ascending order of keys. */
  ghost predicate ChangeBefore(c: Change, d: Change) {
    || SectionRank(c.section) < SectionRank(d.section)
    || (c.section == d.section && c.key.Some? && d.key.Some? && LexLe(c.key.value, d.key.value) && c.key != d.key)
  }

  lemma {:induction false} KeyChangesMembers(s: Section, before: Items, after: Items, keys: seq<string>, c: Change)
    ensures c in KeyChanges(s, before, after, keys) <==>
            c.key.Some? && c.key.value in keys && KeyChange(s, before, after, c.key.value) == Some(c)
  {
    if keys != [] {
      var init, last := keys[..|keys| - 1], keys[|keys| - 1];
      KeyChangesMembers(s, before, after, init, c);
      KeyChangeKeys(s, before, after, last);
      assert keys == init + [last];
    }
  }

  lemma {:induction false} KeyChangesExact(s: Section, before: Items, after: Items, keys: seq<string>)
    requires Ascending(keys)
    ensures forall c :: c in KeyChanges(s, before, after, keys) <==>
                        c.key.Some? && c.key.value in keys && KeyChange(s, before, after, c.key.value) == Some(c)
    ensures SortedBy(ChangeBefore, KeyChanges(s, before, after, keys))
  {
    forall c ensures c in KeyChanges(s, before, after, keys) <==>
                     c.key.Some? && c.key.value in keys && KeyChange(s, before, after, c.key.value) == Some(c)
    {
      KeyChangesMembers(s, before, after, keys, c);
    }
    if keys != [] {
      var init, last := keys[..|keys| - 1], keys[|keys| - 1];
      KeyChangesExact(s, before, after, init);
      KeyChangeKeys(s, before, after, last);
      var found := KeyChanges(s, before, after, init);
      if KeyChange(s, before, after, last).Some? {
        forall i | 0 <= i < |found| ensures ChangeBefore(found[i], KeyChange(s, before, after, last).value) {
          KeyChangesMembers(s, before, after, init, found[i]);
          KeyChangeKeys(s, before, after, found[i].key.value);
          var k :| 0 <= k < |init| && init[k] == found[i].key.value;
          assert LexLe(keys[k], keys[|keys| - 1]) && keys[k] != keys[|keys| - 1];
        }
      }
    }
  }

  lemma KeyChangeKeys(s: Section, before: Items, after: Items, key: string)
    ensures KeyChange(s, before, after, key).Some? ==>
      && key in before.Keys + after.Keys
      && KeyChange(s, before, after, key).value.section == s && KeyChange(s, before, after, key).value.key == Some(key)
  {}

  lemma SectionChangesExact(float64: string -> string, s: Section, before: Facts, after: Facts)
    ensures forall c ::
        c in SectionChanges(float64, s, before, after) <==> c.section == s && Justified(float64, before, after, c)
    ensures SortedBy(ChangeBefore, SectionChanges(float64, s, before, after))
  {
    var name := SectionName(s);
    if name in before && name in after {
      var olds, news := ItemsOf(float64, s, before[name]), ItemsOf(float64, s, after[name]);
      var keys := Ordered(olds.Keys + news.Keys);
      KeyChangesExact(s, olds, news, keys);
      forall c ensures c in KeyChanges(s, olds, news, keys) <==>
          c.section == s && Justified(float64, before, after, c) {
        if c.key.Some? {
          KeyChangeKeys(s, olds, news, c.key.value);
          KeyChangeJustified(s, olds, news, c.key.value, c);
          assert c.key.value in keys <==> c.key.value in Members(keys);
        }
      }
    }
  }

  lemma {:induction false} ChangesUpToExact(float64: string -> string, before: Facts, after: Facts, n: nat)
    requires n <= |SECTIONS|
    ensures forall c ::
        c in ChangesUpTo(float64, before, after, n) <==>
        SectionRank(c.section) < n && Justified(float64, before, after, c)
    ensures SortedBy(ChangeBefore, ChangesUpTo(float64, before, after, n))
  {
    if n > 0 {
      ChangesUpToExact(float64, before, after, n - 1);
      SectionChangesExact(float64, SECTIONS[n - 1], before, after);
      RankedSection(n - 1);
      var init, more := ChangesUpTo(float64, before, after, n - 1),
          SectionChanges(float64, SECTIONS[n - 1], before, after);
      forall i, j | 0 <= i < |init| && 0 <= j < |more| ensures ChangeBefore(init[i], more[j]) {
        assert init[i] in init && more[j] in more;
      }
    }
  }

  lemma RankedSection(i: nat)
    requires i < |SECTIONS|
    ensures SectionRank(SECTIONS[i]) == i
    ensures forall s :: SectionRank(s) == i <==> s == SECTIONS[i]
  {}

  /**
   Before the cut there is one change for each lost section and each key whose items
   differ apart from volatile fields, and no other, in section order and sorted by key.
   */
  lemma DifferencesAreExact(float64: string -> string, before: Facts, after: Facts)
    ensures forall c :: c in AllChanges(float64, before, after) <==> Justified(float64, before, after, c)
    ensures SortedBy(ChangeBefore, AllChanges(float64, before, after))
  {
    ChangesUpToExact(float64, before, after, |SECTIONS|);
    assert forall s: Section :: SectionRank(s) < |SECTIONS|;
  }

  // ----- swapping the sides -----

  function SwapKind(k: Kind): Kind {
    match k
    case Added => Removed
    case Removed => Added
    case _ => k
  }

  function Swap(c: Change): Change {
    c.(kind := SwapKind(c.kind), previous := c.current, current := c.previous)
  }

  function SwapAll(changes: seq<Change>): seq<Change> {
    seq(|changes|, i requires 0 <= i < |changes| => Swap(changes[i]))
  }

  lemma SwapConcat(a: seq<Change>, b: seq<Change>)
    ensures SwapAll(a + b) == SwapAll(a) + SwapAll(b)
  {}

  lemma SwappedKey(s: Section, before: Items, after: Items, key: string)
    ensures KeyChange(s, after, before, key) ==
            match KeyChange(s, before, after, key) case None => None case Some(c) => Some(Swap(c))
  {}

  lemma {:induction false} SwappedKeys(s: Section, before: Items, after: Items, keys: seq<string>)
    ensures KeyChanges(s, after, before, keys) == SwapAll(KeyChanges(s, before, after, keys))
  {
    if keys != [] {
      var init, last := keys[..|keys| - 1], keys[|keys| - 1];
      SwappedKeys(s, before, after, init);
      SwappedKey(s, before, after, last);
      var more := match KeyChange(s, before, after, last) case None => [] case Some(c) => [c];
      SwapConcat(KeyChanges(s, before, after, init), more);
    }
  }

  lemma SwappedSection(float64: string -> string, s: Section, before: Facts, after: Facts)
    requires SectionName(s) in before <==> SectionName(s) in after
    ensures SectionChanges(float64, s, after, before) == SwapAll(SectionChanges(float64, s, before, after))
  {
    var name := SectionName(s);
    if name in before {
      var olds, news := ItemsOf(float64, s, before[name]), ItemsOf(float64, s, after[name]);
      assert olds.Keys + news.Keys == news.Keys + olds.Keys;
      SwappedKeys(s, olds, news, Ordered(olds.Keys + news.Keys));
    }
  }

  lemma {:induction false} SwappedUpTo(float64: string -> string, before: Facts, after: Facts, n: nat)
    requires n <= |SECTIONS|
    requires forall s: Section :: SectionName(s) in before <==> SectionName(s) in after
    ensures ChangesUpTo(float64, after, before, n) == SwapAll(ChangesUpTo(float64, before, after, n))
  {
    if n > 0 {
      SwappedUpTo(float64, before, after, n - 1);
      SwappedSection(float64, SECTIONS[n - 1], before, after);
      SwapConcat(ChangesUpTo(float64, before, after, n - 1), SectionChanges(float64, SECTIONS[n - 1], before, after));
    }
  }

  /** When both sides have the same sections, swapping them swaps added and removed. */
  lemma SwappingSwaps(float64: string -> string, before: Facts, after: Facts)
    requires forall s: Section :: SectionName(s) in before <==> SectionName(s) in after
    ensures AllChanges(float64, after, before) == SwapAll(AllChanges(float64, before, after))
  {
    SwappedUpTo(float64, before, after, |SECTIONS|);
  }
}
