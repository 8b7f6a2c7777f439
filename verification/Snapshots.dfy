/** The store of briefing snapshots: skipping equivalent ones, pruning and deleting. */
module Snapshots {
  import opened Wrappers
  import opened Text
  import opened Sorting
  import opened Json
  import opened Agreement
  import opened Rows
  import Briefing

  /** Stored times are compared as text, as SQLite compares them. */
  datatype Snapshot = Snapshot(id: nat, profile: string, capturedAt: string, payload: Json)

  const VOLATILE: set<string> :=
      {"age_seconds", "distance_m", "generated_at", "observed_at", "request_id", "retrieved_at"}

  /** canonicalSnapshotJSON, as a tree instead of its sorted text. */
  function Canonical(float64: string -> string, payload: Json): Json {
    Remove(VOLATILE, Decode(float64, payload))
  }

  predicate OfProfile(profile: string, row: Snapshot) {
    row.profile == profile
  }

  function ProfileRows(rows: seq<Snapshot>, profile: string): seq<Snapshot> {
    Filter((row: Snapshot) => OfProfile(profile, row), rows)
  }

  /** The row of a profile with the greatest id, when rows stand in id order. */
  function LastRow(rows: seq<Snapshot>, profile: string): Option<Snapshot> {
    var own := ProfileRows(rows, profile);
    if own == [] then None else Some(own[|own| - 1])
  }

  /** At least as new: ORDER BY captured_at DESC, id DESC does not put `b` before `a`. */
  predicate NewerOrSame(a: Snapshot, b: Snapshot) {
    LexLess(b.capturedAt, a.capturedAt) || (a.capturedAt == b.capturedAt && a.id >= b.id)
  }

  /** ROW_NUMBER() within the profile, newest first. */
  function Position(rows: seq<Snapshot>, row: Snapshot): nat {
    |Filter((other: Snapshot) => NewerOrSame(other, row), ProfileRows(rows, row.profile))|
  }

  // ----- the statements -----

  function DeleteOlder(rows: seq<Snapshot>, cutoff: string): seq<Snapshot> {
    Filter((row: Snapshot) => !LexLess(row.capturedAt, cutoff), rows)
  }

  function DeleteBeyond(rows: seq<Snapshot>, maximum: nat): seq<Snapshot> {
    Filter((row: Snapshot) => Position(rows, row) <= maximum, rows)
  }

  function DeleteProfile(rows: seq<Snapshot>, profile: string): seq<Snapshot> {
    Filter((row: Snapshot) => !OfProfile(profile, row), rows)
  }

  function Pruned(rows: seq<Snapshot>, maxAgeDays: int, cutoff: string, maxCount: int): seq<Snapshot> {
    var young := if maxAgeDays > 0 then DeleteOlder(rows, cutoff) else rows;
    if maxCount > 0 then DeleteBeyond(young, maxCount) else young
  }

  /** SaveSnapshot stores a value unless the profile's last row has the same canonical form. */
  function Saved(float64: string -> string, rows: seq<Snapshot>, id: nat, profile: string, value: Json,
      now: string): seq<Snapshot> {
    var last := LastRow(rows, profile);
    if last.Some? && Canonical(float64, last.value.payload) == Canonical(float64, value) then rows
    else rows + [Snapshot(id, profile, now, Decode(KeepDigits, value))]
  }

  // ----- the history of each profile -----

  /** Ids rise, and times do not fall. */
  predicate Later(a: Snapshot, b: Snapshot) {
    a.id < b.id && LexLe(a.capturedAt, b.capturedAt)
  }

  ghost predicate NoTwins(float64: string -> string, own: seq<Snapshot>) {
    forall i | 0 <= i < |own| - 1 :: Canonical(float64, own[i].payload) != Canonical(float64, own[i + 1].payload)
  }

  /** The history of a profile after the values `saved` were offered to it. */
  ghost predicate ProfileOk(float64: string -> string, rows: seq<Snapshot>, saved: map<string, Json>, profile: string) {
    var own := ProfileRows(rows, profile);
    && NoTwins(float64, own)
    && (own != [] ==>
        profile in saved && Canonical(float64, own[|own| - 1].payload) == Canonical(float64, saved[profile]))
  }

  ghost predicate HistoryOk(float64: string -> string, rows: seq<Snapshot>, nextId: nat, saved: map<string, Json>) {
    && SortedBy(Later, rows)
    && (forall i | 0 <= i < |rows| :: rows[i].id < nextId)
    && (forall profile :: ProfileOk(float64, rows, saved, profile))
  }

  lemma NewerIsLater(rows: seq<Snapshot>, i: nat, j: nat)
    requires SortedBy(Later, rows) && i < |rows| && j < |rows|
    ensures NewerOrSame(rows[j], rows[i]) <==> j >= i
  {
    LexTotal(rows[i].capturedAt, rows[i].capturedAt);
    if i < j {
      assert Later(rows[i], rows[j]);
      if LexLe(rows[j].capturedAt, rows[i].capturedAt) {
        LexAntisymmetric(rows[i].capturedAt, rows[j].capturedAt);
      }
    } else if j < i {
      assert Later(rows[j], rows[i]);
    }
  }

  /** In a chronological history, the row `i` of a profile has |own| - i rows that are at least as new. */
  lemma PositionInHistory(rows: seq<Snapshot>, profile: string, i: nat)
    requires SortedBy(Later, rows) && i < |ProfileRows(rows, profile)|
    ensures Position(rows, ProfileRows(rows, profile)[i]) == |ProfileRows(rows, profile)| - i
  {
    var own := ProfileRows(rows, profile);
    var mine := (row: Snapshot) => OfProfile(profile, row);
    FilterSorted(mine, Later, rows);
    FilterMembers(mine, rows, own[i]);
    forall j | 0 <= j < |own| ensures NewerOrSame(own[j], own[i]) <==> j >= i {
      NewerIsLater(own, i, j);
    }
    FilterSuffix((other: Snapshot) => NewerOrSame(other, own[i]), own, i);
  }

  /** Pruning by count leaves each profile its newest `maximum` rows. */
  lemma CountKeepsNewest(rows: seq<Snapshot>, maximum: nat, profile: string)
    requires SortedBy(Later, rows)
    ensures
      var own := ProfileRows(rows, profile);
      ProfileRows(DeleteBeyond(rows, maximum), profile) == own[if |own| > maximum then |own| - maximum else 0..]
  {
    var own := ProfileRows(rows, profile);
    var keep := (row: Snapshot) => Position(rows, row) <= maximum;
    FilterTwice(keep, (row: Snapshot) => OfProfile(profile, row), rows);
    forall i | 0 <= i < |own| ensures keep(own[i]) <==> i >= |own| - maximum {
      PositionInHistory(rows, profile, i);
    }
    FilterSuffix(keep, own, if |own| > maximum then |own| - maximum else 0);
  }

  /** Pruning by age leaves each profile its rows from the cutoff on. */
  lemma AgeKeepsNewest(rows: seq<Snapshot>, cutoff: string, profile: string) returns (k: nat)
    requires SortedBy(Later, rows)
    ensures k <= |ProfileRows(rows, profile)|
        && ProfileRows(DeleteOlder(rows, cutoff), profile) == ProfileRows(rows, profile)[k..]
    ensures forall i | 0 <= i < |ProfileRows(rows, profile)| ::
        LexLe(cutoff, ProfileRows(rows, profile)[i].capturedAt) <==> k <= i
  {
    var own := ProfileRows(rows, profile);
    var mine := (row: Snapshot) => OfProfile(profile, row);
    var keep := (row: Snapshot) => !LexLess(row.capturedAt, cutoff);
    FilterTwice(keep, mine, rows);
    FilterSorted(mine, Later, rows);
    forall i, j | 0 <= i < j < |own| && keep(own[i]) ensures keep(own[j]) {
      assert Later(own[i], own[j]);
      LexTransitive(cutoff, own[i].capturedAt, own[j].capturedAt);
    }
    k := FirstKept(keep, own);
    FilterSuffix(keep, own, k);
  }

  /**
   Pruning leaves a profile exactly the rows that are not older than the cutoff and are
   among its newest ones, as far as the policy sets these limits.
   */
  lemma PruneKeepsNewest(rows: seq<Snapshot>, maxAgeDays: nat, cutoff: string, maxCount: nat, profile: string)
    returns (k: nat)
    requires SortedBy(Later, rows)
    ensures
      var own := ProfileRows(rows, profile);
      && k <= |own| && ProfileRows(Pruned(rows, maxAgeDays, cutoff, maxCount), profile) == own[k..]
      && forall i | 0 <= i < |own| ::
           k <= i <==>
           && (maxAgeDays == 0 || LexLe(cutoff, own[i].capturedAt))
           && (maxCount == 0 || |own| - maxCount <= i)
    ensures maxCount > 0 ==> |ProfileRows(rows, profile)| - k <= maxCount
  {
    var own := ProfileRows(rows, profile);
    var young := if maxAgeDays > 0 then DeleteOlder(rows, cutoff) else rows;
    k := 0;
    if maxAgeDays > 0 {
      k := AgeKeepsNewest(rows, cutoff, profile);
      FilterSorted((row: Snapshot) => !LexLess(row.capturedAt, cutoff), Later, rows);
    }
    if maxCount > 0 {
      CountKeepsNewest(young, maxCount, profile);
      var left := own[k..];
      var m := if |left| > maxCount then |left| - maxCount else 0;
      assert left[m..] == own[k + m..];
      k := k + m;
    }
  }

  lemma SuffixStaysOk(float64: string -> string, rows: seq<Snapshot>, left: seq<Snapshot>, saved: map<string, Json>,
      profile: string, k: nat)
    requires ProfileOk(float64, rows, saved, profile)
    requires k <= |ProfileRows(rows, profile)| && ProfileRows(left, profile) == ProfileRows(rows, profile)[k..]
    ensures ProfileOk(float64, left, saved, profile)
  {}

  lemma PruneKeepsHistory(float64: string -> string, rows: seq<Snapshot>, nextId: nat, saved: map<string, Json>,
                          maxAgeDays: int, cutoff: string, maxCount: int)
    requires HistoryOk(float64, rows, nextId, saved)
    ensures HistoryOk(float64, Pruned(rows, maxAgeDays, cutoff, maxCount), nextId, saved)
  {
    var young := if maxAgeDays > 0 then DeleteOlder(rows, cutoff) else rows;
    if maxAgeDays > 0 {
      AgeKeepsHistory(float64, rows, nextId, saved, cutoff);
    }
    if maxCount > 0 {
      CountKeepsHistory(float64, young, nextId, saved, maxCount);
    }
  }

  lemma FilteredIds(keep: Snapshot -> bool, rows: seq<Snapshot>, nextId: nat)
    requires SortedBy(Later, rows) && forall i | 0 <= i < |rows| :: rows[i].id < nextId
    ensures SortedBy(Later, Filter(keep, rows)) && forall i | 0 <= i < |Filter(keep, rows)| ::
        Filter(keep, rows)[i].id < nextId
  {
    FilterSorted(keep, Later, rows);
    var kept := Filter(keep, rows);
    forall i | 0 <= i < |kept| ensures kept[i].id < nextId {
      FilterMembers(keep, rows, kept[i]);
    }
  }

  lemma AgeKeepsHistory(float64: string -> string, rows: seq<Snapshot>, nextId: nat, saved: map<string, Json>,
      cutoff: string)
    requires HistoryOk(float64, rows, nextId, saved)
    ensures HistoryOk(float64, DeleteOlder(rows, cutoff), nextId, saved)
  {
    FilteredIds((row: Snapshot) => !LexLess(row.capturedAt, cutoff), rows, nextId);
    forall profile ensures ProfileOk(float64, DeleteOlder(rows, cutoff), saved, profile) {
      var k := AgeKeepsNewest(rows, cutoff, profile);
      SuffixStaysOk(float64, rows, DeleteOlder(rows, cutoff), saved, profile, k);
    }
  }

  lemma CountKeepsHistory(float64: string -> string, rows: seq<Snapshot>, nextId: nat, saved: map<string, Json>,
      maximum: nat)
    requires HistoryOk(float64, rows, nextId, saved)
    ensures HistoryOk(float64, DeleteBeyond(rows, maximum), nextId, saved)
  {
    FilteredIds((row: Snapshot) => Position(rows, row) <= maximum, rows, nextId);
    forall profile ensures ProfileOk(float64, DeleteBeyond(rows, maximum), saved, profile) {
      CountKeepsNewest(rows, maximum, profile);
      var own := ProfileRows(rows, profile);
      SuffixStaysOk(float64, rows, DeleteBeyond(rows, maximum), saved, profile, if |own| > maximum then |own| - maximum
          else 0);
    }
  }

  lemma DeletedRows(rows: seq<Snapshot>, deleted: string, profile: string)
    ensures ProfileRows(DeleteProfile(rows, deleted), profile) == if profile == deleted then []
        else ProfileRows(rows, profile)
  {
    var keep, mine := (row: Snapshot) => !OfProfile(deleted, row), (row: Snapshot) => OfProfile(profile, row);
    var own := ProfileRows(rows, profile);
    FilterTwice(keep, mine, rows);
    forall i | 0 <= i < |own| ensures own[i].profile == profile {
      FilterMembers(mine, rows, own[i]);
    }
    FilterSuffix(keep, own, if profile == deleted then |own| else 0);
  }

  lemma DeleteKeepsHistory(float64: string -> string, rows: seq<Snapshot>, nextId: nat, saved: map<string, Json>,
      deleted: string)
    requires HistoryOk(float64, rows, nextId, saved)
    ensures HistoryOk(float64, DeleteProfile(rows, deleted), nextId, saved)
    ensures ProfileRows(DeleteProfile(rows, deleted), deleted) == []
    ensures forall profile | profile != deleted ::
        ProfileRows(DeleteProfile(rows, deleted), profile) == ProfileRows(rows, profile)
  {
    FilteredIds((row: Snapshot) => !OfProfile(deleted, row), rows, nextId);
    forall profile
      ensures ProfileRows(DeleteProfile(rows, deleted), profile) == if profile == deleted then []
          else ProfileRows(rows, profile)
      ensures ProfileOk(float64, DeleteProfile(rows, deleted), saved, profile)
    {
      DeletedRows(rows, deleted, profile);
      assert ProfileOk(float64, rows, saved, profile);
    }
  }

  lemma CanonicalOfStored(float64: string -> string, value: Json)
    ensures Canonical(float64, Decode(KeepDigits, value)) == Canonical(float64, value)
  {
    DecodeKept(float64, value);
  }

  function NextId(before: seq<Snapshot>, after: seq<Snapshot>, nextId: nat): nat {
    if |after| > |before| then nextId + 1 else nextId
  }

  /** What a stored row does to the history of each profile. */
  lemma AppendedRow(rows: seq<Snapshot>, row: Snapshot, other: string)
    ensures ProfileRows(rows + [row], other) == if row.profile == other then ProfileRows(rows, other) + [row]
        else ProfileRows(rows, other)
  {
    FilterAppend((r: Snapshot) => OfProfile(other, r), rows, row);
    assert ProfileRows(rows, other) + [] == ProfileRows(rows, other);
  }

  lemma StoredKeepsProfile(float64: string -> string, rows: seq<Snapshot>, saved: map<string, Json>, row: Snapshot,
      value: Json, other: string)
    requires ProfileOk(float64, rows, saved, other)
    requires Canonical(float64, row.payload) == Canonical(float64, value)
    requires LastRow(rows, row.profile).Some? ==>
        Canonical(float64, LastRow(rows, row.profile).value.payload) != Canonical(float64, value)
    ensures ProfileOk(float64, rows + [row], saved[row.profile := value], other)
  {
    AppendedRow(rows, row, other);
    if row.profile == other {
      OneMoreWithoutTwins(float64, ProfileRows(rows, other), row);
    }
  }

  lemma OneMoreWithoutTwins(float64: string -> string, own: seq<Snapshot>, row: Snapshot)
    requires NoTwins(float64, own)
    requires own != [] ==> Canonical(float64, own[|own| - 1].payload) != Canonical(float64, row.payload)
    ensures NoTwins(float64, own + [row])
  {
    var longer := own + [row];
    forall i | 0 <= i < |longer| - 1
      ensures Canonical(float64, longer[i].payload) != Canonical(float64, longer[i + 1].payload)
    {
      assert longer[i] == own[i];
      assert i < |own| - 1 ==> longer[i + 1] == own[i + 1];
    }
  }

  lemma SaveKeepsProfile(float64: string -> string, rows: seq<Snapshot>, nextId: nat, saved: map<string, Json>,
      profile: string, value: Json, now: string, other: string)
    requires ProfileOk(float64, rows, saved, other)
    ensures ProfileOk(float64, Saved(float64, rows, nextId, profile, value, now), saved[profile := value], other)
  {
    CanonicalOfStored(float64, value);
    var last := LastRow(rows, profile);
    if last.None? || Canonical(float64, last.value.payload) != Canonical(float64, value) {
      StoredKeepsProfile(float64, rows, saved, Snapshot(nextId, profile, now, Decode(KeepDigits, value)), value, other);
    }
  }

  /**
   A save adds one row, with the given time and everything the value says, unless the
   profile's last row agrees with the value but for the volatile fields and the digits
   that float64 drops.
   */
  lemma SavedUnlessSame(float64: string -> string, rows: seq<Snapshot>, id: nat, profile: string, value: Json,
      now: string)
    ensures
      var last, after := LastRow(rows, profile), Saved(float64, rows, id, profile, value, now);
      if last.Some? && SameBut(float64, VOLATILE, last.value.payload, value) then after == rows
      else
        && |after| == |rows| + 1 && after[..|rows|] == rows
        && var row := after[|rows|];
           && row.id == id && row.profile == profile && row.capturedAt == now
           && SameBut(KeepDigits, {}, row.payload, value)
  {
    var last := LastRow(rows, profile);
    if last.Some? {
      RemainsAgree(float64, VOLATILE, last.value.payload, value);
    }
    DecodedSame(value);
  }

  lemma SaveKeepsHistory(float64: string -> string, rows: seq<Snapshot>, nextId: nat, saved: map<string, Json>,
      profile: string, value: Json, now: string)
    requires HistoryOk(float64, rows, nextId, saved)
    requires forall i | 0 <= i < |rows| :: LexLe(rows[i].capturedAt, now)
    ensures
      var after := Saved(float64, rows, nextId, profile, value, now);
      HistoryOk(float64, after, NextId(rows, after, nextId), saved[profile := value])
  {
    var after, savedAfter := Saved(float64, rows, nextId, profile, value, now), saved[profile := value];
    forall other ensures ProfileOk(float64, after, savedAfter, other) {
      SaveKeepsProfile(float64, rows, nextId, saved, profile, value, now, other);
    }
  }

  // ----- runs -----

  datatype Op =
    | Save(profile: string, value: Json, now: string)
    | Prune(maxAgeDays: int, cutoff: string, maxCount: int)
    | Delete(profile: string)

  /** `saved` remembers the last value offered for each profile. */
  datatype State = State(rows: seq<Snapshot>, nextId: nat, saved: map<string, Json>)

  function Step(float64: string -> string, s: State, op: Op): State {
    match op
    case Save(profile, value, now) =>
      var rows := Saved(float64, s.rows, s.nextId, profile, value, now);
      State(rows, NextId(s.rows, rows, s.nextId), s.saved[profile := value])
    case Prune(maxAgeDays, cutoff, maxCount) =>
      if maxAgeDays < 0 || maxCount < 0 then s else s.(rows := Pruned(s.rows, maxAgeDays, cutoff, maxCount))
    case Delete(profile) => s.(rows := DeleteProfile(s.rows, profile))
  }

  function Run(float64: string -> string, s: State, ops: seq<Op>): State
    decreases ops
  {
    if ops == [] then s else Run(float64, Step(float64, s, ops[0]), ops[1..])
  }

  /** No save is stamped before a stored row. */
  predicate Timely(s: State, op: Op) {
    op.Save? ==> forall i | 0 <= i < |s.rows| :: LexLe(s.rows[i].capturedAt, op.now)
  }

  predicate TimelyRun(float64: string -> string, s: State, ops: seq<Op>)
    decreases ops
  {
    ops == [] || (Timely(s, ops[0]) && TimelyRun(float64, Step(float64, s, ops[0]), ops[1..]))
  }

  lemma {:induction false} RunKeepsHistory(float64: string -> string, s: State, ops: seq<Op>)
    requires HistoryOk(float64, s.rows, s.nextId, s.saved) && TimelyRun(float64, s, ops)
    ensures
      var t := Run(float64, s, ops);
      HistoryOk(float64, t.rows, t.nextId, t.saved)
    decreases ops
  {
    if ops != [] {
      match ops[0] {
        case Save(profile, value, now) => SaveKeepsHistory(float64, s.rows, s.nextId, s.saved, profile, value, now);
        case Prune(maxAgeDays, cutoff, maxCount) => PruneKeepsHistory(float64, s.rows, s.nextId, s.saved, maxAgeDays,
            cutoff, maxCount);
        case Delete(profile) => DeleteKeepsHistory(float64, s.rows, s.nextId, s.saved, profile);
      }
      RunKeepsHistory(float64, Step(float64, s, ops[0]), ops[1..]);
    }
  }

  /**
   After any timely run from the empty store, neighbouring snapshots of a profile differ
   in canonical form, and the last one, if any is left, has the canonical form of the
   last value that was offered for the profile.
   */
  lemma EveryHistory(float64: string -> string, ops: seq<Op>, profile: string)
    requires TimelyRun(float64, State([], 0, map[]), ops)
    ensures
      var t := Run(float64, State([], 0, map[]), ops);
      && NoTwins(float64, ProfileRows(t.rows, profile))
      && (LastRow(t.rows, profile).Some? ==>
            profile in t.saved && Canonical(float64, LastRow(t.rows, profile).value.payload)
                == Canonical(float64, t.saved[profile]))
  {
    RunKeepsHistory(float64, State([], 0, map[]), ops);
    assert ProfileOk(float64, Run(float64, State([], 0, map[]), ops).rows,
        Run(float64, State([], 0, map[]), ops).saved, profile);
  }

  /** Ids rise. */
  predicate LaterId(a: Snapshot, b: Snapshot) {
    a.id < b.id
  }

  /** The rows of the profile whose time text sorts after that of its latest row. */
  function Overtaking(rows: seq<Snapshot>, profile: string, latest: Snapshot): seq<Snapshot> {
    Filter((row: Snapshot) => LexLess(latest.capturedAt, row.capturedAt), ProfileRows(rows, profile))
  }

  lemma LatestIsOwn(rows: seq<Snapshot>, profile: string)
    requires LastRow(rows, profile).Some?
    ensures LastRow(rows, profile).value.profile == profile
  {
    var own := ProfileRows(rows, profile);
    FilterMembers((row: Snapshot) => OfProfile(profile, row), rows, own[|own| - 1]);
  }

  /** The latest row of a profile is numbered after the rows that overtake it. */
  lemma LatestPosition(rows: seq<Snapshot>, profile: string)
    requires SortedBy(LaterId, rows) && LastRow(rows, profile).Some?
    ensures
      var latest := LastRow(rows, profile).value;
      Position(rows, latest) == |Overtaking(rows, profile, latest)| + 1
  {
    var own := ProfileRows(rows, profile);
    var n := |own| - 1;
    var latest := own[n];
    LatestIsOwn(rows, profile);
    FilterSorted((row: Snapshot) => OfProfile(profile, row), LaterId, rows);
    var newer, overtakes := (row: Snapshot) => NewerOrSame(row, latest),
        (row: Snapshot) => LexLess(latest.capturedAt, row.capturedAt);
    forall i | 0 <= i < n ensures newer(own[i]) <==> overtakes(own[i]) {
      assert LaterId(own[i], own[n]);
    }
    FilterAgrees(newer, overtakes, own[..n]);
    LexTotal(latest.capturedAt, latest.capturedAt);
    assert own == own[..n] + [latest];
    FilterAppend(newer, own[..n], latest);
    FilterAppend(overtakes, own[..n], latest);
    assert Filter(overtakes, own[..n]) + [] == Filter(overtakes, own[..n]);
  }

  /** Pruning by count keeps a profile's latest row exactly when fewer rows than the maximum overtake it in time. */
  lemma LatestSurvivesCount(rows: seq<Snapshot>, maximum: nat, profile: string)
    requires SortedBy(LaterId, rows) && LastRow(rows, profile).Some?
    ensures
      var latest := LastRow(rows, profile).value;
      LastRow(DeleteBeyond(rows, maximum), profile) == Some(latest) <==> |Overtaking(rows, profile, latest)| < maximum
  {
    var own := ProfileRows(rows, profile);
    var n := |own| - 1;
    var latest := own[n];
    var keep := (row: Snapshot) => Position(rows, row) <= maximum;
    LatestPosition(rows, profile);
    FilterTwice(keep, (row: Snapshot) => OfProfile(profile, row), rows);
    assert own == own[..n] + [latest];
    FilterAppend(keep, own[..n], latest);
    if !keep(latest) {
      var left := Filter(keep, own);
      if left != [] {
        FilterMembers(keep, own, left[|left| - 1]);
        assert left[|left| - 1] in left;
      }
    }
  }

  /** A later snapshot whose text sorts first counts as older: pruning to one row deletes it. */
  lemma UntimelyPruneLosesTheLatest(a: Snapshot, b: Snapshot)
    requires a.profile == b.profile && a.id < b.id && LexLess(b.capturedAt, a.capturedAt)
    ensures LastRow([a, b], a.profile) == Some(b)
    ensures LastRow(DeleteBeyond([a, b], 1), a.profile) == Some(a)
  {
    var rows := [a, b];
    LexTotal(a.capturedAt, b.capturedAt);
    PairPosition(a, b, a);
    PairPosition(a, b, b);
    FilterPair((row: Snapshot) => Position(rows, row) <= 1, a, b);
    FilterPair((row: Snapshot) => OfProfile(a.profile, row), a, b);
    FilterSuffix((row: Snapshot) => OfProfile(a.profile, row), [a], 0);
  }

  lemma PairPosition(a: Snapshot, b: Snapshot, row: Snapshot)
    requires a.profile == b.profile == row.profile
    ensures Position([a, b], row) == (if NewerOrSame(a, row) then 1 else 0) + (if NewerOrSame(b, row) then 1 else 0)
  {
    FilterPair((other: Snapshot) => OfProfile(row.profile, other), a, b);
    assert ProfileRows([a, b], row.profile) == [a, b];
    FilterPair((other: Snapshot) => NewerOrSame(other, row), a, b);
  }

  /** RFC 3339 texts sort so when only the later one has a fraction of the second. */
  lemma FractionSortsFirst(second: string, fraction: string)
    ensures LexLess(second + "." + fraction + "Z", second + "Z")
  {
    LexDecides(second, "." + fraction + "Z", "Z");
    assert second + "." + fraction + "Z" == second + ("." + fraction + "Z");
  }

  lemma PrunedCounts(rows: seq<Snapshot>, maxAgeDays: nat, cutoff: string, maxCount: nat)
    requires SortedBy(Later, rows)
    ensures maxCount > 0 ==>
      forall profile :: |ProfileRows(Pruned(rows, maxAgeDays, cutoff, maxCount), profile)| <= maxCount
  {
    forall profile
      ensures maxCount > 0 ==> |ProfileRows(Pruned(rows, maxAgeDays, cutoff, maxCount), profile)| <= maxCount
    {
      var k := PruneKeepsNewest(rows, maxAgeDays, cutoff, maxCount, profile);
    }
  }

  lemma PrunedMembers(rows: seq<Snapshot>, maxAgeDays: int, cutoff: string, maxCount: int)
    ensures forall row | row in Pruned(rows, maxAgeDays, cutoff, maxCount) ::
        row in rows && (maxAgeDays <= 0 || LexLe(cutoff, row.capturedAt))
  {
    var young := if maxAgeDays > 0 then DeleteOlder(rows, cutoff) else rows;
    forall row | row in Pruned(rows, maxAgeDays, cutoff, maxCount)
      ensures row in rows && (maxAgeDays <= 0 || LexLe(cutoff, row.capturedAt))
    {
      FilterMembers((r: Snapshot) => Position(young, r) <= maxCount, young, row);
      FilterMembers((r: Snapshot) => !LexLess(r.capturedAt, cutoff), rows, row);
    }
  }

  lemma PrunedSizes(rows: seq<Snapshot>, maxAgeDays: int, cutoff: string, maxCount: int)
    ensures |DeleteOlder(rows, cutoff)| <= |rows|
    ensures maxCount > 0 ==> |DeleteBeyond(rows, maxCount)| <= |rows|
    ensures maxCount > 0 ==> |DeleteBeyond(DeleteOlder(rows, cutoff), maxCount)| <= |DeleteOlder(rows, cutoff)|
  {
    var young := DeleteOlder(rows, cutoff);
    FilterShrinks((row: Snapshot) => !LexLess(row.capturedAt, cutoff), rows);
    FilterShrinks((row: Snapshot) => Position(rows, row) <= maxCount, rows);
    FilterShrinks((row: Snapshot) => Position(young, row) <= maxCount, young);
  }

  // ----- the store -----

  class SnapshotStore {
    var rows: seq<Snapshot>
    var nextId: nat
    ghost var saved: map<string, Json>

    ghost predicate Valid(float64: string -> string)
      reads this
    {
      HistoryOk(float64, rows, nextId, saved)
    }

    ghost function Value(): State
      reads this
    {
      State(rows, nextId, saved)
    }

    constructor ()
      ensures Value() == State([], 0, map[])
    {
      rows, nextId, saved := [], 0, map[];
    }

    method SaveSnapshot(float64: string -> string, profile: string, value: Json, now: string)
      modifies this
      ensures Value() == Step(float64, old(Value()), Save(profile, value, now))
      ensures old(Valid(float64)) && Timely(old(Value()), Save(profile, value, now)) ==> Valid(float64)
    {
      if Timely(Value(), Save(profile, value, now)) && Valid(float64) {
        SaveKeepsHistory(float64, rows, nextId, saved, profile, value, now);
      }
      CanonicalOfStored(float64, value);
      var payload := Decode(KeepDigits, value);
      var previous := LastRow(rows, profile);
      saved := saved[profile := value];
      if previous.Some? && Canonical(float64, previous.value.payload) == Canonical(float64, payload) {
        return;
      }
      rows := rows + [Snapshot(nextId, profile, now, payload)];
      nextId := nextId + 1;
    }

    /** PruneHistory for briefings; `cutoff` is the stored form of the age limit. */
    method PruneHistory(ghost float64: string -> string, maxAgeDays: int, cutoff: string, maxCount: int)
        returns (r: Result<(nat, nat), string>)
      modifies this`rows
      ensures r.Ok? <==> maxAgeDays >= 0 && maxCount >= 0
      ensures Value() == Step(float64, old(Value()), Prune(maxAgeDays, cutoff, maxCount))
      ensures r.Ok? ==> r.value.0 + r.value.1 + |rows| == |old(rows)|
      ensures r.Ok? ==>
        forall row | row in rows :: row in old(rows) && (maxAgeDays == 0 || LexLe(cutoff, row.capturedAt))
      ensures r.Ok? && old(Valid(float64)) && maxCount > 0 ==>
        forall profile :: |ProfileRows(rows, profile)| <= maxCount
      ensures old(Valid(float64)) ==> Valid(float64)
    {
      if maxAgeDays < 0 || maxCount < 0 {
        return Err("history retention limits must not be negative");
      }
      if Valid(float64) {
        PruneKeepsHistory(float64, rows, nextId, saved, maxAgeDays, cutoff, maxCount);
        PrunedCounts(rows, maxAgeDays, cutoff, maxCount);
      }
      PrunedMembers(rows, maxAgeDays, cutoff, maxCount);
      PrunedSizes(rows, maxAgeDays, cutoff, maxCount);
      var before := rows;
      if maxAgeDays > 0 {
        rows := DeleteOlder(rows, cutoff);
      }
      var byAge := |before| - |rows|;
      before := rows;
      if maxCount > 0 {
        rows := DeleteBeyond(rows, maxCount);
      }
      return Ok((byAge, |before| - |rows|));
    }

    method DeleteBriefingHistory(ghost float64: string -> string, profile: string) returns (removed: nat)
      modifies this`rows
      ensures Value() == Step(float64, old(Value()), Delete(profile))
      ensures removed + |rows| == |old(rows)|
      ensures old(Valid(float64)) ==> Valid(float64)
    {
      if Valid(float64) {
        DeleteKeepsHistory(float64, rows, nextId, saved, profile);
      }
      var left := DeleteProfile(rows, profile);
      FilterShrinks((row: Snapshot) => !OfProfile(profile, row), rows);
      removed, rows := |rows| - |left|, left;
    }

    /** ORDER BY id DESC LIMIT 1, whatever the order of the rows. */
    method LastSnapshot(float64: string -> string, profile: string) returns (value: Option<Json>)
      ensures value.None? <==> forall i | 0 <= i < |rows| :: rows[i].profile != profile
      ensures value.Some? ==>
          exists i: nat :: IsLatest(rows, profile, i) && value.value == Decode(float64, rows[i].payload)
      ensures SortedBy(LaterId, rows) ==> value == LastValue(float64, rows, profile)
    {
      var latest: Option<nat> := None;
      for n := 0 to |rows|
        invariant latest.None? ==> forall i | 0 <= i < n :: rows[i].profile != profile
        invariant latest.Some? ==> latest.value < n && IsLatest(rows[..n], profile, latest.value)
      {
        if rows[n].profile == profile && (latest.None? || rows[latest.value].id <= rows[n].id) {
          latest := Some(n);
        }
      }
      assert rows[..|rows|] == rows;
      if latest.Some? {
        value := Some(Decode(float64, rows[latest.value].payload));
      } else {
        value := None;
      }
      if SortedBy(LaterId, rows) {
        LatestIsLast(rows, profile);
      }
    }
  }

  /** Row `i` has the greatest id of its profile. */
  ghost predicate IsLatest(rows: seq<Snapshot>, profile: string, i: nat) {
    && i < |rows| && rows[i].profile == profile
    && forall j | 0 <= j < |rows| && rows[j].profile == profile :: rows[j].id <= rows[i].id
  }

  /** With rising ids, the row with the greatest id is the last one of the profile. */
  lemma LatestIsLast(rows: seq<Snapshot>, profile: string)
    requires SortedBy(LaterId, rows)
    ensures LastRow(rows, profile).None? <==> forall i | 0 <= i < |rows| :: rows[i].profile != profile
    ensures forall i: nat | IsLatest(rows, profile, i) :: LastRow(rows, profile) == Some(rows[i])
  {
    var own, mine := ProfileRows(rows, profile), (row: Snapshot) => OfProfile(profile, row);
    if own != [] {
      LatestIsOwn(rows, profile);
      FilterMembers(mine, rows, own[|own| - 1]);
    }
    FilterSorted(mine, LaterId, rows);
    forall i: nat | i < |rows| && rows[i].profile == profile ensures own != [] && rows[i].id <= own[|own| - 1].id {
      FilterMembers(mine, rows, rows[i]);
      var k :| 0 <= k < |own| && own[k] == rows[i];
    }
    forall i: nat | IsLatest(rows, profile, i) ensures LastRow(rows, profile) == Some(rows[i]) {
      var k :| 0 <= k < |rows| && rows[k] == own[|own| - 1];
      assert rows[k].id == rows[i].id;
      assert forall a, b | 0 <= a < b < |rows| :: LaterId(rows[a], rows[b]);
      assert k == i;
    }
  }

  function LastValue(float64: string -> string, rows: seq<Snapshot>, profile: string): Option<Json> {
    match LastRow(rows, profile)
    case None => None
    case Some(row) => Some(Decode(float64, row.payload))
  }

  // ----- snapshots and differences -----

  /** The value that a briefing stores: its facts and the time they are for. */
  function BriefingValue(facts: Briefing.Facts, at: string): Json {
    Obj(map["facts" := Obj(facts), "at" := Str(at)])
  }

  lemma EquivalentSnapshots(float64: string -> string, payload: Json, facts: Briefing.Facts, at: string)
    requires Canonical(float64, payload) == Canonical(float64, BriefingValue(facts, at))
    ensures Briefing.FactsOf(Some(Decode(float64, payload))).Some?
    ensures Equivalent(float64, Briefing.FactsOf(Some(Decode(float64, payload))).value, facts)
  {
    var read := Decode(float64, payload);
    FactsAreCanonical(float64, facts, at);
    assert Remove(VOLATILE, read) == Canonical(float64, BriefingValue(facts, at));
    assert "facts" in read.fields;
    var stored := read.fields["facts"];
    assert Remove(VOLATILE, stored) == Remove(VOLATILE, Decode(float64, Obj(facts)));
    KeepDecoded(float64, payload);
    assert Decode(KeepDigits, read).fields["facts"] == Decode(KeepDigits, stored);
    forall s: Briefing.Section ensures EquivalentSection(float64, s, stored.fields, facts) {
      EquivalentFields(float64, s, stored.fields, facts);
    }
  }

  lemma FactsAreCanonical(float64: string -> string, facts: Briefing.Facts, at: string)
    ensures Field(Canonical(float64, BriefingValue(facts, at)), "facts")
        == Some(Remove(VOLATILE, Decode(float64, Obj(facts))))
  {
    var decoded := Decode(float64, BriefingValue(facts, at));
    assert decoded.Obj? && "facts" in decoded.fields && decoded.fields["facts"] == Decode(float64, Obj(facts));
    assert Remove(VOLATILE, decoded).fields["facts"] == Remove(VOLATILE, Decode(float64, Obj(facts)));
  }

  lemma EquivalentFields(float64: string -> string, s: Briefing.Section, stored: Briefing.Facts, facts: Briefing.Facts)
    requires Remove(VOLATILE, Obj(stored)) == Remove(VOLATILE, Decode(float64, Obj(facts)))
    requires Decode(KeepDigits, Obj(stored)) == Obj(stored)
    ensures EquivalentSection(float64, s, stored, facts)
  {
    NamesAreLasting(s);
    var name := Briefing.SectionName(s);
    var a, b := Remove(VOLATILE, Obj(stored)).fields, Remove(VOLATILE, Decode(float64, Obj(facts))).fields;
    assert name in a <==> name in stored;
    assert name in b <==> name in facts;
    if name in stored {
      assert a[name] == Remove(VOLATILE, stored[name]);
      assert b[name] == Remove(VOLATILE, Decode(float64, facts[name]));
      assert Decode(KeepDigits, Obj(stored)).fields[name] == Decode(KeepDigits, stored[name]);
    }
  }

  /**
   When the store skips a briefing as equivalent to its last snapshot, comparing that
   snapshot with the new facts finds no change exactly when float64 reading leaves the
   lasting numbers of the new items as they are printed.
   */
  lemma SkippedMeansUnchanged(float64: string -> string, rows: seq<Snapshot>, nextId: nat, profile: string,
                              facts: Briefing.Facts, at: string, now: string)
    requires Settled(float64)
    requires Saved(float64, rows, nextId, profile, BriefingValue(facts, at), now) == rows
    ensures
      var previous := LastValue(float64, rows, profile);
      && Briefing.FactsOf(previous).Some?
      && (Briefing.AllChanges(float64, Briefing.FactsOf(previous).value, facts) == [] <==>
          ItemNumbersStable(float64, facts))
  {
    EquivalentSnapshots(float64, LastRow(rows, profile).value.payload, facts, at);
    EquivalentFactsDiff(float64, Briefing.FactsOf(LastValue(float64, rows, profile)).value, facts);
  }

  /** A briefing supplies lists of structs: then a snapshot that is skipped as equivalent shows no change. */
  lemma SkippedBriefingIsUnchanged(float64: string -> string, rows: seq<Snapshot>, nextId: nat, profile: string,
                                   facts: Briefing.Facts, at: string, now: string)
    requires Settled(float64) && TypedFacts(facts)
    requires Saved(float64, rows, nextId, profile, BriefingValue(facts, at), now) == rows
    ensures
      var previous := LastValue(float64, rows, profile);
      Briefing.FactsOf(previous).Some? && Briefing.AllChanges(float64, Briefing.FactsOf(previous).value, facts) == []
  {
    SkippedMeansUnchanged(float64, rows, nextId, profile, facts, at, now);
    TypedFactsAreStable(float64, facts);
  }

  /** Facts with one alert that carries a number, in a list of decoded values. */
  function NumberedAlert(digits: string): Briefing.Facts {
    map["mobility" := Obj(map["alerts" := Arr([Obj(map["id" := Str("a"), "n" := Num(digits)])], false)])]
  }

  /** A list of decoded values, which no briefing supplies, would need that condition: beyond float64 precision,
      the snapshot is skipped as equivalent and the comparison still reports a change. */
  lemma LargeNumberLooksChanged(float64: string -> string, rows: seq<Snapshot>, nextId: nat, profile: string,
      at: string, now: string)
    requires Settled(float64) && float64("9007199254740993") == "9007199254740992"
    requires Saved(float64, rows, nextId, profile, BriefingValue(NumberedAlert("9007199254740993"), at), now) == rows
    ensures
      var previous := LastValue(float64, rows, profile);
      Briefing.FactsOf(previous).Some?
          && Briefing.AllChanges(float64, Briefing.FactsOf(previous).value, NumberedAlert("9007199254740993")) != []
  {
    var digits := "9007199254740993";
    SkippedMeansUnchanged(float64, rows, nextId, profile, NumberedAlert(digits), at, now);
    UnstableAlert(float64, digits);
  }

  /** A list with one object of a key yields that object. */
  lemma OneItem(keyOf: Json -> string, item: Json)
    requires item.Obj? && keyOf(item) != ""
    ensures Briefing.Index(keyOf, [item]) == map[keyOf(item) := item]
  {
    assert [item][..0] == [];
    assert Briefing.Index(keyOf, []) == map[];
  }

  lemma TrimLetter()
    ensures Trim("a") == "a"
  {
    VisibleIsNoSpace('a');
    TrimTight("a");
  }

  lemma IdOfItem(item: Json, id: string)
    requires Field(item, "id") == Some(Str(id))
    ensures Briefing.KeyBy(Briefing.Mobility)(item) == Trim(id)
  {}

  lemma AlertKey(digits: string)
    ensures Briefing.KeyBy(Briefing.Mobility)(Obj(map["id" := Str("a"), "n" := Num(digits)])) == "a"
  {
    var fields := map["id" := Str("a"), "n" := Num(digits)];
    assert "id" in fields && fields["id"] == Str("a") by {
      assert |"id"| == 2 && |"n"| == 1;
    }
    IdOfItem(Obj(fields), "a");
    TrimLetter();
  }

  lemma UnstableNumber(float64: string -> string, digits: string)
    requires float64(digits) != digits
    ensures !NumbersStable(float64, Obj(map["id" := Str("a"), "n" := Num(digits)]))
  {
    var fields := map["id" := Str("a"), "n" := Num(digits)];
    var read, kept := Decode(float64, Obj(fields)), Decode(KeepDigits, Obj(fields));
    assert fields["n"] == Num(digits);
    assert read.fields["n"] == Decode(float64, Num(digits)) && kept.fields["n"] == Decode(KeepDigits, Num(digits));
    assert |"n"| == 1 && "n" !in VOLATILE;
    assert Remove(VOLATILE, read).fields["n"] == read.fields["n"]
        && Remove(VOLATILE, kept).fields["n"] == kept.fields["n"];
  }

  lemma UnstableSection(float64: string -> string, s: Briefing.Section, section: Json, item: Json)
    requires Field(section, Briefing.ListName(s)) == Some(Arr([item], false))
    requires item.Obj? && Briefing.KeyBy(s)(item) != "" && !NumbersStable(float64, item)
    ensures !SectionStable(float64, s, section)
  {
    OneItem(Briefing.KeyBy(s), item);
    assert Briefing.KeyBy(s)(item) in Briefing.ItemsOf(float64, s, section);
  }

  lemma UnstableAlert(float64: string -> string, digits: string)
    requires float64(digits) != digits
    ensures !ItemNumbersStable(float64, NumberedAlert(digits))
  {
    AlertKey(digits);
    UnstableNumber(float64, digits);
    var section := AlertSection(digits);
    UnstableSection(float64, Briefing.Mobility, section, Obj(map["id" := Str("a"), "n" := Num(digits)]));
  }

  lemma AlertSection(digits: string) returns (section: Json)
    ensures Briefing.SectionName(Briefing.Mobility) in NumberedAlert(digits)
    ensures section == NumberedAlert(digits)[Briefing.SectionName(Briefing.Mobility)]
    ensures Field(section, Briefing.ListName(Briefing.Mobility))
        == Some(Arr([Obj(map["id" := Str("a"), "n" := Num(digits)])], false))
  {
    section := NumberedAlert(digits)["mobility"];
  }

  /** The time of a briefing is not volatile: the same facts at another time are stored again. */
  lemma OtherTimeIsStoredAgain(float64: string -> string, rows: seq<Snapshot>, nextId: nat, profile: string,
                               facts: Briefing.Facts, at: string, later: string, now: string)
    requires at != later
    requires LastRow(rows, profile).Some?
        && LastRow(rows, profile).value.payload == Decode(KeepDigits, BriefingValue(facts, at))
    ensures |Saved(float64, rows, nextId, profile, BriefingValue(facts, later), now)| == |rows| + 1
  {
    CanonicalOfStored(float64, BriefingValue(facts, at));
    TimeIsCanonical(float64, facts, at);
    TimeIsCanonical(float64, facts, later);
  }

  lemma TimeIsCanonical(float64: string -> string, facts: Briefing.Facts, at: string)
    ensures Field(Canonical(float64, BriefingValue(facts, at)), "at") == Some(Str(at))
  {
    var decoded := Decode(float64, BriefingValue(facts, at));
    assert decoded.Obj? && "at" in decoded.fields && decoded.fields["at"] == Decode(float64, Str(at));
    assert Remove(VOLATILE, decoded).fields["at"] == Remove(VOLATILE, Str(at));
  }
}
