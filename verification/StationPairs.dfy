/** The Vélo'v part of a trip: a search over pairs of a departure and an arrival station. */
module StationPairs {
  import opened Wrappers
  import opened Rows

  type Point = (real, real)

  datatype Station = Station(name: string, position: Point, bikes: int, docks: int, status: string,
                             observed: Option<int>, distanceM: Option<real>)

  const NANOSECONDS := 1_000_000_000

  /** Conversion of a float to int truncates toward zero. */
  function Truncated(x: real): int {
    if x >= 0.0 then x.Floor else -(-x).Floor
  }

  lemma TruncatedTowardZero(x: real)
    ensures x >= 0.0 ==> 0.0 <= Truncated(x) as real <= x < Truncated(x) as real + 1.0
    ensures x <= 0.0 ==> Truncated(x) as real - 1.0 < x <= Truncated(x) as real <= 0.0
  {
    if x < 0.0 {
      assert (-x).Floor as real <= -x < (-x).Floor as real + 1.0;
    }
  }

  /** What a search is asked for.  `distance` stands for the great-circle distance. */
  datatype Search = Search(distance: (Point, Point) -> real, origin: Point, destination: Point, maxWalking: int,
                           minimumBikes: int, minimumDocks: int, offline: bool, now: int, maximumAge: int)

  // ----- which stations can be used -----

  predicate Stocked(minimum: int, bikes: bool, s: Station) {
    s.status != "closed" && (if bikes then s.bikes else s.docks) >= minimum
  }

  /** The age in whole seconds of an observation; one from the future has age 0. */
  function Age(now: int, observed: int): int {
    if now < observed then 0 else (now - observed) / NANOSECONDS
  }

  predicate Recent(now: int, maximumAge: int, s: Station) {
    s.observed.Some? && !(maximumAge > 0 && Age(now, s.observed.value) > maximumAge)
  }

  function Placed(distance: (Point, Point) -> real, from: Point, s: Station): Station {
    s.(distanceM := Some(distance(from, s.position)))
  }

  method SetStationDistances(distance: (Point, Point) -> real, stations: array<Station>, from: Point)
    modifies stations
    ensures forall i | 0 <= i < stations.Length :: stations[i] == Placed(distance, from, old(stations[i]))
  {
    for i := 0 to stations.Length
      invariant forall k | 0 <= k < i :: stations[k] == Placed(distance, from, old(stations[k]))
      invariant forall k | i <= k < stations.Length :: stations[k] == old(stations[k])
    {
      stations[i] := Placed(distance, from, stations[i]);
    }
  }

  method FilterStations(stations: seq<Station>, minimum: int, bikes: bool) returns (kept: seq<Station>)
    ensures kept == Filter((s: Station) => Stocked(minimum, bikes, s), stations)
  {
    ghost var keep := (s: Station) => Stocked(minimum, bikes, s);
    kept := [];
    for i := 0 to |stations|
      invariant kept == Filter(keep, stations[..i])
    {
      FilterAppend(keep, stations[..i], stations[i]);
      assert stations[..i + 1] == stations[..i] + [stations[i]];
      var s := stations[i];
      if s.status == "closed" {
        continue;
      }
      var available := s.docks;
      if bikes {
        available := s.bikes;
      }
      if available >= minimum {
        kept := kept + [s];
      }
    }
    assert stations[..|stations|] == stations;
  }

  method FilterFreshStations(stations: seq<Station>, now: int, maximumAge: int) returns (kept: seq<Station>)
    ensures kept == Filter((s: Station) => Recent(now, maximumAge, s), stations)
  {
    ghost var keep := (s: Station) => Recent(now, maximumAge, s);
    kept := [];
    for i := 0 to |stations|
      invariant kept == Filter(keep, stations[..i])
    {
      FilterAppend(keep, stations[..i], stations[i]);
      assert stations[..i + 1] == stations[..i] + [stations[i]];
      if Recent(now, maximumAge, stations[i]) {
        kept := kept + [stations[i]];
      }
    }
    assert stations[..|stations|] == stations;
  }

  // ----- the search -----

  /** Metres on foot through two stations with known distances. */
  function Walking(a: Station, b: Station): int
    requires a.distanceM.Some? && b.distanceM.Some?
  {
    Truncated(a.distanceM.value + b.distanceM.value)
  }

  predicate Near(maxWalking: int, a: Station, b: Station) {
    a.distanceM.Some? && b.distanceM.Some? && Walking(a, b) <= maxWalking
  }

  /** Estimated seconds: four metres a second by bicycle, one metre a second on foot. */
  function Seconds(distance: (Point, Point) -> real, a: Station, b: Station): int
    requires a.distanceM.Some? && b.distanceM.Some?
  {
    Truncated(distance(a.position, b.position) / 4.0) + Walking(a, b)
  }

  predicate Before(i: nat, j: nat, k: nat, l: nat) {
    i < k || (i == k && j < l)
  }

  /** The pair (i, j) takes no less time than the pair (k, l), and more if the scan meets it first. */
  ghost predicate NoBetter(distance: (Point, Point) -> real, starts: seq<Station>, ends: seq<Station>, i: nat, j: nat,
      k: nat, l: nat)
    requires i < |starts| && j < |ends| && k < |starts| && l < |ends|
    requires starts[i].distanceM.Some? && ends[j].distanceM.Some? && starts[k].distanceM.Some?
        && ends[l].distanceM.Some?
  {
    var found, best := Seconds(distance, starts[i], ends[j]), Seconds(distance, starts[k], ends[l]);
    best <= found && (Before(i, j, k, l) ==> best < found)
  }

  /** `best` is the first fastest among the pairs before (m, n) that are within walking range. */
  ghost predicate Best(distance: (Point, Point) -> real, maxWalking: int, starts: seq<Station>, ends: seq<Station>,
      m: nat, n: nat, best: Option<(nat, nat)>) {
    match best
    case None => forall i, j | 0 <= i < |starts| && 0 <= j < |ends| && Before(i, j, m, n) ::
        !Near(maxWalking, starts[i], ends[j])
    case Some((k, l)) =>
      && k < |starts| && l < |ends| && Before(k, l, m, n) && Near(maxWalking, starts[k], ends[l])
      && forall i, j | 0 <= i < |starts| && 0 <= j < |ends| && Before(i, j, m, n)
          && Near(maxWalking, starts[i], ends[j]) :: NoBetter(distance, starts, ends, i, j, k, l)
  }

  datatype Pair = Pair(origin: Station, destination: Station, duration: int, walking: int)

  /** The search after one more pair. */
  lemma BestWith(distance: (Point, Point) -> real, maxWalking: int, starts: seq<Station>, ends: seq<Station>, m: nat,
      n: nat, best: Option<(nat, nat)>)
    requires m < |starts| && n < |ends| && Best(distance, maxWalking, starts, ends, m, n, best)
    ensures
      var taken := Near(maxWalking, starts[m], ends[n])
        && (best.None? || Seconds(distance, starts[m], ends[n]) < Seconds(distance, starts[best.value.0],
            ends[best.value.1]));
      Best(distance, maxWalking, starts, ends, m, n + 1, if taken then Some((m, n)) else best)
  {
    forall i: nat, j: nat | Before(i, j, m, n + 1) ensures Before(i, j, m, n) || (i == m && j == n) {
    }
  }

  /** A whole row of pairs has been searched. */
  lemma BestRow(distance: (Point, Point) -> real, maxWalking: int, starts: seq<Station>, ends: seq<Station>, m: nat,
      best: Option<(nat, nat)>)
    requires Best(distance, maxWalking, starts, ends, m, |ends|, best)
    ensures Best(distance, maxWalking, starts, ends, m + 1, 0, best)
  {
    forall i, j | 0 <= i < |starts| && 0 <= j < |ends| && Before(i, j, m + 1, 0) ensures Before(i, j, m, |ends|) {
    }
  }

  /** The pair that the search holds for the position `at`. */
  ghost predicate Stands(distance: (Point, Point) -> real, starts: seq<Station>, ends: seq<Station>,
      pair: Option<Pair>, at: Option<(nat, nat)>) {
    match at
    case None => pair.None?
    case Some((k, l)) =>
      && k < |starts| && l < |ends| && starts[k].distanceM.Some? && ends[l].distanceM.Some?
      && pair == Some(Pair(starts[k], ends[l], Seconds(distance, starts[k], ends[l]), Walking(starts[k], ends[l])))
  }

  method SearchPairs(distance: (Point, Point) -> real, maxWalking: int, starts: seq<Station>, ends: seq<Station>)
      returns (pair: Option<Pair>, ghost at: Option<(nat, nat)>)
    ensures Best(distance, maxWalking, starts, ends, |starts|, 0, at)
    ensures Stands(distance, starts, ends, pair, at)
  {
    pair, at := None, None;
    for m := 0 to |starts|
      invariant Best(distance, maxWalking, starts, ends, m, 0, at)
      invariant Stands(distance, starts, ends, pair, at)
    {
      for n := 0 to |ends|
        invariant Best(distance, maxWalking, starts, ends, m, n, at)
        invariant Stands(distance, starts, ends, pair, at)
      {
        BestWith(distance, maxWalking, starts, ends, m, n, at);
        var a, b := starts[m], ends[n];
        if a.distanceM.None? || b.distanceM.None? {
          continue;
        }
        var walking := Truncated(a.distanceM.value + b.distanceM.value);
        if walking > maxWalking {
          continue;
        }
        var duration := Truncated(distance(a.position, b.position) / 4.0) + walking;
        if pair.None? || duration < pair.value.duration {
          pair, at := Some(Pair(a, b, duration, walking)), Some((m, n));
        }
      }
      BestRow(distance, maxWalking, starts, ends, m, at);
    }
  }

  // ----- on the stations as the provider sent them -----

  predicate Usable(q: Search, bikes: bool, s: Station) {
    Stocked(if bikes then q.minimumBikes else q.minimumDocks, bikes, s) && (q.offline || Recent(q.now, q.maximumAge, s))
  }

  function Start(q: Search, s: Station): Station {
    Placed(q.distance, q.origin, s)
  }

  function End(q: Search, s: Station): Station {
    Placed(q.distance, q.destination, s)
  }

  // ----- what may be proposed, told from the fields of the two stations -----

  /** Observed, and less than a second more than the maximum age ago if there is a maximum. */
  predicate FreshEnough(q: Search, s: Station) {
    s.observed.Some? && (q.maximumAge <= 0 || q.now < s.observed.value + (q.maximumAge + 1) * NANOSECONDS)
  }

  /** Metres on foot to the one station and from the other. */
  function OnFoot(q: Search, a: Station, b: Station): int {
    Truncated(q.distance(q.origin, a.position) + q.distance(q.destination, b.position))
  }

  /** Seconds for these metres at one metre a second, and for the ride at four. */
  function Time(q: Search, a: Station, b: Station): int {
    OnFoot(q, a, b) + Truncated(q.distance(a.position, b.position) / 4.0)
  }

  /** Both stations are open and observed lately, one has bikes, the other docks, and the walk is short enough. */
  ghost predicate Admissible(q: Search, a: Station, b: Station) {
    && a.status != "closed" && b.status != "closed"
    && q.minimumBikes <= a.bikes && q.minimumDocks <= b.docks
    && (q.offline || (FreshEnough(q, a) && FreshEnough(q, b)))
    && OnFoot(q, a, b) <= q.maxWalking
  }

  lemma RecentIsFresh(q: Search, s: Station)
    ensures Recent(q.now, q.maximumAge, s) <==> FreshEnough(q, s)
  {
    if s.observed.Some? && q.maximumAge > 0 {
      var age := q.now - s.observed.value;
      assert age / NANOSECONDS > q.maximumAge <==> age >= (q.maximumAge + 1) * NANOSECONDS;
    }
  }

  /** The filters and the walking check of the search let exactly the admissible pairs through, with their times. */
  lemma SearchedPairs(q: Search, a: Station, b: Station)
    ensures Admissible(q, a, b) <==>
            Usable(q, true, a) && Usable(q, false, b) && Near(q.maxWalking, Start(q, a), End(q, b))
    ensures Seconds(q.distance, Start(q, a), End(q, b)) == Time(q, a, b)
  {
    RecentIsFresh(q, a);
    RecentIsFresh(q, b);
  }

  ghost predicate Fastest(q: Search, starts: seq<Station>, ends: seq<Station>, k: nat, l: nat)
    requires k < |starts| && l < |ends|
  {
    && Admissible(q, starts[k], ends[l])
    && forall i, j | 0 <= i < |starts| && 0 <= j < |ends| && Admissible(q, starts[i], ends[j]) ::
         && Time(q, starts[k], ends[l]) <= Time(q, starts[i], ends[j])
         && (Before(i, j, k, l) ==> Time(q, starts[k], ends[l]) < Time(q, starts[i], ends[j]))
  }

  ghost predicate Proposes(q: Search, starts: seq<Station>, ends: seq<Station>, pair: Pair, k: nat, l: nat) {
    && k < |starts| && l < |ends| && Fastest(q, starts, ends, k, l)
    && pair.origin == starts[k].(distanceM := Some(q.distance(q.origin, starts[k].position)))
    && pair.destination == ends[l].(distanceM := Some(q.distance(q.destination, ends[l].position)))
    && pair.duration == Time(q, starts[k], ends[l]) && pair.walking == OnFoot(q, starts[k], ends[l])
  }

  /** The usable stations of one end, placed and in order. */
  function Candidates(q: Search, bikes: bool, stations: seq<Station>): seq<Station> {
    Filter((s: Station) => Usable(q, bikes, s), PlacedAll(q, bikes, stations))
  }

  lemma {:induction false} FilterBoth(q: Search, bikes: bool, minimum: int, stations: seq<Station>)
    requires minimum == if bikes then q.minimumBikes else q.minimumDocks
    ensures Filter((s: Station) => Usable(q, bikes, s), stations)
         == if q.offline then Filter((s: Station) => Stocked(minimum, bikes, s), stations)
            else Filter((s: Station) => Recent(q.now, q.maximumAge, s),
                Filter((s: Station) => Stocked(minimum, bikes, s), stations))
  {
    if stations != [] {
      var init, last := stations[..|stations| - 1], stations[|stations| - 1];
      FilterBoth(q, bikes, minimum, init);
      var stocked := Filter((s: Station) => Stocked(minimum, bikes, s), init);
      FilterAppend((s: Station) => Recent(q.now, q.maximumAge, s), stocked, last);
      assert stocked + [] == stocked;
    }
  }

  method Prepare(q: Search, bikes: bool, stations: seq<Station>) returns (ready: seq<Station>)
    ensures ready == Candidates(q, bikes, stations)
  {
    var copy := new Station[|stations|](i requires 0 <= i < |stations| => stations[i]);
    SetStationDistances(q.distance, copy, if bikes then q.origin else q.destination);
    assert copy[..] == PlacedAll(q, bikes, stations);
    FilterBoth(q, bikes, if bikes then q.minimumBikes else q.minimumDocks, copy[..]);
    ready := FilterStations(copy[..], if bikes then q.minimumBikes else q.minimumDocks, bikes);
    if !q.offline {
      ready := FilterFreshStations(ready, q.now, q.maximumAge);
    }
  }

  /** The proposed pair is the first fastest admissible one, and none is proposed only when none is admissible. */
  method VelovPair(q: Search, starts: seq<Station>, ends: seq<Station>) returns (pair: Option<Pair>)
    ensures pair.None? ==> forall i, j | 0 <= i < |starts| && 0 <= j < |ends| :: !Admissible(q, starts[i], ends[j])
    ensures pair.Some? ==> exists k: nat, l: nat :: Proposes(q, starts, ends, pair.value, k, l)
  {
    var from := Prepare(q, true, starts);
    var to := Prepare(q, false, ends);
    ghost var at;
    pair, at := SearchPairs(q.distance, q.maxWalking, from, to);
    Lift(q, starts, ends, pair, at);
  }

  /** The stations of one end with their distances. */
  function PlacedAll(q: Search, bikes: bool, stations: seq<Station>): seq<Station> {
    seq(|stations|, i requires 0 <= i < |stations| => if bikes then Start(q, stations[i]) else End(q, stations[i]))
  }

  /** Where a candidate of one end stands in the provider's list. */
  lemma Origin(q: Search, bikes: bool, stations: seq<Station>, k: nat) returns (i: nat)
    requires k < |Candidates(q, bikes, stations)|
    ensures i < |stations| && Usable(q, bikes, stations[i])
    ensures Candidates(q, bikes, stations)[k] == (if bikes then Start(q, stations[i]) else End(q, stations[i]))
    ensures Rank((s: Station) => Usable(q, bikes, s), PlacedAll(q, bikes, stations), i) == k
  {
    var keep, placed := (s: Station) => Usable(q, bikes, s), PlacedAll(q, bikes, stations);
    assert placed[..|placed|] == placed;
    i := RankFrom(keep, placed, |placed|, k);
    RankHolds(keep, placed, i);
  }

  /** Where a usable station of the provider's list stands among the candidates, and that the order is kept. */
  lemma Standing(q: Search, bikes: bool, stations: seq<Station>, i: nat, i': nat) returns (k: nat)
    requires i < |stations| && i' < |stations| && Usable(q, bikes, stations[i])
    ensures k < |Candidates(q, bikes, stations)|
    ensures Candidates(q, bikes, stations)[k] == if bikes then Start(q, stations[i]) else End(q, stations[i])
    ensures
      var rank := Rank((s: Station) => Usable(q, bikes, s), PlacedAll(q, bikes, stations), i');
      (i < i' ==> k < rank) && (i == i' ==> k == rank)
  {
    var keep, placed := (s: Station) => Usable(q, bikes, s), PlacedAll(q, bikes, stations);
    assert keep(placed[i]);
    k := Rank(keep, placed, i);
    RankHolds(keep, placed, i);
    if i < i' {
      RankOrder(keep, placed, i, i');
    }
  }

  /** An admissible pair is one that the search saw. */
  lemma Seen(q: Search, starts: seq<Station>, ends: seq<Station>, at: Option<(nat, nat)>, i: nat, j: nat)
    requires i < |starts| && j < |ends| && Admissible(q, starts[i], ends[j])
    requires Best(q.distance, q.maxWalking, Candidates(q, true, starts), Candidates(q, false, ends),
        |Candidates(q, true, starts)|, 0, at)
    ensures at.Some?
  {
    SearchedPairs(q, starts[i], ends[j]);
    var x := Standing(q, true, starts, i, i);
    var y := Standing(q, false, ends, j, j);
    assert Before(x, y, |Candidates(q, true, starts)|, 0);
  }

  lemma Compared(q: Search, starts: seq<Station>, ends: seq<Station>, k: nat, l: nat, i0: nat, j0: nat, i: nat, j: nat)
    requires i < |starts| && j < |ends| && i0 < |starts| && j0 < |ends| && Admissible(q, starts[i], ends[j])
    requires k < |Candidates(q, true, starts)| && l < |Candidates(q, false, ends)|
    requires Candidates(q, true, starts)[k] == Start(q, starts[i0]) && Candidates(q, false, ends)[l] == End(q, ends[j0])
    requires Rank((s: Station) => Usable(q, true, s), PlacedAll(q, true, starts), i0) == k
    requires Rank((s: Station) => Usable(q, false, s), PlacedAll(q, false, ends), j0) == l
    requires Best(q.distance, q.maxWalking, Candidates(q, true, starts), Candidates(q, false, ends),
        |Candidates(q, true, starts)|, 0, Some((k, l)))
    ensures Time(q, starts[i0], ends[j0]) <= Time(q, starts[i], ends[j])
    ensures Before(i, j, i0, j0) ==> Time(q, starts[i0], ends[j0]) < Time(q, starts[i], ends[j])
  {
    var from, to := Candidates(q, true, starts), Candidates(q, false, ends);
    SearchedPairs(q, starts[i], ends[j]);
    SearchedPairs(q, starts[i0], ends[j0]);
    var x := Standing(q, true, starts, i, i0);
    var y := Standing(q, false, ends, j, j0);
    assert Before(x, y, |from|, 0) && Near(q.maxWalking, from[x], to[y]);
    assert NoBetter(q.distance, from, to, x, y, k, l);
  }

  /** What the search finds among the candidates is what the provider's lists offer. */
  lemma Lift(q: Search, starts: seq<Station>, ends: seq<Station>, pair: Option<Pair>, at: Option<(nat, nat)>)
    requires
      var from, to := Candidates(q, true, starts), Candidates(q, false, ends);
      Best(q.distance, q.maxWalking, from, to, |from|, 0, at) && Stands(q.distance, from, to, pair, at)
    ensures pair.None? ==> forall i, j | 0 <= i < |starts| && 0 <= j < |ends| :: !Admissible(q, starts[i], ends[j])
    ensures pair.Some? ==> exists k: nat, l: nat :: Proposes(q, starts, ends, pair.value, k, l)
  {
    if at.None? {
      forall i, j | 0 <= i < |starts| && 0 <= j < |ends| ensures !Admissible(q, starts[i], ends[j]) {
        if Admissible(q, starts[i], ends[j]) {
          Seen(q, starts, ends, at, i, j);
        }
      }
    } else {
      var (k, l) := at.value;
      var i0 := Origin(q, true, starts, k);
      var j0 := Origin(q, false, ends, l);
      forall i, j | 0 <= i < |starts| && 0 <= j < |ends| && Admissible(q, starts[i], ends[j])
        ensures Time(q, starts[i0], ends[j0]) <= Time(q, starts[i], ends[j])
        ensures Before(i, j, i0, j0) ==> Time(q, starts[i0], ends[j0]) < Time(q, starts[i], ends[j])
      {
        Compared(q, starts, ends, k, l, i0, j0, i, j);
      }
      SearchedPairs(q, starts[i0], ends[j0]);
      assert Proposes(q, starts, ends, pair.value, i0, j0);
    }
  }
}
