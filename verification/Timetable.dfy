/** The theoretical timetable: service calendars and the departures of the next 24 hours. */
module Timetable {
  import opened Wrappers
  import opened Text
  import opened Sorting
  import opened GtfsTime

  datatype Calendar = Calendar(weekdays: seq<int>, startDate: string, endDate: string)

  datatype ExceptionRow = ExceptionRow(service: string, date: string, kind: int)

  /** One row of the stop query: a stop time joined with its trip and route. */
  datatype Row = Row(departure: string, headsign: string, routeID: string, shortName: string, longName: string,
      serviceID: string)

  /** The map key of an exception: identifier and date around a NUL. */
  function ExceptionKey(service: string, date: string): string {
    service + ['\0'] + date
  }

  function Lookup(exceptions: map<string, int>, key: string): int {
    if key in exceptions then exceptions[key] else 0
  }

  /** Whether a service runs on a day: a date exception decides, otherwise the calendar. */
  predicate ServiceRuns(id: string, weekday: int, dateKey: string, calendars: map<string, Calendar>,
      exceptions: map<string, int>) {
    var exception := Lookup(exceptions, ExceptionKey(id, dateKey));
    if exception == 1 then true
    else if exception == 2 then false
    else if id !in calendars || LexLess(dateKey, calendars[id].startDate)
        || LexLess(calendars[id].endDate, dateKey) then false
    else 0 <= weekday < |calendars[id].weekdays| && calendars[id].weekdays[weekday] != 0
  }

  // ----- loading date exceptions -----

  predicate InRange(date: string, first: string, last: string) {
    LexLe(first, date) && LexLe(date, last)
  }

  function ExceptionMap(rows: seq<ExceptionRow>): map<string, int> {
    if rows == [] then map[]
    else
      var last := rows[|rows| - 1];
      ExceptionMap(rows[..|rows| - 1])[ExceptionKey(last.service, last.date) := last.kind]
  }

  function RowsBetween(rows: seq<ExceptionRow>, first: string, last: string): seq<ExceptionRow> {
    if rows == [] then []
    else
      var row := rows[|rows| - 1];
      RowsBetween(rows[..|rows| - 1], first, last) + (if InRange(row.date, first, last) then [row] else [])
  }

  method LoadGTFSExceptions(rows: seq<ExceptionRow>, first: string, last: string) returns (values: map<string, int>)
    ensures values == ExceptionMap(RowsBetween(rows, first, last))
  {
    values := map[];
    for i := 0 to |rows|
      invariant values == ExceptionMap(RowsBetween(rows[..i], first, last))
    {
      assert rows[..i + 1][..i] == rows[..i];
      ghost var kept := RowsBetween(rows[..i], first, last);
      if InRange(rows[i].date, first, last) {
        assert (kept + [rows[i]])[..|kept|] == kept;
        values := values[ExceptionKey(rows[i].service, rows[i].date) := rows[i].kind];
      } else {
        assert kept + [] == kept;
      }
    }
    assert rows[..|rows|] == rows;
  }

  /** Dates hold no NUL, so an exception key tells its service and date apart. */
  predicate PlainDates(rows: seq<ExceptionRow>) {
    forall i | 0 <= i < |rows| :: '\0' !in rows[i].date
  }

  lemma KeyDate(service: string, date: string, id: string, dateKey: string)
    requires '\0' !in date && '\0' !in dateKey
    requires ExceptionKey(service, date) == ExceptionKey(id, dateKey)
    ensures service == id && date == dateKey
  {
    var k := ExceptionKey(service, date);
    assert k[|service|] == '\0' && k[|id|] == '\0';
    forall i | |service| < i < |k| ensures k[i] != '\0' {
      assert k[i] == date[i - |service| - 1];
    }
    forall i | |id| < i < |k| ensures k[i] != '\0' {
      assert k[i] == dateKey[i - |id| - 1];
    }
    assert |service| == |id|;
    assert service == k[..|service|] && id == k[..|id|];
    assert date == k[|service| + 1..] && dateKey == k[|id| + 1..];
  }

  /** Loading only the dates of the window loses no exception of a day in the window. */
  lemma {:induction false} WindowExceptions(rows: seq<ExceptionRow>, first: string, last: string, id: string,
      dateKey: string)
    requires PlainDates(rows) && '\0' !in dateKey && InRange(dateKey, first, last)
    ensures Lookup(ExceptionMap(RowsBetween(rows, first, last)), ExceptionKey(id, dateKey)) ==
            Lookup(ExceptionMap(rows), ExceptionKey(id, dateKey))
  {
    if rows != [] {
      var init, row := rows[..|rows| - 1], rows[|rows| - 1];
      WindowExceptions(init, first, last, id, dateKey);
      var kept := RowsBetween(init, first, last);
      if InRange(row.date, first, last) {
        assert (kept + [row])[..|kept|] == kept;
      } else {
        assert kept + [] == kept;
        if ExceptionKey(row.service, row.date) == ExceptionKey(id, dateKey) {
          KeyDate(row.service, row.date, id, dateKey);
        }
      }
    }
  }

  // ----- which days a service runs, told from the tables -----

  /** The exception row `i` is the last one of the service and date. */
  ghost predicate Decides(rows: seq<ExceptionRow>, i: int, id: string, dateKey: string) {
    && 0 <= i < |rows| && rows[i].service == id && rows[i].date == dateKey
    && forall j | i < j < |rows| :: !(rows[j].service == id && rows[j].date == dateKey)
  }

  ghost predicate Excepted(rows: seq<ExceptionRow>, id: string, dateKey: string, kind: int) {
    exists i :: Decides(rows, i, id, dateKey) && rows[i].kind == kind
  }

  /** The calendar has the date in its range and the flag of its weekday set. */
  ghost predicate Covers(calendar: Calendar, weekday: int, dateKey: string) {
    && LexLe(calendar.startDate, dateKey) && LexLe(dateKey, calendar.endDate)
    && 0 <= weekday < |calendar.weekdays| && calendar.weekdays[weekday] != 0
  }

  ghost predicate OnCalendar(calendars: map<string, Calendar>, id: string, weekday: int, dateKey: string) {
    id in calendars && Covers(calendars[id], weekday, dateKey)
  }

  /** The last exception of the date adds (1) or removes (2) the service; otherwise the calendar has the say. */
  ghost predicate InService(calendars: map<string, Calendar>, rows: seq<ExceptionRow>, id: string, weekday: int,
      dateKey: string) {
    || Excepted(rows, id, dateKey, 1)
    || (!Excepted(rows, id, dateKey, 2) && OnCalendar(calendars, id, weekday, dateKey))
  }

  lemma DecidesOnce(rows: seq<ExceptionRow>, i: int, j: int, id: string, dateKey: string)
    requires Decides(rows, i, id, dateKey) && Decides(rows, j, id, dateKey)
    ensures i == j
  {
  }

  lemma ExceptedOnce(rows: seq<ExceptionRow>, id: string, dateKey: string, kind: int, other: int)
    requires Excepted(rows, id, dateKey, kind) && Excepted(rows, id, dateKey, other)
    ensures kind == other
  {
    var i :| Decides(rows, i, id, dateKey) && rows[i].kind == kind;
    var j :| Decides(rows, j, id, dateKey) && rows[j].kind == other;
    DecidesOnce(rows, i, j, id, dateKey);
  }

  /** The map holds the kind of the deciding row, or nothing when no row has the service and date. */
  lemma {:induction false} MapDecides(rows: seq<ExceptionRow>, id: string, dateKey: string)
    requires PlainDates(rows) && '\0' !in dateKey
    ensures
      var key := ExceptionKey(id, dateKey);
      if key in ExceptionMap(rows)
      then exists i :: Decides(rows, i, id, dateKey) && rows[i].kind == ExceptionMap(rows)[key]
      else forall i :: !Decides(rows, i, id, dateKey)
  {
    if rows != [] {
      var n := |rows| - 1;
      var init, key := rows[..n], ExceptionKey(id, dateKey);
      MapDecides(init, id, dateKey);
      if ExceptionKey(rows[n].service, rows[n].date) == key {
        KeyDate(rows[n].service, rows[n].date, id, dateKey);
        assert Decides(rows, n, id, dateKey);
      } else {
        forall i ensures Decides(rows, i, id, dateKey) <==> Decides(init, i, id, dateKey) {
          if Decides(rows, i, id, dateKey) || Decides(init, i, id, dateKey) {
            assert i != n;
          }
        }
        if key in ExceptionMap(init) {
          var i :| Decides(init, i, id, dateKey) && init[i].kind == ExceptionMap(init)[key];
          assert Decides(rows, i, id, dateKey) && rows[i].kind == ExceptionMap(rows)[key];
        }
      }
    }
  }

  lemma KindDecides(rows: seq<ExceptionRow>, id: string, dateKey: string, kind: int)
    requires PlainDates(rows) && '\0' !in dateKey && kind != 0
    ensures Lookup(ExceptionMap(rows), ExceptionKey(id, dateKey)) == kind <==> Excepted(rows, id, dateKey, kind)
  {
    MapDecides(rows, id, dateKey);
    if ExceptionKey(id, dateKey) in ExceptionMap(rows) {
      var i :| Decides(rows, i, id, dateKey) && rows[i].kind == ExceptionMap(rows)[ExceptionKey(id, dateKey)];
      if Excepted(rows, id, dateKey, kind) {
        var j :| Decides(rows, j, id, dateKey) && rows[j].kind == kind;
        DecidesOnce(rows, i, j, id, dateKey);
      }
    }
  }

  /** serviceRuns on the loaded maps says what the tables say. */
  lemma RunsInService(calendars: map<string, Calendar>, rows: seq<ExceptionRow>, id: string, weekday: int,
                      dateKey: string)
    requires PlainDates(rows) && '\0' !in dateKey
    ensures ServiceRuns(id, weekday, dateKey, calendars, ExceptionMap(rows)) <==>
            InService(calendars, rows, id, weekday, dateKey)
  {
    KindDecides(rows, id, dateKey, 1);
    KindDecides(rows, id, dateKey, 2);
    if id in calendars {
      LexTotal(calendars[id].startDate, dateKey);
      LexTotal(dateKey, calendars[id].endDate);
    }
  }

  /** A service of all seven weekdays runs on every date of its range but the removed ones. */
  lemma EverydayService(calendars: map<string, Calendar>, rows: seq<ExceptionRow>, id: string, weekday: int,
                        dateKey: string)
    requires PlainDates(rows) && '\0' !in dateKey && 0 <= weekday < 7
    requires id in calendars && |calendars[id].weekdays| == 7 && forall i | 0 <= i < 7 :: calendars[id].weekdays[i] != 0
    requires LexLe(calendars[id].startDate, dateKey) && LexLe(dateKey, calendars[id].endDate)
    ensures ServiceRuns(id, weekday, dateKey, calendars, ExceptionMap(rows)) <==> !Excepted(rows, id, dateKey, 2)
  {
    RunsInService(calendars, rows, id, weekday, dateKey);
    if Excepted(rows, id, dateKey, 1) && Excepted(rows, id, dateKey, 2) {
      ExceptedOnce(rows, id, dateKey, 1, 2);
    }
  }

  /** The calendar has no weekday for the service. */
  ghost predicate NoWeekday(calendars: map<string, Calendar>, id: string) {
    id in calendars ==> forall i | 0 <= i < |calendars[id].weekdays| :: calendars[id].weekdays[i] == 0
  }

  /** A service without a weekday runs on the added dates only. */
  lemma AddedDatesOnly(calendars: map<string, Calendar>, rows: seq<ExceptionRow>, id: string, weekday: int,
                       dateKey: string)
    requires PlainDates(rows) && '\0' !in dateKey && NoWeekday(calendars, id)
    ensures ServiceRuns(id, weekday, dateKey, calendars, ExceptionMap(rows)) <==> Excepted(rows, id, dateKey, 1)
  {
    RunsInService(calendars, rows, id, weekday, dateKey);
  }

  // ----- departures -----

  /** The stored timetable as one stop's query sees it; `accepts` is the line and direction filter. */
  datatype Query = Query(rows: seq<Row>, accepts: Row -> bool, calendars: map<string, Calendar>,
                         exceptionRows: seq<ExceptionRow>, days: Days)

  /** A departure remembers the service day and the row it comes from. */
  datatype Departure = Departure(day: int, index: nat, row: Row, when: int)

  const DAY := 24 * HOUR
  const WINDOW_DAYS := 6

  function BoundedLimit(value: int, fallback: nat, maximum: nat): (limit: nat)
    requires fallback <= maximum
    ensures limit <= maximum
    ensures 1 <= value <= maximum ==> limit == value
    ensures value > maximum ==> limit == maximum
    ensures value < 1 ==> limit == fallback
  {
    if value <= 0 then fallback else if value > maximum then maximum else value
  }

  predicate Runs(q: Query, exceptions: map<string, int>, day: int, row: Row) {
    ServiceRuns(row.serviceID, q.days.weekday(day), q.days.key(day), q.calendars, exceptions)
  }

  /** The departure of row `i` on service day `day`, if it takes place within 24 hours of `at`. */
  function DepartureOf(q: Query, exceptions: map<string, int>, at: int, day: int, i: nat): (r: Option<Departure>)
    ensures r.Some? ==> r.value.day == day && r.value.index == i < |q.rows|
  {
    if i >= |q.rows| then None
    else if !Runs(q, exceptions, day, q.rows[i]) || !q.accepts(q.rows[i]) then None
    else
      var row := q.rows[i];
      match ParseGTFSTime(row.departure, q.days.zero(day))
      case None => None
      case Some(when) => if at <= when < at + DAY then Some(Departure(day, i, row, when)) else None
  }

  function AsSeq<T>(o: Option<T>): seq<T> {
    match o
    case None => []
    case Some(x) => [x]
  }

  /** The values of `f` below `n`, in order. */
  function Collect<T>(f: nat -> Option<T>, n: nat): seq<T> {
    if n == 0 then [] else Collect(f, n - 1) + AsSeq(f(n - 1))
  }

  function DeparturesOn(q: Query, exceptions: map<string, int>, at: int, day: int): nat -> Option<Departure> {
    (i: nat) => DepartureOf(q, exceptions, at, day, i)
  }

  function DayDepartures(q: Query, exceptions: map<string, int>, at: int, day: int): seq<Departure> {
    Collect(DeparturesOn(q, exceptions, at, day), |q.rows|)
  }

  /** The sequences of `f` below `n`, joined. */
  function Chain<T>(f: nat -> seq<T>, n: nat): seq<T> {
    if n == 0 then [] else Chain(f, n - 1) + f(n - 1)
  }

  function DaysFrom(q: Query, exceptions: map<string, int>, at: int, first: int): nat -> seq<Departure> {
    (i: nat) => DayDepartures(q, exceptions, at, first + i)
  }

  function WindowDepartures(q: Query, exceptions: map<string, int>, at: int, first: int, n: nat): seq<Departure> {
    Chain(DaysFrom(q, exceptions, at, first), n)
  }

  function WindowMap(q: Query, today: int): map<string, int> {
    ExceptionMap(RowsBetween(q.exceptionRows, q.days.key(today - 4), q.days.key(today + 1)))
  }

  function SoonerLe(x: Departure, y: Departure): bool {
    x.when <= y.when
  }

  function Scheduled(q: Query, today: int, at: int, limit: nat): seq<Departure> {
    var sorted := Sort(SoonerLe, WindowDepartures(q, WindowMap(q, today), at, today - 4, WINDOW_DAYS));
    if |sorted| > limit then sorted[..limit] else sorted
  }

  /** The inner loop of ScheduledDepartures: the departures of one service day. */
  method AppendDay(q: Query, exceptions: map<string, int>, at: int, serviceDate: int, before: seq<Departure>)
      returns (results: seq<Departure>)
    ensures results == before + DayDepartures(q, exceptions, at, serviceDate)
  {
    results := before;
    for i := 0 to |q.rows|
      invariant results == before + Collect(DeparturesOn(q, exceptions, at, serviceDate), i)
    {
      var row := q.rows[i];
      AppendOne(before, DeparturesOn(q, exceptions, at, serviceDate), i);
      if !Runs(q, exceptions, serviceDate, row) {
        continue;
      }
      if !q.accepts(row) {
        continue;
      }
      var when := ParseGTFSTime(row.departure, q.days.zero(serviceDate));
      if when == None || when.value < at || !(when.value < at + DAY) {
        continue;
      }
      results := results + [Departure(serviceDate, i, row, when.value)];
    }
  }

  lemma AppendOne<T>(before: seq<T>, f: nat -> Option<T>, n: nat)
    ensures before + Collect(f, n + 1) == before + Collect(f, n) + AsSeq(f(n))
  {}

  /** ScheduledDepartures; `today` is the civil date of `at`. */
  method ScheduledDepartures(q: Query, today: int, at: int, requested: int) returns (results: seq<Departure>)
    ensures results == Scheduled(q, today, at, BoundedLimit(requested, 6, 100))
    ensures |results| <= 100
  {
    var limit := BoundedLimit(requested, 6, 100);
    var firstDay := today - 4;
    var exceptions := LoadGTFSExceptions(q.exceptionRows, q.days.key(firstDay), q.days.key(firstDay + 5));
    results := [];
    for offset := 0 to WINDOW_DAYS
      invariant results == WindowDepartures(q, exceptions, at, firstDay, offset)
    {
      results := AppendDay(q, exceptions, at, firstDay + offset, results);
    }
    results := Sort(SoonerLe, results);
    if |results| > limit {
      results := results[..limit];
    }
  }

  // ----- the answer, told without loops, windows or sorting -----

  /** `d` is a departure of the timetable, on any service day, within 24 hours of `at`. */
  ghost predicate Departs(q: Query, at: int, d: Departure) {
    && d.index < |q.rows| && d.row == q.rows[d.index]
    && q.accepts(d.row)
    && InService(q.calendars, q.exceptionRows, d.row.serviceID, q.days.weekday(d.day), q.days.key(d.day))
    && ParseGTFSTime(d.row.departure, q.days.zero(d.day)) == Some(d.when)
    && at <= d.when < at + DAY
  }

  ghost predicate ByDayAndRow(x: Departure, y: Departure) {
    x.day < y.day || (x.day == y.day && x.index < y.index)
  }

  /** Earlier, or at the same instant and first in service day and query order. */
  ghost predicate Before(x: Departure, y: Departure) {
    x.when < y.when || (x.when == y.when && ByDayAndRow(x, y))
  }

  /** `results` are, in order and without repetition, the first `limit` of everything that satisfies `holds`. */
  ghost predicate FirstOf<T(!new)>(holds: T -> bool, before: (T, T) -> bool, limit: nat, results: seq<T>) {
    && |results| <= limit
    && (forall i | 0 <= i < |results| :: holds(results[i]))
    && (forall i, j | 0 <= i < j < |results| :: before(results[i], results[j]))
    && (forall d | holds(d) ::
        d in results || (|results| == limit && forall i | 0 <= i < limit :: before(results[i], d)))
  }

  ghost predicate Earliest(q: Query, at: int, limit: nat, results: seq<Departure>) {
    FirstOf((d: Departure) => Departs(q, at, d), (x: Departure, y: Departure) => Before(x, y), limit, results)
  }

  /** The dates of the window's days lie between its first and last date. */
  ghost predicate WindowKeys(q: Query, today: int) {
    && PlainDates(q.exceptionRows)
    && forall day | today - 4 <= day <= today + 1 ::
         '\0' !in q.days.key(day) && InRange(q.days.key(day), q.days.key(today - 4), q.days.key(today + 1))
  }

  lemma {:induction false} CollectMembers<T>(f: nat -> Option<T>, n: nat, x: T)
    ensures x in Collect(f, n) <==> exists i: nat :: i < n && f(i) == Some(x)
  {
    if n > 0 {
      CollectMembers(f, n - 1, x);
      assert x in AsSeq(f(n - 1)) <==> f(n - 1) == Some(x);
    }
  }

  lemma {:induction false} CollectOrder<T>(f: nat -> Option<T>, before: (T, T) -> bool, n: nat)
    requires forall i: nat, j: nat | i < j < n && f(i).Some? && f(j).Some? :: before(f(i).value, f(j).value)
    ensures SortedBy(before, Collect(f, n))
    ensures |Collect(f, n)| <= n
  {
    if n > 0 {
      CollectOrder(f, before, n - 1);
      var init := Collect(f, n - 1);
      if f(n - 1).Some? {
        var last := f(n - 1).value;
        forall k | 0 <= k < |init| ensures before(init[k], last) {
          CollectMembers(f, n - 1, init[k]);
          var i: nat :| i < n - 1 && f(i) == Some(init[k]);
        }
        assert Collect(f, n) == init + [last];
      } else {
        assert Collect(f, n) == init;
      }
    }
  }

  lemma DayMembers(q: Query, exceptions: map<string, int>, at: int, day: int, d: Departure)
    ensures d in DayDepartures(q, exceptions, at, day) <==>
        d.index < |q.rows| && DepartureOf(q, exceptions, at, day, d.index) == Some(d)
    ensures d in DayDepartures(q, exceptions, at, day) ==> d.day == day
  {
    CollectMembers(DeparturesOn(q, exceptions, at, day), |q.rows|, d);
    assert DeparturesOn(q, exceptions, at, day)(d.index) == DepartureOf(q, exceptions, at, day, d.index);
  }

  lemma DayOrder(q: Query, exceptions: map<string, int>, at: int, day: int)
    ensures SortedBy(ByDayAndRow, DayDepartures(q, exceptions, at, day))
    ensures |DayDepartures(q, exceptions, at, day)| <= |q.rows|
  {
    CollectOrder(DeparturesOn(q, exceptions, at, day), ByDayAndRow, |q.rows|);
  }

  ghost predicate IsWindowMember(q: Query, exceptions: map<string, int>, at: int, first: int, n: nat, d: Departure) {
    first <= d.day < first + n && d.index < |q.rows| && DepartureOf(q, exceptions, at, d.day, d.index) == Some(d)
  }

  lemma {:induction false} ChainMembers<T>(f: nat -> seq<T>, n: nat, x: T)
    ensures x in Chain(f, n) <==> exists i: nat :: i < n && x in f(i)
  {
    if n > 0 {
      ChainMembers(f, n - 1, x);
    }
  }

  lemma {:induction false} ChainOrder<T(!new)>(f: nat -> seq<T>, before: (T, T) -> bool, n: nat, bound: nat)
    requires forall i: nat | i < n :: SortedBy(before, f(i)) && |f(i)| <= bound
    requires forall i: nat, j: nat, x, y | i < j < n && x in f(i) && y in f(j) :: before(x, y)
    ensures SortedBy(before, Chain(f, n))
    ensures |Chain(f, n)| <= n * bound
  {
    if n > 0 {
      ChainOrder(f, before, n - 1, bound);
      var init, last := Chain(f, n - 1), f(n - 1);
      forall k, l | 0 <= k < |init| && 0 <= l < |last| ensures before(init[k], last[l]) {
        ChainMembers(f, n - 1, init[k]);
        assert last[l] in last;
      }
      assert n * bound == (n - 1) * bound + bound;
    }
  }

  lemma WindowMembers(q: Query, exceptions: map<string, int>, at: int, first: int, n: nat, d: Departure)
    ensures d in WindowDepartures(q, exceptions, at, first, n) <==> IsWindowMember(q, exceptions, at, first, n, d)
  {
    var f := DaysFrom(q, exceptions, at, first);
    ChainMembers(f, n, d);
    forall i: nat ensures d in f(i) <==>
        d.day == first + i && d.index < |q.rows| && DepartureOf(q, exceptions, at, d.day, d.index) == Some(d) {
      DayMembers(q, exceptions, at, first + i, d);
    }
    if IsWindowMember(q, exceptions, at, first, n, d) {
      assert d in f(d.day - first);
    }
  }

  lemma WindowOrder(q: Query, exceptions: map<string, int>, at: int, first: int, n: nat)
    ensures SortedBy(ByDayAndRow, WindowDepartures(q, exceptions, at, first, n))
    ensures |WindowDepartures(q, exceptions, at, first, n)| <= n * |q.rows|
  {
    var f := DaysFrom(q, exceptions, at, first);
    forall i: nat | i < n ensures SortedBy(ByDayAndRow, f(i)) && |f(i)| <= |q.rows| {
      DayOrder(q, exceptions, at, first + i);
    }
    forall i: nat, x | x in f(i) ensures x.day == first + i {
      DayMembers(q, exceptions, at, first + i, x);
    }
    ChainOrder(f, (x, y) => ByDayAndRow(x, y), n, |q.rows|);
  }

  /** No departure of an earlier day than the window's first reaches into the 24 hours. */
  lemma OlderDaysAreOver(q: Query, today: int, at: int, d: Departure)
    requires CivilClock(q.days) && OnDay(q.days, today, at)
    requires Departs(q, at, d)
    ensures d.day >= today - 4
  {
    if d.day < today - 4 {
      ZerosApart(q.days, d.day, today - 1 - d.day);
    }
  }

  lemma LaterDaysAreAhead(q: Query, today: int, at: int, d: Departure)
    requires CivilClock(q.days) && OnDay(q.days, today, at)
    requires at + DAY <= q.days.zero(today + 2)
    requires Departs(q, at, d)
    ensures d.day <= today + 1
  {
    if d.day > today + 1 {
      ZerosApart(q.days, today + 2, d.day - today - 2);
    }
  }

  /** On a day of the window, the loaded exceptions decide as all exceptions do. */
  lemma WindowDecides(q: Query, today: int, at: int, d: Departure)
    requires WindowKeys(q, today) && today - 4 <= d.day <= today + 1
    ensures Departs(q, at, d) <==> IsWindowMember(q, WindowMap(q, today), at, today - 4, WINDOW_DAYS, d)
  {
    if d.index < |q.rows| {
      WindowExceptions(q.exceptionRows, q.days.key(today - 4), q.days.key(today + 1), q.rows[d.index].serviceID,
          q.days.key(d.day));
      RunsInService(q.calendars, q.exceptionRows, q.rows[d.index].serviceID, q.days.weekday(d.day),
          q.days.key(d.day));
    }
  }

  lemma SoonerIsOrder()
    ensures TotalPreorder(SoonerLe)
  {}

  /** The departures before sorting, against all departures of the timetable. */
  lemma WindowIsComplete(q: Query, today: int, at: int, d: Departure)
    requires CivilClock(q.days) && OnDay(q.days, today, at) && WindowKeys(q, today)
    requires at + DAY <= q.days.zero(today + 2)
    ensures d in WindowDepartures(q, WindowMap(q, today), at, today - 4, WINDOW_DAYS) <==> Departs(q, at, d)
  {
    WindowMembers(q, WindowMap(q, today), at, today - 4, WINDOW_DAYS, d);
    if today - 4 <= d.day <= today + 1 {
      WindowDecides(q, today, at, d);
    } else if Departs(q, at, d) {
      OlderDaysAreOver(q, today, at, d);
      LaterDaysAreAhead(q, today, at, d);
    }
  }

  lemma SortedWindow(q: Query, today: int, at: int) returns (sorted: seq<Departure>)
    ensures sorted == Sort(SoonerLe, WindowDepartures(q, WindowMap(q, today), at, today - 4, WINDOW_DAYS))
    ensures forall i, j | 0 <= i < j < |sorted| :: Before(sorted[i], sorted[j])
    ensures forall d :: d in sorted <==> d in WindowDepartures(q, WindowMap(q, today), at, today - 4, WINDOW_DAYS)
    ensures |sorted| <= WINDOW_DAYS * |q.rows|
  {
    var all := WindowDepartures(q, WindowMap(q, today), at, today - 4, WINDOW_DAYS);
    sorted := Sort(SoonerLe, all);
    WindowOrder(q, WindowMap(q, today), at, today - 4, WINDOW_DAYS);
    SoonerIsOrder();
    SortStable(SoonerLe, ByDayAndRow, all);
    SortKeepsMembers(SoonerLe, all);
    forall i, j | 0 <= i < j < |sorted| ensures Before(sorted[i], sorted[j]) {
      assert Precedes(SoonerLe, ByDayAndRow, sorted[i], sorted[j]);
    }
  }

  /** A sorted list of everything gives the first ones when it is cut. */
  lemma CutIsFirst<T(!new)>(holds: T -> bool, before: (T, T) -> bool, limit: nat, sorted: seq<T>)
    requires forall d :: d in sorted <==> holds(d)
    requires forall i, j | 0 <= i < j < |sorted| :: before(sorted[i], sorted[j])
    ensures FirstOf(holds, before, limit, if |sorted| > limit then sorted[..limit] else sorted)
  {
    var results := if |sorted| > limit then sorted[..limit] else sorted;
    forall i | 0 <= i < |results| ensures holds(results[i]) {
      assert results[i] == sorted[i] && sorted[i] in sorted;
    }
    forall d | holds(d)
      ensures d in results || (|results| == limit && forall i | 0 <= i < limit :: before(results[i], d))
    {
      var k :| 0 <= k < |sorted| && sorted[k] == d;
      if k < |results| {
        assert results[k] == d;
      }
    }
  }

  /**
   The result is the first `limit` of the departures of every service day within 24 hours,
   provided those hours end by the zero instant of the day after tomorrow.
   */
  lemma ScheduledIsEarliest(q: Query, today: int, at: int, limit: nat)
    requires CivilClock(q.days) && OnDay(q.days, today, at) && WindowKeys(q, today)
    requires at + DAY <= q.days.zero(today + 2)
    ensures Earliest(q, at, limit, Scheduled(q, today, at, limit))
  {
    var sorted := SortedWindow(q, today, at);
    forall d ensures d in sorted <==> Departs(q, at, d) {
      WindowIsComplete(q, today, at, d);
    }
    CutIsFirst((d: Departure) => Departs(q, at, d), (x: Departure, y: Departure) => Before(x, y), limit, sorted);
  }

  /** Whatever the query, a returned departure of a service without a weekday is on a date that adds the service. */
  lemma DepartsOnAddedDates(q: Query, today: int, at: int, limit: nat, d: Departure)
    requires WindowKeys(q, today) && d in Scheduled(q, today, at, limit) && NoWeekday(q.calendars, d.row.serviceID)
    ensures Excepted(q.exceptionRows, d.row.serviceID, q.days.key(d.day), 1)
  {
    var sorted := SortedWindow(q, today, at);
    assert d in sorted;
    WindowMembers(q, WindowMap(q, today), at, today - 4, WINDOW_DAYS, d);
    WindowDecides(q, today, at, d);
  }

  // ----- when six service days are enough -----

  lemma ZeroTime() returns (text: string)
    ensures ParseOffset(text) == Some(0)
  {
    text := FormatOffset(0, 0, 0);
    ParseFormatted(0, 0, 0);
  }

  /** A timetable with one departure, which runs on one day by exception. */
  function Lonely(days: Days, day: int, departure: string): Query {
    Query([Row(departure, "", "r", "", "", "s")], (row: Row) => true, map[],
          [ExceptionRow("s", days.key(day), 1)], days)
  }

  lemma LonelyRuns(days: Days, day: int, departure: string)
    ensures
      var q := Lonely(days, day, departure);
      InService(q.calendars, q.exceptionRows, "s", days.weekday(day), days.key(day))
  {
    var rows := Lonely(days, day, departure).exceptionRows;
    assert Decides(rows, 0, "s", days.key(day)) && rows[0].kind == 1;
  }

  lemma LonelyDeparts(days: Days, today: int, at: int, departure: string) returns (d: Departure)
    requires CivilClock(days) && OnDay(days, today, at)
    requires at + DAY > days.zero(today + 2)
    requires ParseOffset(departure) == Some(0)
    ensures Departs(Lonely(days, today + 2, departure), at, d) && d.day == today + 2
  {
    var q := Lonely(days, today + 2, departure);
    d := Departure(today + 2, 0, q.rows[0], days.zero(today + 2));
    LonelyRuns(days, today + 2, departure);
    ZerosApart(days, today, 2);
  }

  /** A departure after the window is not returned even when there is room for it. */
  lemma BeyondTheWindow(q: Query, today: int, at: int, d: Departure)
    requires Departs(q, at, d) && d.day == today + 2 && |q.rows| == 1
    ensures !Earliest(q, at, 100, Scheduled(q, today, at, 100))
  {
    var sorted := SortedWindow(q, today, at);
    WindowMembers(q, WindowMap(q, today), at, today - 4, WINDOW_DAYS, d);
    assert d !in sorted && |sorted| <= WINDOW_DAYS;
  }

  lemma LonelyIsMissed(days: Days, today: int, at: int) returns (q: Query)
    requires CivilClock(days) && OnDay(days, today, at)
    requires at + DAY > days.zero(today + 2)
    requires '\0' !in days.key(today + 2)
    ensures q.days == days && PlainDates(q.exceptionRows)
    ensures !Earliest(q, at, 100, Scheduled(q, today, at, 100))
  {
    var departure := ZeroTime();
    q := Lonely(days, today + 2, departure);
    var d := LonelyDeparts(days, today, at, departure);
    BeyondTheWindow(q, today, at, d);
  }

  /**
   Six service days answer every query about an instant exactly when its 24 hours end by
   the zero instant of the day after tomorrow.
   */
  lemma SixDaysSuffice(days: Days, today: int, at: int)
    requires CivilClock(days) && OnDay(days, today, at)
    requires forall day | today - 4 <= day <= today + 2 :: '\0' !in days.key(day)
    requires forall day | today - 4 <= day <= today + 1 ::
        InRange(days.key(day), days.key(today - 4), days.key(today + 1))
    ensures (forall q: Query, limit: nat | q.days == days && PlainDates(q.exceptionRows) ::
               Earliest(q, at, limit, Scheduled(q, today, at, limit)))
            <==> at + DAY <= days.zero(today + 2)
  {
    if at + DAY <= days.zero(today + 2) {
      forall q: Query, limit: nat | q.days == days && PlainDates(q.exceptionRows)
        ensures Earliest(q, at, limit, Scheduled(q, today, at, limit))
      {
        ScheduledIsEarliest(q, today, at, limit);
      }
    } else {
      var q := LonelyIsMissed(days, today, at);
    }
  }

  /** The condition can fail only if one of the next two service days has 23 hours. */
  lemma OnlyShortDaysMatter(days: Days, today: int, at: int)
    requires CivilClock(days) && OnDay(days, today, at)
    requires days.zero(today + 1) - days.zero(today) >= DAY
    requires days.zero(today + 2) - days.zero(today + 1) >= DAY
    ensures at + DAY <= days.zero(today + 2)
  {}

  /** On an ordinary day followed by one of 23 hours, the last hour before midnight looks beyond the window. */
  lemma LastHourBeforeAShortDay(days: Days, today: int, at: int)
    requires CivilClock(days)
    requires days.zero(today + 1) - days.zero(today) == DAY && days.zero(today + 2) - days.zero(today + 1) == 23 * HOUR
    ensures OnDay(days, today, at) && at + DAY > days.zero(today + 2) <==>
        Midnight(days, today) - HOUR < at < Midnight(days, today)
  {
    assert DayLength(days, today - 1);
  }
}
