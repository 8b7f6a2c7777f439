/** Whether the imported timetable covers a date. */
module Coverage {
  import opened Text
  import opened Sorting
  import opened StringSorting
  import opened Timetable

  datatype Status = Current | FutureOnly | Expired | CoveredNoService

  /** `Missing` is a report without dates; `Panicked` is a slice out of range. */
  datatype Report =
    | Missing(imported: bool)
    | Dated(status: Status, firstDate: string, lastDate: string, active: seq<string>)
    | Panicked

  /** The dates on which an exception adds a service. */
  ghost function AddedDates(rows: seq<ExceptionRow>): iset<string> {
    if rows == [] then iset{}
    else
      var last := rows[|rows| - 1];
      AddedDates(rows[..|rows| - 1]) + (if last.kind == 1 then iset{last.date} else iset{})
  }

  ghost function Starts(calendars: map<string, Calendar>, ids: set<string>): iset<string>
    requires ids <= calendars.Keys
  {
    iset id | id in ids :: calendars[id].startDate
  }

  ghost function Ends(calendars: map<string, Calendar>, ids: set<string>): iset<string>
    requires ids <= calendars.Keys
  {
    iset id | id in ids :: calendars[id].endDate
  }

  /** The import leaves no date empty. */
  predicate StoredDates(calendars: map<string, Calendar>, rows: seq<ExceptionRow>) {
    && (forall id | id in calendars :: calendars[id].startDate != "" && calendars[id].endDate != "")
    && (forall i | 0 <= i < |rows| :: rows[i].date != "")
  }

  // ----- active services -----

  predicate HasDate(key: string, dateKey: string) {
    |key| > |dateKey| && key[|key| - |dateKey|..] == dateKey
  }

  function ServiceOf(key: string, dateKey: string): string
    requires |key| > |dateKey|
  {
    key[..|key| - |dateKey| - 1]
  }

  function ActiveSet(calendars: map<string, Calendar>, exceptions: map<string, int>, weekday: int,
      dateKey: string): set<string> {
    (set id | id in calendars && ServiceRuns(id, weekday, dateKey, calendars, exceptions))
    + (set key | key in exceptions && exceptions[key] == 1 && HasDate(key, dateKey) :: ServiceOf(key, dateKey))
  }

  predicate TooShort(exceptions: map<string, int>, dateKey: string) {
    exists key | key in exceptions :: exceptions[key] == 1 && |key| <= |dateKey|
  }

  function Earlier(current: string, date: string): string {
    if current == "" || LexLess(date, current) then date else current
  }

  function Later(current: string, date: string): string {
    if current == "" || LexLess(current, date) then date else current
  }

  /** `least` is the minimum of `dates`, or "" when there is none. */
  ghost predicate Least(least: string, dates: iset<string>) {
    && (least == "" <==> dates == iset{})
    && (least != "" ==> least in dates && forall x | x in dates :: LexLe(least, x))
  }

  ghost predicate Greatest(greatest: string, dates: iset<string>) {
    && (greatest == "" <==> dates == iset{})
    && (greatest != "" ==> greatest in dates && forall x | x in dates :: LexLe(x, greatest))
  }

  lemma EarlierKeepsLeast(current: string, date: string, dates: iset<string>)
    requires date != "" && Least(current, dates)
    ensures Least(Earlier(current, date), dates + iset{date})
  {
    var next := Earlier(current, date);
    assert date in dates + iset{date};
    LexTotal(current, date);
    LexTotal(date, date);
    forall x | x in dates ensures LexLe(next, x) {
      if next == date {
        LexTransitive(date, current, x);
      }
    }
  }

  lemma LaterKeepsGreatest(current: string, date: string, dates: iset<string>)
    requires date != "" && Greatest(current, dates)
    ensures Greatest(Later(current, date), dates + iset{date})
  {
    var next := Later(current, date);
    assert date in dates + iset{date};
    LexTotal(current, date);
    LexTotal(date, date);
    forall x | x in dates ensures LexLe(x, next) {
      if next == date {
        LexTransitive(x, current, date);
      }
    }
  }

  /** The loop over the calendars, which the source visits in any order. */
  method CalendarRange(calendars: map<string, Calendar>) returns (firstDate: string, lastDate: string)
    requires StoredDates(calendars, [])
    ensures Least(firstDate, Starts(calendars, calendars.Keys)) && Greatest(lastDate, Ends(calendars, calendars.Keys))
  {
    firstDate, lastDate := "", "";
    var remaining := calendars.Keys;
    ghost var done: set<string> := {};
    while remaining != {}
      invariant remaining + done == calendars.Keys
      invariant Least(firstDate, Starts(calendars, done)) && Greatest(lastDate, Ends(calendars, done))
    {
      var id :| id in remaining;
      var calendar := calendars[id];
      EarlierKeepsLeast(firstDate, calendar.startDate, Starts(calendars, done));
      LaterKeepsGreatest(lastDate, calendar.endDate, Ends(calendars, done));
      assert Starts(calendars, done + {id}) == Starts(calendars, done) + iset{calendar.startDate};
      assert Ends(calendars, done + {id}) == Ends(calendars, done) + iset{calendar.endDate};
      firstDate, lastDate := Earlier(firstDate, calendar.startDate), Later(lastDate, calendar.endDate);
      remaining, done := remaining - {id}, done + {id};
    }
    assert done == calendars.Keys;
  }

  /** The loop over the exception rows widens the range by the added dates and fills the map. */
  method ExceptionRange(rows: seq<ExceptionRow>, first: string, last: string, ghost starts: iset<string>,
      ghost ends: iset<string>)
    returns (firstDate: string, lastDate: string, exceptions: map<string, int>)
    requires StoredDates(map[], rows) && Least(first, starts) && Greatest(last, ends)
    ensures exceptions == ExceptionMap(rows)
    ensures Least(firstDate, starts + AddedDates(rows)) && Greatest(lastDate, ends + AddedDates(rows))
  {
    firstDate, lastDate, exceptions := first, last, map[];
    assert starts + AddedDates([]) == starts && ends + AddedDates([]) == ends;
    for i := 0 to |rows|
      invariant exceptions == ExceptionMap(rows[..i])
      invariant Least(firstDate, starts + AddedDates(rows[..i])) && Greatest(lastDate, ends + AddedDates(rows[..i]))
    {
      var row := rows[i];
      assert rows[..i + 1][..i] == rows[..i];
      exceptions := exceptions[ExceptionKey(row.service, row.date) := row.kind];
      ghost var added := AddedDates(rows[..i]);
      if row.kind == 1 {
        EarlierKeepsLeast(firstDate, row.date, starts + added);
        LaterKeepsGreatest(lastDate, row.date, ends + added);
        assert starts + (added + iset{row.date}) == starts + added + iset{row.date};
        assert ends + (added + iset{row.date}) == ends + added + iset{row.date};
        firstDate, lastDate := Earlier(firstDate, row.date), Later(lastDate, row.date);
      } else {
        assert AddedDates(rows[..i + 1]) == added;
      }
    }
    assert rows[..|rows|] == rows;
  }

  /** The two loops that collect the services of the date, in any order of the two maps. */
  method ActiveServices(calendars: map<string, Calendar>, exceptions: map<string, int>, weekday: int, dateKey: string)
    returns (panicked: bool, active: seq<string>)
    ensures panicked <==> TooShort(exceptions, dateKey)
    ensures !panicked ==> Distinct(active) && Members(active) == ActiveSet(calendars, exceptions, weekday, dateKey)
  {
    panicked, active := false, [];
    var remaining := calendars.Keys;
    ghost var done: set<string> := {};
    while remaining != {}
      invariant remaining + done == calendars.Keys && remaining !! done
      invariant Distinct(active)
      invariant Members(active) == set id | id in done && ServiceRuns(id, weekday, dateKey, calendars, exceptions)
    {
      var id :| id in remaining;
      if ServiceRuns(id, weekday, dateKey, calendars, exceptions) {
        assert id !in Members(active);
        assert Members(active + [id]) == Members(active) + {id};
        active := active + [id];
      }
      remaining, done := remaining - {id}, done + {id};
    }
    assert done == calendars.Keys;
    ghost var running := Members(active);
    var keys := exceptions.Keys;
    ghost var seen: set<string> := {};
    while keys != {}
      invariant keys + seen == exceptions.Keys
      invariant forall key | key in seen :: exceptions[key] == 1 ==> |key| > |dateKey|
      invariant Distinct(active)
      invariant Members(active) == running + AddedBy(exceptions, seen, dateKey)
    {
      var key :| key in keys;
      ghost var before := AddedBy(exceptions, seen, dateKey);
      if exceptions[key] == 1 {
        if |key| <= |dateKey| {
          return true, [];
        }
        var serviceID := ServiceOf(key, dateKey);
        if HasDate(key, dateKey) {
          assert AddedBy(exceptions, seen + {key}, dateKey) == before + {serviceID};
          if serviceID !in active {
            assert Members(active + [serviceID]) == Members(active) + {serviceID};
            active := active + [serviceID];
          } else {
            assert serviceID in Members(active);
          }
        } else {
          assert AddedBy(exceptions, seen + {key}, dateKey) == before;
        }
      } else {
        assert AddedBy(exceptions, seen + {key}, dateKey) == before;
      }
      keys, seen := keys - {key}, seen + {key};
    }
    assert seen == exceptions.Keys;
  }

  ghost function AddedBy(exceptions: map<string, int>, keys: set<string>, dateKey: string): set<string>
    requires keys <= exceptions.Keys
  {
    set key | key in keys && exceptions[key] == 1 && HasDate(key, dateKey) :: ServiceOf(key, dateKey)
  }

  /** GTFSCoverage on the tables it reads; `weekday` is that of the given time. */
  method GTFSCoverage(imported: bool, calendars: map<string, Calendar>, rows: seq<ExceptionRow>, weekday: int,
      dateKey: string)
    returns (r: Report)
    requires StoredDates(calendars, rows)
    ensures
      var starts := Starts(calendars, calendars.Keys) + AddedDates(rows);
      var ends := Ends(calendars, calendars.Keys) + AddedDates(rows);
      var exceptions := ExceptionMap(rows);
      && (r.Missing? ==> r.imported == imported && (imported ==> starts == iset{}))
      && (r.Panicked? ==> imported && starts != iset{} && TooShort(exceptions, dateKey))
      && (r.Dated? ==>
            && imported && r.firstDate != "" && Least(r.firstDate, starts) && Greatest(r.lastDate, ends)
            && !TooShort(exceptions, dateKey)
            && SortedBy(LexLe, r.active) && Distinct(r.active)
            && Members(r.active) == ActiveSet(calendars, exceptions, weekday, dateKey)
            && (r.status == Current <==> r.active != [])
            && (r.status == FutureOnly <==> r.active == [] && LexLess(dateKey, r.firstDate))
            && (r.status == Expired <==> r.active == [] && LexLe(r.firstDate, dateKey) && LexLess(r.lastDate, dateKey))
            && (r.status == CoveredNoService <==>
                r.active == [] && LexLe(r.firstDate, dateKey) && LexLe(dateKey, r.lastDate)))
  {
    if !imported {
      return Missing(false);
    }
    var firstDate, lastDate := CalendarRange(calendars);
    var exceptions;
    firstDate, lastDate, exceptions :=
        ExceptionRange(rows, firstDate, lastDate, Starts(calendars, calendars.Keys), Ends(calendars, calendars.Keys));
    if firstDate == "" {
      return Missing(true);
    }
    var panicked, active := ActiveServices(calendars, exceptions, weekday, dateKey);
    if panicked {
      return Panicked;
    }
    SortStrings(active);
    active := Sort(LexLe, active);
    var status :=
      if |active| != 0 then Current
      else if LexLess(dateKey, firstDate) then FutureOnly
      else if LexLess(lastDate, dateKey) then Expired
      else CoveredNoService;
    r := Dated(status, firstDate, lastDate, active);
  }

  // ----- what the report means -----

  /** Dates as calendar_dates.txt prescribes them: eight characters, and no NUL. */
  predicate EightDigitDates(rows: seq<ExceptionRow>, dateKey: string) {
    && PlainDates(rows) && '\0' !in dateKey && |dateKey| == 8
    && forall i | 0 <= i < |rows| :: |rows[i].date| == 8
  }

  lemma {:induction false} ExceptionOrigin(rows: seq<ExceptionRow>, key: string) returns (i: nat)
    requires key in ExceptionMap(rows)
    ensures i < |rows| && key == ExceptionKey(rows[i].service, rows[i].date) && rows[i].kind == ExceptionMap(rows)[key]
  {
    var last := rows[|rows| - 1];
    if key == ExceptionKey(last.service, last.date) {
      i := |rows| - 1;
    } else {
      i := ExceptionOrigin(rows[..|rows| - 1], key);
    }
  }

  lemma {:induction false} AddedDate(rows: seq<ExceptionRow>, i: nat)
    requires i < |rows| && rows[i].kind == 1
    ensures rows[i].date in AddedDates(rows)
  {
    if i < |rows| - 1 {
      AddedDate(rows[..|rows| - 1], i);
    }
  }

  /** Row `i`, the last of its service and date, adds it, and is together shorter than the date asked for. */
  ghost predicate ShortAddition(rows: seq<ExceptionRow>, i: int, dateKey: string) {
    && 0 <= i < |rows| && Decides(rows, i, rows[i].service, rows[i].date) && rows[i].kind == 1
    && |rows[i].service| + 1 + |rows[i].date| <= |dateKey|
  }

  /** The report panics on the services of a date exactly when the table has such a row. */
  lemma PanicsOnShortAdditions(rows: seq<ExceptionRow>, dateKey: string)
    requires PlainDates(rows)
    ensures TooShort(ExceptionMap(rows), dateKey) <==> exists i :: ShortAddition(rows, i, dateKey)
  {
    var exceptions := ExceptionMap(rows);
    if TooShort(exceptions, dateKey) {
      var key :| key in exceptions && exceptions[key] == 1 && |key| <= |dateKey|;
      var i := ExceptionOrigin(rows, key);
      MapDecides(rows, rows[i].service, rows[i].date);
      var j :| Decides(rows, j, rows[i].service, rows[i].date) && rows[j].kind == exceptions[key];
      assert ShortAddition(rows, j, dateKey);
    }
    if exists i :: ShortAddition(rows, i, dateKey) {
      var i :| ShortAddition(rows, i, dateKey);
      KindDecides(rows, rows[i].service, rows[i].date, 1);
      assert exceptions[ExceptionKey(rows[i].service, rows[i].date)] == 1;
    }
  }

  /** The reported services are exactly those that run on the date, and the report cannot panic. */
  lemma ActiveIsRunning(calendars: map<string, Calendar>, rows: seq<ExceptionRow>, weekday: int, dateKey: string,
      id: string)
    requires EightDigitDates(rows, dateKey)
    ensures id in ActiveSet(calendars, ExceptionMap(rows), weekday, dateKey) <==>
            InService(calendars, rows, id, weekday, dateKey)
    ensures !TooShort(ExceptionMap(rows), dateKey)
  {
    var exceptions := ExceptionMap(rows);
    RunsInService(calendars, rows, id, weekday, dateKey);
    forall key | key in exceptions && exceptions[key] == 1
      ensures |key| > |dateKey|
      ensures HasDate(key, dateKey) ==> key == ExceptionKey(ServiceOf(key, dateKey), dateKey)
    {
      var i := ExceptionOrigin(rows, key);
      assert key[|key| - 8..] == rows[i].date;
      assert key[..|key| - 9] == rows[i].service;
    }
    if ServiceRuns(id, weekday, dateKey, calendars, exceptions) && id !in calendars {
      var key := ExceptionKey(id, dateKey);
      assert key[|key| - 8..] == dateKey && key[..|key| - 9] == id;
      assert HasDate(key, dateKey) && ServiceOf(key, dateKey) == id;
    }
  }

  /** A date on which some service runs lies between the first and the last service date. */
  lemma CurrentIsWithin(calendars: map<string, Calendar>, rows: seq<ExceptionRow>, weekday: int, dateKey: string,
                        firstDate: string, lastDate: string, id: string)
    requires EightDigitDates(rows, dateKey)
    requires Least(firstDate, Starts(calendars, calendars.Keys) + AddedDates(rows)) && firstDate != ""
    requires Greatest(lastDate, Ends(calendars, calendars.Keys) + AddedDates(rows))
    requires id in ActiveSet(calendars, ExceptionMap(rows), weekday, dateKey)
    ensures LexLe(firstDate, dateKey) && LexLe(dateKey, lastDate)
  {
    ActiveIsRunning(calendars, rows, weekday, dateKey, id);
    if Excepted(rows, id, dateKey, 1) {
      var i :| Decides(rows, i, id, dateKey) && rows[i].kind == 1;
      AddedDate(rows, i);
      assert dateKey in Starts(calendars, calendars.Keys) + AddedDates(rows);
      assert dateKey in Ends(calendars, calendars.Keys) + AddedDates(rows);
    } else {
      var calendar := calendars[id];
      assert calendar.startDate in Starts(calendars, calendars.Keys) + AddedDates(rows);
      assert calendar.endDate in Ends(calendars, calendars.Keys) + AddedDates(rows);
      LexTransitive(firstDate, calendar.startDate, dateKey);
      LexTransitive(dateKey, calendar.endDate, lastDate);
    }
  }

  /** An added date of nine characters is reported under a service that does not exist. */
  lemma LongDateInventsAService(dateKey: string, weekday: int) returns (rows: seq<ExceptionRow>, id: string)
    requires |dateKey| == 8 && '\0' !in dateKey
    ensures StoredDates(map[], rows) && PlainDates(rows)
    ensures id in ActiveSet(map[], ExceptionMap(rows), weekday, dateKey)
    ensures !InService(map[], rows, id, weekday, dateKey)
  {
    var date := ['1'] + dateKey;
    rows, id := [ExceptionRow("a", date, 1)], ['a', '\0'];
    var key := ExceptionKey("a", date);
    assert rows[..0] == [];
    assert ExceptionMap(rows) == ExceptionMap([])[key := 1];
    assert key[|key| - 8..] == dateKey && key[..|key| - 9] == id;
    assert HasDate(key, dateKey) && ServiceOf(key, dateKey) == id;
    assert |rows[0].service| != |id|;
  }
}
