/** The timetable after an import, told from the rows of the archive. */
module ImportedTimetable {
  import opened Wrappers
  import opened Text
  import opened GtfsTime
  import opened Timetable
  import opened Import = GtfsImport
  import Coverage

  const WEEKDAYS: seq<string> := ["monday", "tuesday", "wednesday", "thursday", "friday", "saturday", "sunday"]

  // ----- reading the tables -----

  /** COALESCE(column, '') */
  function TextAt(record: Record, column: string): string {
    if column in record && record[column].Text? then record[column].text else ""
  }

  function NumberAt(record: Record, column: string): int {
    if column in record && record[column].Integer? then record[column].number else 0
  }

  function CalendarOf(record: Record): Timetable.Calendar {
    Timetable.Calendar(seq(|WEEKDAYS|, i requires 0 <= i < |WEEKDAYS| => NumberAt(record, WEEKDAYS[i])),
                       TextAt(record, "start_date"), TextAt(record, "end_date"))
  }

  /** loadGTFSCalendars: `calendars` comes from the calendar records, in whatever order they were read. */
  ghost predicate LoadedCalendars(t: Tables, calendars: map<string, Timetable.Calendar>) {
    && (forall id | id in calendars :: exists record ::
          IsRecord(t, Import.Calendar, record) && TextAt(record, "service_id") == id
          && calendars[id] == CalendarOf(record))
    && (forall record | IsRecord(t, Import.Calendar, record) :: TextAt(record, "service_id") in calendars)
  }

  function ExceptionOf(record: Record): ExceptionRow {
    ExceptionRow(TextAt(record, "service_id"), TextAt(record, "date"), NumberAt(record, "exception_type"))
  }

  /** `rows` are the exception records in some order. */
  ghost predicate LoadedExceptions(t: Tables, rows: seq<ExceptionRow>) {
    forall row :: row in rows <==> exists record :: IsRecord(t, CalendarDates, record) && row == ExceptionOf(record)
  }

  /** A stop time joined with its trip and the trip's route. */
  ghost predicate Joined(time: Record, trip: Record, route: Record, stops: set<string>, row: Timetable.Row) {
    && TextAt(time, "stop_id") in stops
    && TextAt(trip, "trip_id") == TextAt(time, "trip_id") && TextAt(route, "route_id") == TextAt(trip, "route_id")
    && row == Timetable.Row(TextAt(time, "departure_time"), TextAt(trip, "trip_headsign"), TextAt(route, "route_id"),
                            TextAt(route, "route_short_name"), TextAt(route, "route_long_name"),
                            TextAt(trip, "service_id"))
  }

  /** `rows` are the joined rows of the stops in some order. */
  ghost predicate LoadedRows(t: Tables, stops: set<string>, rows: seq<Timetable.Row>) {
    forall row :: row in rows <==> exists time, trip, route ::
      && IsRecord(t, StopTimes, time) && IsRecord(t, Trips, trip) && IsRecord(t, Routes, route)
      && Joined(time, trip, route, stops, row)
  }

  // ----- what the archive says -----

  /** The last row of service and date in calendar_dates.txt has this type; an empty type is an addition. */
  ghost predicate ArchiveExcepts(archive: Archive, id: string, dateKey: string, kind: int) {
    exists i :: ExceptsAt(archive, i, id, dateKey, kind)
  }

  ghost predicate ExceptsAt(archive: Archive, i: int, id: string, dateKey: string, kind: int) {
    && CalendarDates in archive && LastOfKey(CalendarDates, archive[CalendarDates].rows, i)
    && var row := archive[CalendarDates].rows[i];
       && Get(row, "service_id") == id && Get(row, "date") == dateKey
       && (if Get(row, "exception_type") == "" then kind == 1 else Atoi(Get(row, "exception_type")) == Some(kind))
  }

  /** The last row of the service in calendar.txt covers the date and names its weekday. */
  ghost predicate ArchiveCovers(archive: Archive, id: string, weekday: int, dateKey: string) {
    exists i :: CoversAt(archive, i, id, weekday, dateKey)
  }

  ghost predicate CoversAt(archive: Archive, i: int, id: string, weekday: int, dateKey: string) {
    && Import.Calendar in archive && LastOfKey(Import.Calendar, archive[Import.Calendar].rows, i)
    && Get(archive[Import.Calendar].rows[i], "service_id") == id
    && RowCovers(archive[Import.Calendar].rows[i], weekday, dateKey)
  }

  /** A row without dates covers the years from 1970 to 2099. */
  ghost predicate RowCovers(row: Import.Row, weekday: int, dateKey: string) {
    && LexLe(ValueOr(Get(row, "start_date"), "19700101"), dateKey)
    && LexLe(dateKey, ValueOr(Get(row, "end_date"), "20991231"))
    && 0 <= weekday < 7 && Get(row, WEEKDAYS[weekday]) != "" && Atoi(Get(row, WEEKDAYS[weekday])) != Some(0)
  }

  ghost predicate ArchiveRuns(archive: Archive, id: string, weekday: int, dateKey: string) {
    || ArchiveExcepts(archive, id, dateKey, 1)
    || (!ArchiveExcepts(archive, id, dateKey, 2) && ArchiveCovers(archive, id, weekday, dateKey))
  }

  // ----- the columns of the stored records -----

  function Kind(row: Import.Row): int
    requires WellFormedKind(row)
  {
    if Get(row, "exception_type") == "" then 1 else Atoi(Get(row, "exception_type")).value
  }

  predicate WellFormedKind(row: Import.Row) {
    Get(row, "exception_type") == "" || Atoi(Get(row, "exception_type")).Some?
  }

  lemma ExceptionColumns(row: Import.Row)
    requires WellFormedKind(row)
    ensures ExceptionOf(RecordOf(CalendarDates, row))
         == ExceptionRow(Get(row, "service_id"), Get(row, "date"), Kind(row))
  {
    assert Atoi("1") == Some(1);
  }

  lemma CalendarColumns(row: Import.Row)
    ensures TextAt(RecordOf(Import.Calendar, row), "service_id") == Get(row, "service_id")
    ensures
      var calendar := CalendarOf(RecordOf(Import.Calendar, row));
      && |calendar.weekdays| == 7
      && calendar.startDate == ValueOr(Get(row, "start_date"), "19700101")
      && calendar.endDate == ValueOr(Get(row, "end_date"), "20991231")
      && forall i | 0 <= i < 7 :: calendar.weekdays[i] ==
           match Atoi(Get(row, WEEKDAYS[i])) case None => 0 case Some(flag) => flag
  {
    var record := RecordOf(Import.Calendar, row);
    forall i | 0 <= i < 7
      ensures NumberAt(record, WEEKDAYS[i]) == match Atoi(Get(row, WEEKDAYS[i])) case None => 0 case Some(flag) => flag
    {
      WeekdayColumn(row, i);
    }
  }

  lemma WeekdayColumn(row: Import.Row, i: nat)
    requires i < 7
    ensures NumberAt(RecordOf(Import.Calendar, row), WEEKDAYS[i])
         == match Atoi(Get(row, WEEKDAYS[i])) case None => 0 case Some(flag) => flag
  {
    assert RecordOf(Import.Calendar, row)[WEEKDAYS[i]] == IntegerOrZero(Get(row, WEEKDAYS[i]));
  }

  // ----- exceptions -----

  /** The committed import that the statements below are about. */
  ghost predicate Committed(hash: string -> int, parseFloat: string -> Option<real>, before: Tables, archive: Archive,
      log: (string, string), t: Tables) {
    Imported(hash, parseFloat, before, archive, log) == Some(t)
  }

  lemma StoredKind(hash: string -> int, parseFloat: string -> Option<real>, before: Tables, archive: Archive,
      log: (string, string), t: Tables, i: nat)
    requires Committed(hash, parseFloat, before, archive, log, t)
    requires CalendarDates in archive && i < |archive[CalendarDates].rows|
    ensures WellFormedKind(archive[CalendarDates].rows[i]) && Get(archive[CalendarDates].rows[i], "date") != ""
  {
    AcceptedArchives(hash, parseFloat, before, archive, log);
    assert FileAccepted(parseFloat, archive, CalendarDates);
    assert WellFormed(parseFloat, CalendarDates, archive[CalendarDates].rows[i]);
    assert "exception_type" in WholeColumns(CalendarDates) && "date" in NeededColumns(CalendarDates);
  }

  /** A loaded exception row is the last row of its service and date in the archive. */
  lemma LoadedException(hash: string -> int, parseFloat: string -> Option<real>, before: Tables, archive: Archive,
      log: (string, string), t: Tables, rows: seq<ExceptionRow>, row: ExceptionRow) returns (i: nat)
    requires Committed(hash, parseFloat, before, archive, log, t) && LoadedExceptions(t, rows) && row in rows
    ensures ExceptsAt(archive, i, row.service, row.date, row.kind)
  {
    var record :| IsRecord(t, CalendarDates, record) && row == ExceptionOf(record);
    ImportedRecords(hash, parseFloat, before, archive, log, CalendarDates, record);
    var k :| Stores(archive, CalendarDates, k, record);
    i := k;
    StoredKind(hash, parseFloat, before, archive, log, t, i);
    ExceptionColumns(archive[CalendarDates].rows[i]);
  }

  lemma ExceptedIsLoaded(hash: string -> int, parseFloat: string -> Option<real>, before: Tables, archive: Archive,
      log: (string, string), t: Tables, rows: seq<ExceptionRow>, i: nat, id: string, dateKey: string, kind: int)
    requires Committed(hash, parseFloat, before, archive, log, t) && LoadedExceptions(t, rows)
    requires ExceptsAt(archive, i, id, dateKey, kind)
    ensures ExceptionRow(id, dateKey, kind) in rows
  {
    var record := RecordOf(CalendarDates, archive[CalendarDates].rows[i]);
    assert Stores(archive, CalendarDates, i, record);
    ImportedRecords(hash, parseFloat, before, archive, log, CalendarDates, record);
    StoredKind(hash, parseFloat, before, archive, log, t, i);
    ExceptionColumns(archive[CalendarDates].rows[i]);
  }

  lemma ExceptsOnce(archive: Archive, i: int, j: int, id: string, dateKey: string, kind: int, other: int)
    requires ExceptsAt(archive, i, id, dateKey, kind) && ExceptsAt(archive, j, id, dateKey, other)
    ensures kind == other
  {
    var rows := archive[CalendarDates].rows;
    assert SameKey(CalendarDates, rows[i], rows[j]) && SameKey(CalendarDates, rows[j], rows[i]);
  }

  /** Where there is a row of the service and date, there is a last one. */
  lemma {:induction false} SomeRowDecides(rows: seq<ExceptionRow>, i: nat, id: string, dateKey: string)
    returns (last: nat)
    requires i < |rows| && rows[i].service == id && rows[i].date == dateKey
    ensures Decides(rows, last, id, dateKey)
    decreases |rows| - i
  {
    last := i;
    if j :| i < j < |rows| && rows[j].service == id && rows[j].date == dateKey {
      last := SomeRowDecides(rows, j, id, dateKey);
    }
  }

  lemma ImportedExceptions(hash: string -> int, parseFloat: string -> Option<real>, before: Tables, archive: Archive,
      log: (string, string), t: Tables, rows: seq<ExceptionRow>, id: string, dateKey: string, kind: int)
    requires Committed(hash, parseFloat, before, archive, log, t) && LoadedExceptions(t, rows)
    ensures Excepted(rows, id, dateKey, kind) <==> ArchiveExcepts(archive, id, dateKey, kind)
  {
    if Excepted(rows, id, dateKey, kind) {
      var i :| Decides(rows, i, id, dateKey) && rows[i].kind == kind;
      var k := LoadedException(hash, parseFloat, before, archive, log, t, rows, rows[i]);
    }
    if ArchiveExcepts(archive, id, dateKey, kind) {
      var i :| ExceptsAt(archive, i, id, dateKey, kind);
      ExceptedIsLoaded(hash, parseFloat, before, archive, log, t, rows, i, id, dateKey, kind);
      var n :| 0 <= n < |rows| && rows[n] == ExceptionRow(id, dateKey, kind);
      var last := SomeRowDecides(rows, n, id, dateKey);
      var k := LoadedException(hash, parseFloat, before, archive, log, t, rows, rows[last]);
      ExceptsOnce(archive, i, k, id, dateKey, kind, rows[last].kind);
    }
  }

  // ----- calendars -----

  lemma LoadedCalendar(hash: string -> int, parseFloat: string -> Option<real>, before: Tables, archive: Archive,
      log: (string, string), t: Tables, calendars: map<string, Timetable.Calendar>, id: string) returns (i: nat)
    requires Committed(hash, parseFloat, before, archive, log, t) && LoadedCalendars(t, calendars) && id in calendars
    ensures Import.Calendar in archive && LastOfKey(Import.Calendar, archive[Import.Calendar].rows, i)
    ensures Get(archive[Import.Calendar].rows[i], "service_id") == id
    ensures calendars[id] == CalendarOf(RecordOf(Import.Calendar, archive[Import.Calendar].rows[i]))
  {
    var record :| IsRecord(t, Import.Calendar, record) && TextAt(record, "service_id") == id
                  && calendars[id] == CalendarOf(record);
    ImportedRecords(hash, parseFloat, before, archive, log, Import.Calendar, record);
    var k :| Stores(archive, Import.Calendar, k, record);
    i := k;
    CalendarColumns(archive[Import.Calendar].rows[i]);
  }

  lemma CalendarIsLoaded(hash: string -> int, parseFloat: string -> Option<real>, before: Tables, archive: Archive,
      log: (string, string), t: Tables, calendars: map<string, Timetable.Calendar>, i: nat)
    requires Committed(hash, parseFloat, before, archive, log, t) && LoadedCalendars(t, calendars)
    requires Import.Calendar in archive && LastOfKey(Import.Calendar, archive[Import.Calendar].rows, i)
    ensures Get(archive[Import.Calendar].rows[i], "service_id") in calendars
  {
    var record := RecordOf(Import.Calendar, archive[Import.Calendar].rows[i]);
    assert Stores(archive, Import.Calendar, i, record);
    ImportedRecords(hash, parseFloat, before, archive, log, Import.Calendar, record);
    CalendarColumns(archive[Import.Calendar].rows[i]);
  }

  /** A calendar row of the archive covers the date exactly when its record does. */
  lemma RecordCovers(hash: string -> int, parseFloat: string -> Option<real>, before: Tables, archive: Archive,
      log: (string, string), t: Tables, i: nat, weekday: int, dateKey: string)
    requires Committed(hash, parseFloat, before, archive, log, t)
    requires Import.Calendar in archive && i < |archive[Import.Calendar].rows|
    ensures
      var row := archive[Import.Calendar].rows[i];
      Covers(CalendarOf(RecordOf(Import.Calendar, row)), weekday, dateKey) <==> RowCovers(row, weekday, dateKey)
  {
    var row := archive[Import.Calendar].rows[i];
    AcceptedArchives(hash, parseFloat, before, archive, log);
    assert FileAccepted(parseFloat, archive, Import.Calendar);
    assert WellFormed(parseFloat, Import.Calendar, row);
    CalendarColumns(row);
    assert Atoi("") == None;
    if 0 <= weekday < 7 {
      WeekdayIsWhole(weekday);
      assert Get(row, WEEKDAYS[weekday]) == "" || Atoi(Get(row, WEEKDAYS[weekday])).Some?;
    }
  }

  lemma WeekdayIsWhole(i: nat)
    requires i < 7
    ensures WEEKDAYS[i] in WholeColumns(Import.Calendar)
  {
  }

  /** Only the last row of a service can cover a date. */
  lemma CoversOnce(archive: Archive, k: nat, id: string, weekday: int, dateKey: string)
    requires Import.Calendar in archive && LastOfKey(Import.Calendar, archive[Import.Calendar].rows, k)
    requires Get(archive[Import.Calendar].rows[k], "service_id") == id
    ensures ArchiveCovers(archive, id, weekday, dateKey) <==>
            RowCovers(archive[Import.Calendar].rows[k], weekday, dateKey)
  {
    var rows := archive[Import.Calendar].rows;
    if ArchiveCovers(archive, id, weekday, dateKey) {
      var i :| CoversAt(archive, i, id, weekday, dateKey);
      assert SameKey(Import.Calendar, rows[i], rows[k]) && SameKey(Import.Calendar, rows[k], rows[i]);
      assert i == k;
    }
    if RowCovers(rows[k], weekday, dateKey) {
      assert CoversAt(archive, k, id, weekday, dateKey);
    }
  }

  lemma ImportedCalendars(hash: string -> int, parseFloat: string -> Option<real>, before: Tables, archive: Archive,
      log: (string, string), t: Tables, calendars: map<string, Timetable.Calendar>, id: string, weekday: int,
      dateKey: string)
    requires Committed(hash, parseFloat, before, archive, log, t) && LoadedCalendars(t, calendars)
    ensures OnCalendar(calendars, id, weekday, dateKey) <==> ArchiveCovers(archive, id, weekday, dateKey)
  {
    if id in calendars {
      var k := LoadedCalendar(hash, parseFloat, before, archive, log, t, calendars, id);
      RecordCovers(hash, parseFloat, before, archive, log, t, k, weekday, dateKey);
      CoversOnce(archive, k, id, weekday, dateKey);
    } else if ArchiveCovers(archive, id, weekday, dateKey) {
      var i :| CoversAt(archive, i, id, weekday, dateKey);
      CalendarIsLoaded(hash, parseFloat, before, archive, log, t, calendars, i);
    }
  }

  /** A service runs on a date of the imported timetable exactly when the last rows of the archive say so. */
  lemma ImportedService(hash: string -> int, parseFloat: string -> Option<real>, before: Tables, archive: Archive,
      log: (string, string), t: Tables, calendars: map<string, Timetable.Calendar>, rows: seq<ExceptionRow>,
      id: string, weekday: int, dateKey: string)
    requires Committed(hash, parseFloat, before, archive, log, t)
    requires LoadedCalendars(t, calendars) && LoadedExceptions(t, rows)
    ensures InService(calendars, rows, id, weekday, dateKey) <==> ArchiveRuns(archive, id, weekday, dateKey)
  {
    ImportedExceptions(hash, parseFloat, before, archive, log, t, rows, id, dateKey, 1);
    ImportedExceptions(hash, parseFloat, before, archive, log, t, rows, id, dateKey, 2);
    ImportedCalendars(hash, parseFloat, before, archive, log, t, calendars, id, weekday, dateKey);
  }

  /** An import leaves no calendar or exception without dates, as the coverage report requires. */
  lemma ImportedDates(hash: string -> int, parseFloat: string -> Option<real>, before: Tables, archive: Archive,
      log: (string, string), t: Tables, calendars: map<string, Timetable.Calendar>, rows: seq<ExceptionRow>)
    requires Committed(hash, parseFloat, before, archive, log, t)
    requires LoadedCalendars(t, calendars) && LoadedExceptions(t, rows)
    ensures Coverage.StoredDates(calendars, rows)
    ensures forall id | id in calendars :: |calendars[id].weekdays| == 7
  {
    forall id | id in calendars
      ensures calendars[id].startDate != "" && calendars[id].endDate != "" && |calendars[id].weekdays| == 7
    {
      var k := LoadedCalendar(hash, parseFloat, before, archive, log, t, calendars, id);
      CalendarColumns(archive[Import.Calendar].rows[k]);
    }
    forall i | 0 <= i < |rows| ensures rows[i].date != "" {
      var k := LoadedException(hash, parseFloat, before, archive, log, t, rows, rows[i]);
      StoredKind(hash, parseFloat, before, archive, log, t, k);
    }
  }

  // ----- departures -----

  /** What the archive says about a departure: a stop time, its trip and the trip's route, each the last of its key. */
  ghost predicate ArchiveJoins(archive: Archive, i: int, j: int, k: int, stops: set<string>, row: Timetable.Row) {
    && StopTimes in archive && LastOfKey(StopTimes, archive[StopTimes].rows, i)
    && Trips in archive && LastOfKey(Trips, archive[Trips].rows, j)
    && Routes in archive && LastOfKey(Routes, archive[Routes].rows, k)
    && var time, trip, route := archive[StopTimes].rows[i], archive[Trips].rows[j], archive[Routes].rows[k];
       && Get(time, "stop_id") in stops
       && Get(trip, "trip_id") == Get(time, "trip_id") && Get(route, "route_id") == Get(trip, "route_id")
       && row.departure == ValueOr(ValueOr(Get(time, "departure_time"), Get(time, "arrival_time")), "00:00:00")
       && row.headsign == Get(trip, "trip_headsign") && row.serviceID == Get(trip, "service_id")
       && row.routeID == Get(route, "route_id")
       && row.shortName == Get(route, "route_short_name") && row.longName == Get(route, "route_long_name")
  }

  lemma TimeColumns(row: Import.Row)
    ensures
      var record := RecordOf(StopTimes, row);
      && TextAt(record, "trip_id") == Get(row, "trip_id") && TextAt(record, "stop_id") == Get(row, "stop_id")
      && TextAt(record, "departure_time")
         == ValueOr(ValueOr(Get(row, "departure_time"), Get(row, "arrival_time")), "00:00:00")
      && TextAt(record, "arrival_time")
         == ValueOr(ValueOr(Get(row, "arrival_time"), Get(row, "departure_time")), "00:00:00")
  {
  }

  lemma TripColumns(row: Import.Row)
    ensures
      var record := RecordOf(Trips, row);
      && TextAt(record, "trip_id") == Get(row, "trip_id") && TextAt(record, "route_id") == Get(row, "route_id")
      && TextAt(record, "service_id") == Get(row, "service_id")
      && TextAt(record, "trip_headsign") == Get(row, "trip_headsign")
  {
  }

  lemma RouteColumns(row: Import.Row)
    ensures
      var record := RecordOf(Routes, row);
      && TextAt(record, "route_id") == Get(row, "route_id")
      && TextAt(record, "route_short_name") == Get(row, "route_short_name")
      && TextAt(record, "route_long_name") == Get(row, "route_long_name")
  {
  }

  lemma JoinedColumns(archive: Archive, i: nat, j: nat, k: nat, stops: set<string>, row: Timetable.Row)
    requires StopTimes in archive && LastOfKey(StopTimes, archive[StopTimes].rows, i)
    requires Trips in archive && LastOfKey(Trips, archive[Trips].rows, j)
    requires Routes in archive && LastOfKey(Routes, archive[Routes].rows, k)
    ensures Joined(RecordOf(StopTimes, archive[StopTimes].rows[i]), RecordOf(Trips, archive[Trips].rows[j]),
                   RecordOf(Routes, archive[Routes].rows[k]), stops, row)
            <==> ArchiveJoins(archive, i, j, k, stops, row)
  {
    TimeColumns(archive[StopTimes].rows[i]);
    TripColumns(archive[Trips].rows[j]);
    RouteColumns(archive[Routes].rows[k]);
  }

  /** The rows that a stop's query sees after an import are exactly the joins of the archive's last rows. */
  lemma ImportedRows(hash: string -> int, parseFloat: string -> Option<real>, before: Tables, archive: Archive,
      log: (string, string), t: Tables, stops: set<string>, rows: seq<Timetable.Row>, row: Timetable.Row)
    requires Committed(hash, parseFloat, before, archive, log, t) && LoadedRows(t, stops, rows)
    ensures row in rows <==> exists i, j, k :: ArchiveJoins(archive, i, j, k, stops, row)
  {
    if row in rows {
      var time, trip, route :| IsRecord(t, StopTimes, time) && IsRecord(t, Trips, trip) && IsRecord(t, Routes, route)
                               && Joined(time, trip, route, stops, row);
      ImportedRecords(hash, parseFloat, before, archive, log, StopTimes, time);
      ImportedRecords(hash, parseFloat, before, archive, log, Trips, trip);
      ImportedRecords(hash, parseFloat, before, archive, log, Routes, route);
      var i :| Stores(archive, StopTimes, i, time);
      var j :| Stores(archive, Trips, j, trip);
      var k :| Stores(archive, Routes, k, route);
      JoinedColumns(archive, i, j, k, stops, row);
      assert ArchiveJoins(archive, i, j, k, stops, row);
    }
    if exists i, j, k :: ArchiveJoins(archive, i, j, k, stops, row) {
      var i, j, k :| ArchiveJoins(archive, i, j, k, stops, row);
      JoinIsLoaded(hash, parseFloat, before, archive, log, t, stops, rows, row, i, j, k);
    }
  }

  lemma JoinIsLoaded(hash: string -> int, parseFloat: string -> Option<real>, before: Tables, archive: Archive,
      log: (string, string), t: Tables, stops: set<string>, rows: seq<Timetable.Row>, row: Timetable.Row,
      i: nat, j: nat, k: nat)
    requires Committed(hash, parseFloat, before, archive, log, t) && LoadedRows(t, stops, rows)
    requires ArchiveJoins(archive, i, j, k, stops, row)
    ensures row in rows
  {
    var time := RecordOf(StopTimes, archive[StopTimes].rows[i]);
    var trip, route := RecordOf(Trips, archive[Trips].rows[j]), RecordOf(Routes, archive[Routes].rows[k]);
    assert Stores(archive, StopTimes, i, time) && Stores(archive, Trips, j, trip) && Stores(archive, Routes, k, route);
    ImportedRecords(hash, parseFloat, before, archive, log, StopTimes, time);
    ImportedRecords(hash, parseFloat, before, archive, log, Trips, trip);
    ImportedRecords(hash, parseFloat, before, archive, log, Routes, route);
    JoinedColumns(archive, i, j, k, stops, row);
  }

  // ----- from the archive to the answer -----

  /** The tables as the departure query of some stops reads them. */
  ghost predicate LoadedQuery(t: Tables, stops: set<string>, q: Query) {
    LoadedCalendars(t, q.calendars) && LoadedExceptions(t, q.exceptionRows) && LoadedRows(t, stops, q.rows)
  }

  ghost predicate ArchiveHasRow(archive: Archive, stops: set<string>, row: Timetable.Row) {
    exists i, j, k :: ArchiveJoins(archive, i, j, k, stops, row)
  }

  /** The query sees the rows and services of the archive. */
  ghost predicate Sees(archive: Archive, stops: set<string>, q: Query) {
    && (forall row :: row in q.rows <==> ArchiveHasRow(archive, stops, row))
    && (forall id, weekday, dateKey ::
          InService(q.calendars, q.exceptionRows, id, weekday, dateKey) <==> ArchiveRuns(archive, id, weekday, dateKey))
  }

  /** After an import, a stop's query sees exactly what the last rows of the archive say. */
  lemma ImportedQuerySees(hash: string -> int, parseFloat: string -> Option<real>, before: Tables, archive: Archive,
      log: (string, string), t: Tables, stops: set<string>, q: Query)
    requires Committed(hash, parseFloat, before, archive, log, t) && LoadedQuery(t, stops, q)
    ensures Sees(archive, stops, q)
  {
    forall row ensures row in q.rows <==> ArchiveHasRow(archive, stops, row) {
      ImportedRows(hash, parseFloat, before, archive, log, t, stops, q.rows, row);
    }
    forall id, weekday, dateKey
      ensures InService(q.calendars, q.exceptionRows, id, weekday, dateKey) <==>
              ArchiveRuns(archive, id, weekday, dateKey)
    {
      ImportedService(hash, parseFloat, before, archive, log, t, q.calendars, q.exceptionRows, id, weekday, dateKey);
    }
  }

  /** No departure of an imported timetable is left out because its time cannot be read. */
  lemma ImportedTimesParse(hash: string -> int, parseFloat: string -> Option<real>, before: Tables, archive: Archive,
      log: (string, string), t: Tables, stops: set<string>, row: Timetable.Row)
    requires Committed(hash, parseFloat, before, archive, log, t) && ArchiveHasRow(archive, stops, row)
    ensures ParseOffset(row.departure).Some?
  {
    var i, j, k :| ArchiveJoins(archive, i, j, k, stops, row);
    AcceptedArchives(hash, parseFloat, before, archive, log);
    assert FileAccepted(parseFloat, archive, StopTimes);
    assert WellFormed(parseFloat, StopTimes, archive[StopTimes].rows[i]);
    NoTimeIsGood();
  }

  /** The archive has this departure, within 24 hours of `at`. */
  ghost predicate ArchiveDeparts(archive: Archive, stops: set<string>, q: Query, at: int, d: Departure) {
    && ArchiveHasRow(archive, stops, d.row) && q.accepts(d.row)
    && ArchiveRuns(archive, d.row.serviceID, q.days.weekday(d.day), q.days.key(d.day))
    && ParseGTFSTime(d.row.departure, q.days.zero(d.day)) == Some(d.when)
    && at <= d.when < at + DAY
  }

  lemma DepartsFromArchive(archive: Archive, stops: set<string>, q: Query, at: int, d: Departure)
    requires Sees(archive, stops, q)
    ensures Departs(q, at, d) <==>
            d.index < |q.rows| && d.row == q.rows[d.index] && ArchiveDeparts(archive, stops, q, at, d)
  {
    if d.index < |q.rows| && d.row == q.rows[d.index] {
      assert d.row in q.rows;
      assert ArchiveHasRow(archive, stops, d.row);
      RunsInArchive(archive, stops, q, d);
    }
  }

  lemma RunsInArchive(archive: Archive, stops: set<string>, q: Query, d: Departure)
    requires Sees(archive, stops, q)
    ensures InService(q.calendars, q.exceptionRows, d.row.serviceID, q.days.weekday(d.day), q.days.key(d.day)) <==>
            ArchiveRuns(archive, d.row.serviceID, q.days.weekday(d.day), q.days.key(d.day))
  {
  }

  predicate SameDeparture(x: Departure, y: Departure) {
    x.day == y.day && x.row == y.row && x.when == y.when
  }

  /** A departure of the archive is one of the query, under the index of its row. */
  lemma NamedDeparture(archive: Archive, stops: set<string>, q: Query, at: int, d: Departure)
    returns (found: Departure)
    requires Sees(archive, stops, q) && ArchiveDeparts(archive, stops, q, at, d)
    ensures SameDeparture(found, d) && Departs(q, at, found)
  {
    assert d.row in q.rows;
    var i :| 0 <= i < |q.rows| && q.rows[i] == d.row;
    found := d.(index := i);
    DepartsFromArchive(archive, stops, q, at, found);
  }

  /** Either the answer has the departure, or it is full and has none later. */
  ghost predicate Answered(results: seq<Departure>, limit: nat, d: Departure) {
    || (exists x :: x in results && SameDeparture(x, d))
    || (|results| == limit && forall x | x in results :: x.when <= d.when)
  }

  /**
   From the archive to the answer: every departure returned after an import is one of the
   archive's, and one that is not returned is no earlier than any of a full answer.
   */
  lemma ScheduledFromArchive(archive: Archive, stops: set<string>, q: Query, today: int, at: int, limit: nat)
    requires Sees(archive, stops, q)
    requires CivilClock(q.days) && OnDay(q.days, today, at) && WindowKeys(q, today)
    requires at + DAY <= q.days.zero(today + 2)
    ensures
      var results := Scheduled(q, today, at, limit);
      && (forall x | x in results :: ArchiveDeparts(archive, stops, q, at, x))
      && (forall d | ArchiveDeparts(archive, stops, q, at, d) :: Answered(results, limit, d))
  {
    var results := Scheduled(q, today, at, limit);
    ScheduledIsEarliest(q, today, at, limit);
    forall x | x in results ensures ArchiveDeparts(archive, stops, q, at, x) {
      DepartsFromArchive(archive, stops, q, at, x);
    }
    forall d | ArchiveDeparts(archive, stops, q, at, d) ensures Answered(results, limit, d) {
      var found := NamedDeparture(archive, stops, q, at, d);
      NamedIsAnswered(q, at, limit, results, found);
      if found !in results {
        assert found.when == d.when;
      }
    }
  }

  lemma NamedIsAnswered(q: Query, at: int, limit: nat, results: seq<Departure>, found: Departure)
    requires Earliest(q, at, limit, results) && Departs(q, at, found)
    ensures found in results || (|results| == limit && forall x | x in results :: x.when <= found.when)
  {
    if found !in results {
      forall x | x in results ensures x.when <= found.when {
        var i :| 0 <= i < |results| && results[i] == x;
        assert Before(results[i], found);
      }
    }
  }
}
