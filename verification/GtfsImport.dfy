/** Importing a GTFS archive: all tables are replaced in one transaction, or none is. */
module GtfsImport {
  import opened Wrappers
  import opened Folds
  import opened Text
  import opened GtfsTime
  import opened EntityIndex

  datatype File = Agency | Routes | Stops | Trips | StopTimes | Calendar | CalendarDates | Transfers

  const FILES: seq<File> := [Agency, Routes, Stops, Trips, StopTimes, Calendar, CalendarDates, Transfers]

  /** One CSV record by column name. */
  type Row = map<string, string>

  function Get(row: Row, column: string): string {
    if column in row then row[column] else ""
  }

  function ValueOr(value: string, fallback: string): string {
    if value != "" then value else fallback
  }

  /** optionalInt and intOrZero accept the empty text and whole numbers. */
  predicate OptionalInt(value: string) {
    value == "" || Atoi(value).Some?
  }

  predicate GoodTime(value: string) {
    ParseOffset(ValueOr(value, "00:00:00")).Some?
  }

  /** The checks and the primary key of a row of a file other than stops.txt. */
  function KeyOf(file: File, row: Row): Option<seq<string>> {
    match file
    case Agency => Some([ValueOr(Get(row, "agency_id"), "default")])
    case Routes =>
      if OptionalInt(Get(row, "route_type")) && Get(row, "route_id") != "" then Some([Get(row, "route_id")]) else None
    case Stops => None
    case Trips =>
      if OptionalInt(Get(row, "direction_id")) && Get(row, "trip_id") != "" && Get(row, "route_id") != ""
          && Get(row, "service_id") != ""
      then Some([Get(row, "trip_id")]) else None
    case StopTimes =>
      var arrival, departure := Get(row, "arrival_time"), Get(row, "departure_time");
      var sequence := Atoi(Get(row, "stop_sequence"));
      if GoodTime(ValueOr(arrival, departure)) && GoodTime(ValueOr(departure, arrival)) && sequence.Some?
         && Get(row, "trip_id") != "" && Get(row, "stop_id") != ""
      then Some([Get(row, "trip_id"), Itoa(sequence.value)]) else None
    case Calendar =>
      if (forall day | day in {"monday", "tuesday", "wednesday", "thursday", "friday", "saturday", "sunday"} ::
          OptionalInt(Get(row, day)))
         && Get(row, "service_id") != ""
      then Some([Get(row, "service_id")]) else None
    case CalendarDates =>
      if Atoi(ValueOr(Get(row, "exception_type"), "1")).Some? && Get(row, "service_id") != "" && Get(row, "date") != ""
      then Some([Get(row, "service_id"), Get(row, "date")]) else None
    case Transfers =>
      if OptionalInt(Get(row, "transfer_type")) && OptionalInt(Get(row, "min_transfer_time"))
         && Get(row, "from_stop_id") != "" && Get(row, "to_stop_id") != ""
      then Some([Get(row, "from_stop_id"), Get(row, "to_stop_id")]) else None
  }

  // ----- which rows are accepted, column by column -----

  /** The columns that must not be empty. */
  function NeededColumns(file: File): set<string> {
    match file
    case Agency => {}
    case Routes => {"route_id"}
    case Stops => {"stop_id", "stop_name"}
    case Trips => {"trip_id", "route_id", "service_id"}
    case StopTimes => {"trip_id", "stop_id", "stop_sequence"}
    case Calendar => {"service_id"}
    case CalendarDates => {"service_id", "date"}
    case Transfers => {"from_stop_id", "to_stop_id"}
  }

  /** The columns that hold a whole number unless they are empty. */
  function WholeColumns(file: File): set<string> {
    match file
    case Agency => {}
    case Routes => {"route_type"}
    case Stops => {"location_type", "wheelchair_boarding"}
    case Trips => {"direction_id"}
    case StopTimes => {"stop_sequence"}
    case Calendar => {"monday", "tuesday", "wednesday", "thursday", "friday", "saturday", "sunday"}
    case CalendarDates => {"exception_type"}
    case Transfers => {"transfer_type", "min_transfer_time"}
  }

  /** A coordinate column is empty, which stands for zero, or a number within its bound. */
  predicate GoodCoordinate(parseFloat: string -> Option<real>, text: string, bound: real) {
    text == "" || (parseFloat(text).Some? && -bound <= parseFloat(text).value <= bound)
  }

  predicate TimeOrEmpty(text: string) {
    text == "" || ParseOffset(text).Some?
  }

  /** The row meets every demand on its columns. */
  ghost predicate WellFormed(parseFloat: string -> Option<real>, file: File, row: Row) {
    && (forall column | column in NeededColumns(file) :: Get(row, column) != "")
    && (forall column | column in WholeColumns(file) :: Get(row, column) == "" || Atoi(Get(row, column)).Some?)
    && (file == StopTimes ==> TimeOrEmpty(Get(row, "arrival_time")) && TimeOrEmpty(Get(row, "departure_time")))
    && (file == Stops ==>
          && GoodCoordinate(parseFloat, Get(row, "stop_lat"), 90.0)
          && GoodCoordinate(parseFloat, Get(row, "stop_lon"), 180.0))
  }

  /** Two rows of a file have the same primary key. */
  predicate SameKey(file: File, a: Row, b: Row) {
    match file
    case Agency => ValueOr(Get(a, "agency_id"), "default") == ValueOr(Get(b, "agency_id"), "default")
    case Routes => Get(a, "route_id") == Get(b, "route_id")
    case Stops => Get(a, "stop_id") == Get(b, "stop_id")
    case Trips => Get(a, "trip_id") == Get(b, "trip_id")
    case StopTimes =>
      Get(a, "trip_id") == Get(b, "trip_id") && Atoi(Get(a, "stop_sequence")) == Atoi(Get(b, "stop_sequence"))
    case Calendar => Get(a, "service_id") == Get(b, "service_id")
    case CalendarDates => Get(a, "service_id") == Get(b, "service_id") && Get(a, "date") == Get(b, "date")
    case Transfers =>
      Get(a, "from_stop_id") == Get(b, "from_stop_id") && Get(a, "to_stop_id") == Get(b, "to_stop_id")
  }

  // ----- what is stored -----

  /** A column value of the database. */
  datatype Value = Null | Text(text: string) | Integer(number: int)

  type Record = map<string, Value>

  /** nullText */
  function NullText(value: string): Value {
    if value == "" then Null else Text(value)
  }

  /** optionalInt of an accepted column */
  function NullInteger(value: string): Value {
    match Atoi(value)
    case None => Null
    case Some(number) => Integer(number)
  }

  /** intOrZero of an accepted column */
  function IntegerOrZero(value: string): Value {
    match Atoi(value)
    case None => Integer(0)
    case Some(number) => Integer(number)
  }

  /** The columns of the table of a file other than stops.txt. */
  function TableColumns(file: File): set<string> {
    match file
    case Agency => {"agency_id", "agency_name", "agency_url", "agency_timezone"}
    case Routes => {"route_id", "agency_id", "route_short_name", "route_long_name", "route_type", "route_color"}
    case Stops => {}
    case Trips => {"trip_id", "route_id", "service_id", "trip_headsign", "direction_id", "shape_id"}
    case StopTimes => {"trip_id", "arrival_time", "departure_time", "stop_id", "stop_sequence"}
    case Calendar =>
      {"service_id", "monday", "tuesday", "wednesday", "thursday", "friday", "saturday", "sunday", "start_date",
       "end_date"}
    case CalendarDates => {"service_id", "date", "exception_type"}
    case Transfers => {"from_stop_id", "to_stop_id", "transfer_type", "min_transfer_time"}
  }

  /** What the insert statement writes into a column. */
  function Converted(file: File, row: Row, column: string): Value {
    var value := Get(row, column);
    match file
    case Agency =>
      if column == "agency_id" then Text(ValueOr(value, "default"))
      else if column == "agency_name" then Text(value) else NullText(value)
    case Routes =>
      if column == "route_id" then Text(value)
      else if column == "route_type" then NullInteger(value) else NullText(value)
    case Stops => Null
    case Trips =>
      if column in {"trip_id", "route_id", "service_id"} then Text(value)
      else if column == "direction_id" then NullInteger(value) else NullText(value)
    case StopTimes =>
      if column == "arrival_time" then Text(ValueOr(ValueOr(value, Get(row, "departure_time")), "00:00:00"))
      else if column == "departure_time" then Text(ValueOr(ValueOr(value, Get(row, "arrival_time")), "00:00:00"))
      else if column == "stop_sequence" then NullInteger(value) else Text(value)
    case Calendar =>
      if column == "service_id" then Text(value)
      else if column == "start_date" then Text(ValueOr(value, "19700101"))
      else if column == "end_date" then Text(ValueOr(value, "20991231")) else IntegerOrZero(value)
    case CalendarDates =>
      if column == "exception_type" then NullInteger(ValueOr(value, "1")) else Text(value)
    case Transfers =>
      if column in {"from_stop_id", "to_stop_id"} then Text(value) else NullInteger(value)
  }

  function RecordOf(file: File, row: Row): Record {
    map column | column in TableColumns(file) :: Converted(file, row, column)
  }

  /** A text that stands in a column is kept, as a number where the column is one. */
  ghost predicate Kept(file: File, row: Row, column: string) {
    Converted(file, row, column) ==
    if column in WholeColumns(file) then NullInteger(Get(row, column)) else Text(Get(row, column))
  }

  lemma CalendarColumnKept(row: Row, column: string)
    requires column in TableColumns(Calendar) && Get(row, column) != ""
    requires column in WholeColumns(Calendar) ==> Atoi(Get(row, column)).Some?
    ensures Kept(Calendar, row, column)
  {
  }

  lemma OtherColumnKept(file: File, row: Row, column: string)
    requires file != Calendar && file != StopTimes && column in TableColumns(file) && Get(row, column) != ""
    ensures Kept(file, row, column)
  {
  }

  lemma StopTimeColumnKept(row: Row, column: string)
    requires column in TableColumns(StopTimes) && Get(row, column) != ""
    ensures Kept(StopTimes, row, column)
  {
  }

  /** Whatever is written in a column is stored in the column of that name, as a number where the column is one. */
  lemma ColumnsAreKept(parseFloat: string -> Option<real>, file: File, row: Row, column: string)
    requires WellFormed(parseFloat, file, row)
    requires column in RecordOf(file, row) && Get(row, column) != ""
    ensures RecordOf(file, row)[column] ==
            if column in WholeColumns(file) then NullInteger(Get(row, column)) else Text(Get(row, column))
  {
    match file {
      case Calendar => CalendarColumnKept(row, column);
      case StopTimes => StopTimeColumnKept(row, column);
      case _ => OtherColumnKept(file, row, column);
    }
  }

  // ----- stops -----

  datatype Stop = Stop(name: string, latitude: real, longitude: real, parentStation: string)

  const SOURCE := "gtfs_tcl"

  function StopEntityId(id: string): string {
    "gtfs:stop:" + id
  }

  function FloatOrZero(parseFloat: string -> Option<real>, value: string): Option<real> {
    if value == "" then Some(0.0) else parseFloat(value)
  }

  /** The stop that a row of stops.txt describes, unless a field is invalid. */
  function ParseStop(parseFloat: string -> Option<real>, row: Row): Option<(string, Stop)> {
    var latitude, longitude := FloatOrZero(parseFloat, Get(row, "stop_lat")),
        FloatOrZero(parseFloat, Get(row, "stop_lon"));
    if latitude == None || longitude == None || !ValidCoordinates(latitude.value, longitude.value)
        || Get(row, "stop_id") == "" then None
    else if !OptionalInt(Get(row, "location_type")) || !OptionalInt(Get(row, "wheelchair_boarding")) then None
    else Some((Get(row, "stop_id"),
        Stop(Get(row, "stop_name"), latitude.value, longitude.value, Get(row, "parent_station"))))
  }

  function PlaceOf(id: string, stop: Stop): Place {
    Place(StopEntityId(id), stop.name, "transport_stop", stop.latitude, stop.longitude)
  }

  // ----- the tables -----

  /** The entity index, the stop table, the records of the other seven tables by primary key, and the import log. */
  datatype Tables = Tables(index: Index, stops: map<string, Stop>, others: map<(File, seq<string>), Record>,
      imports: seq<(string, string)>)

  /** One row of stops.txt goes to the stop table and to the entity index; a nameless stop is refused. */
  function InsertStop(hash: string -> int, parseFloat: string -> Option<real>, t: Tables, row: Row): Option<Tables> {
    match ParseStop(parseFloat, row)
    case None => None
    case Some((id, stop)) =>
      if Refusal(PlaceOf(id, stop)).Some? then None
      else Some(t.(index := Upserted(hash, t.index, PlaceOf(id, stop), SOURCE, id, []), stops := t.stops[id := stop]))
  }

  function InsertRow(hash: string -> int, parseFloat: string -> Option<real>, t: Tables, file: File,
      row: Row): Option<Tables> {
    if file == Stops then InsertStop(hash, parseFloat, t, row)
    else
      match KeyOf(file, row)
      case None => None
      case Some(key) => Some(t.(others := t.others[(file, key) := RecordOf(file, row)]))
  }

  function RowStep(hash: string -> int, parseFloat: string -> Option<real>,
      file: File): (Tables, Row) -> Option<Tables> {
    (t: Tables, row: Row) => InsertRow(hash, parseFloat, t, file, row)
  }

  /** The tables after the first `n` rows of a file. */
  function InsertRows(hash: string -> int, parseFloat: string -> Option<real>, t: Tables, file: File, rows: seq<Row>,
      n: nat): Option<Tables>
    requires n <= |rows|
  {
    Fold(RowStep(hash, parseFloat, file), t, rows, n)
  }

  /** A file of the archive: the rows up to its end, or up to the fault that stops the reader. */
  datatype Member = Member(rows: seq<Row>, fault: bool)

  type Archive = map<File, Member>

  /** An absent file is skipped. */
  function InsertFile(hash: string -> int, parseFloat: string -> Option<real>, t: Tables, archive: Archive,
      file: File): Option<Tables> {
    if file !in archive then Some(t)
    else if archive[file].fault then None
    else InsertRows(hash, parseFloat, t, file, archive[file].rows, |archive[file].rows|)
  }

  function FileStep(hash: string -> int, parseFloat: string -> Option<real>,
      archive: Archive): (Tables, File) -> Option<Tables> {
    (t: Tables, file: File) => InsertFile(hash, parseFloat, t, archive, file)
  }

  /** The tables after the first `n` of the eight files. */
  function InsertFiles(hash: string -> int, parseFloat: string -> Option<real>, t: Tables, archive: Archive,
      n: nat): Option<Tables>
    requires n <= |FILES|
  {
    Fold(FileStep(hash, parseFloat, archive), t, FILES, n)
  }

  function Cleared(t: Tables): Tables {
    Tables(WithoutSource(t.index, SOURCE), map[], map[], t.imports)
  }

  predicate HasMembers(archive: Archive) {
    && Agency in archive && Routes in archive && Stops in archive && Trips in archive && StopTimes in archive
    && (Calendar in archive || CalendarDates in archive)
  }

  function Count(archive: Archive, file: File): nat {
    if file in archive then |archive[file].rows| else 0
  }

  predicate HasRows(archive: Archive) {
    && Count(archive, Agency) > 0 && Count(archive, Routes) > 0 && Count(archive, Stops) > 0
    && Count(archive, Trips) > 0 && Count(archive, StopTimes) > 0
    && (Count(archive, Calendar) > 0 || Count(archive, CalendarDates) > 0)
  }

  /** The tables that an import of this archive commits, if it commits. */
  function Imported(hash: string -> int, parseFloat: string -> Option<real>, t: Tables, archive: Archive,
      log: (string, string)): Option<Tables> {
    if !HasMembers(archive) then None
    else
      match InsertFiles(hash, parseFloat, Cleared(t), archive, |FILES|)
      case None => None
      case Some(filled) => if HasRows(archive) then Some(filled.(imports := filled.imports + [log])) else None
  }

  // ----- which archives are accepted -----


  ghost predicate FileAccepted(parseFloat: string -> Option<real>, archive: Archive, file: File) {
    file in archive ==>
      !archive[file].fault && forall i | 0 <= i < |archive[file].rows| ::
          WellFormed(parseFloat, file, archive[file].rows[i])
  }

  lemma RowAcceptedOrNot(hash: string -> int, parseFloat: string -> Option<real>, t: Tables, file: File, row: Row)
    ensures InsertRow(hash, parseFloat, t, file, row).Some? <==> WellFormed(parseFloat, file, row)
  {
    if file == Stops {
      StopAcceptedOrNot(parseFloat, row);
      if ParseStop(parseFloat, row).Some? {
        assert StopEntityId(ParseStop(parseFloat, row).value.0)[0] == 'g';
      }
    } else {
      KeyedOrNot(parseFloat, file, row);
    }
  }

  lemma StopAcceptedOrNot(parseFloat: string -> Option<real>, row: Row)
    ensures ParseStop(parseFloat, row).Some? && Get(row, "stop_name") != "" <==> WellFormed(parseFloat, Stops, row)
  {
  }

  /** A row other than a stop gets a key exactly when it is well-formed. */
  lemma KeyedOrNot(parseFloat: string -> Option<real>, file: File, row: Row)
    requires file != Stops
    ensures KeyOf(file, row).Some? <==> WellFormed(parseFloat, file, row)
  {
    match file {
      case StopTimes => StopTimeKeyedOrNot(parseFloat, row);
      case Calendar => CalendarKeyedOrNot(parseFloat, row);
      case CalendarDates => ExceptionKeyedOrNot(parseFloat, row);
      case Trips => TripKeyedOrNot(parseFloat, row);
      case _ =>
    }
  }

  lemma CalendarKeyedOrNot(parseFloat: string -> Option<real>, row: Row)
    ensures KeyOf(Calendar, row).Some? <==> WellFormed(parseFloat, Calendar, row)
  {
  }

  lemma ExceptionKeyedOrNot(parseFloat: string -> Option<real>, row: Row)
    ensures KeyOf(CalendarDates, row).Some? <==> WellFormed(parseFloat, CalendarDates, row)
  {
    assert Atoi("1").Some?;
  }

  lemma TripKeyedOrNot(parseFloat: string -> Option<real>, row: Row)
    ensures KeyOf(Trips, row).Some? <==> WellFormed(parseFloat, Trips, row)
  {
  }

  lemma NoTimeIsGood()
    ensures GoodTime("")
  {
    ParseFormatted(0, 0, 0);
    assert TwoDigits(0) == "00";
    assert FormatOffset(0, 0, 0) == "00:00:00";
  }

  /** Each time may be missing, and the other one then stands for both. */
  lemma TimesAccepted(arrival: string, departure: string)
    ensures GoodTime(ValueOr(arrival, departure)) && GoodTime(ValueOr(departure, arrival)) <==>
            TimeOrEmpty(arrival) && TimeOrEmpty(departure)
  {
    NoTimeIsGood();
  }

  lemma StopTimeDemands(parseFloat: string -> Option<real>, row: Row)
    ensures WellFormed(parseFloat, StopTimes, row) <==>
            && Get(row, "trip_id") != "" && Get(row, "stop_id") != "" && Get(row, "stop_sequence") != ""
            && OptionalInt(Get(row, "stop_sequence"))
            && TimeOrEmpty(Get(row, "arrival_time")) && TimeOrEmpty(Get(row, "departure_time"))
  {
    var needed, whole := NeededColumns(StopTimes), WholeColumns(StopTimes);
    assert "trip_id" in needed && "stop_id" in needed && "stop_sequence" in needed && "stop_sequence" in whole;
  }

  lemma StopTimeKeyedOrNot(parseFloat: string -> Option<real>, row: Row)
    ensures KeyOf(StopTimes, row).Some? <==> WellFormed(parseFloat, StopTimes, row)
  {
    StopTimeDemands(parseFloat, row);
    TimesAccepted(Get(row, "arrival_time"), Get(row, "departure_time"));
    assert Atoi("") == None;
  }

  lemma FileAcceptedOrNot(hash: string -> int, parseFloat: string -> Option<real>, t: Tables, archive: Archive,
      file: File)
    ensures InsertFile(hash, parseFloat, t, archive, file).Some? <==> FileAccepted(parseFloat, archive, file)
  {
    forall u, row ensures RowStep(hash, parseFloat, file)(u, row).Some? <==> WellFormed(parseFloat, file, row) {
      RowAcceptedOrNot(hash, parseFloat, u, file, row);
    }
    if file in archive {
      var rows := archive[file].rows;
      FoldAccepts(RowStep(hash, parseFloat, file), (row: Row) => WellFormed(parseFloat, file, row), t, rows, |rows|);
    }
  }

  lemma FileListed(file: File)
    ensures exists i :: 0 <= i < |FILES| && FILES[i] == file
  {
    assert FILES[0] == Agency && FILES[1] == Routes && FILES[2] == Stops && FILES[3] == Trips;
    assert FILES[4] == StopTimes && FILES[5] == Calendar && FILES[6] == CalendarDates && FILES[7] == Transfers;
  }

  ghost predicate HasARow(archive: Archive, file: File) {
    file in archive && archive[file].rows != []
  }

  /** The five required files have rows, and so has one of the two calendar files. */
  ghost predicate Filled(archive: Archive) {
    && (forall file | file in {Agency, Routes, Stops, Trips, StopTimes} :: HasARow(archive, file))
    && (HasARow(archive, Calendar) || HasARow(archive, CalendarDates))
  }

  lemma FilledHasRows(archive: Archive)
    ensures Filled(archive) <==> HasRows(archive)
  {
    if Filled(archive) {
      assert HasARow(archive, Agency) && HasARow(archive, Routes) && HasARow(archive, Stops);
      assert HasARow(archive, Trips) && HasARow(archive, StopTimes);
    }
  }

  /** An archive is accepted exactly when no file or row is faulty and every required table gets a row;
      what the tables held before plays no part. */
  lemma AcceptedArchives(hash: string -> int, parseFloat: string -> Option<real>, t: Tables, archive: Archive,
      log: (string, string))
    ensures Imported(hash, parseFloat, t, archive, log).Some? <==>
            Filled(archive) && forall file :: FileAccepted(parseFloat, archive, file)
  {
    FilledHasRows(archive);
    var step := FileStep(hash, parseFloat, archive);
    forall u, file ensures step(u, file).Some? <==> FileAccepted(parseFloat, archive, file) {
      FileAcceptedOrNot(hash, parseFloat, u, archive, file);
    }
    FoldAccepts(step, (file: File) => FileAccepted(parseFloat, archive, file), Cleared(t), FILES, |FILES|);
    if forall i | 0 <= i < |FILES| :: FileAccepted(parseFloat, archive, FILES[i]) {
      forall file: File ensures FileAccepted(parseFloat, archive, file) {
        FileListed(file);
      }
    }
  }

  // ----- stops and entities after an import -----

  /** The entity that the index holds for a stop. */
  ghost predicate StopIndexed(t: Tables, id: string)
    requires id in t.stops
  {
    && StopEntityId(id) in t.index.entities
    && t.index.entities[StopEntityId(id)] == EntityOf(PlaceOf(id, t.stops[id]), SOURCE, id)
  }

  ghost predicate IsStopEntity(t: Tables, logicalId: string) {
    exists id :: id in t.stops && logicalId == StopEntityId(id)
  }

  /** The entities of the timetable source are exactly those of the stop table, field by field. */
  ghost predicate StopsMatch(t: Tables) {
    && (forall id | id in t.stops :: StopIndexed(t, id))
    && (forall logicalId | FromSource(t.index, SOURCE, logicalId) :: IsStopEntity(t, logicalId))
  }

  lemma StopIdsApart(a: string, b: string)
    requires StopEntityId(a) == StopEntityId(b)
    ensures a == b
  {
    assert StopEntityId(a)[10..] == a && StopEntityId(b)[10..] == b;
  }

  lemma InsertStopMatches(hash: string -> int, parseFloat: string -> Option<real>, t: Tables, row: Row)
    requires StopsMatch(t) && InsertStop(hash, parseFloat, t, row).Some?
    ensures StopsMatch(InsertStop(hash, parseFloat, t, row).value)
  {
    var after := InsertStop(hash, parseFloat, t, row).value;
    var (id, stop) := ParseStop(parseFloat, row).value;
    forall other | other in after.stops ensures StopIndexed(after, other) {
      if other != id {
        assert StopIndexed(t, other);
        if StopEntityId(other) == StopEntityId(id) {
          StopIdsApart(other, id);
        }
      }
    }
    forall logicalId | FromSource(after.index, SOURCE, logicalId) ensures IsStopEntity(after, logicalId) {
      if logicalId == StopEntityId(id) {
        assert id in after.stops;
      } else {
        assert IsStopEntity(t, logicalId);
        var other :| other in t.stops && logicalId == StopEntityId(other);
        assert other in after.stops;
      }
    }
  }

  /** What an import leaves alone: all rows about entities of other sources whose ids are no stop ids. */
  ghost predicate OthersKept(hash: string -> int, before: Index, after: Tables) {
    forall logicalId | IsOther(before, logicalId) && !IsStopEntity(after, logicalId) ::
      SameAbout(before, after.index, hash, logicalId)
  }

  predicate IsOther(ix: Index, logicalId: string) {
    logicalId in ix.entities && ix.entities[logicalId].source != SOURCE
  }

  /** What holds of the index at every moment of an import that started from the index `first`. */
  ghost predicate Good(hash: string -> int, first: Index, t: Tables) {
    StopsMatch(t) && OthersKept(hash, first, t) && Consistent(hash, t.index)
  }

  lemma InsertStopKeepsOthers(hash: string -> int, parseFloat: string -> Option<real>, first: Index, t: Tables,
      row: Row)
    requires Injective(hash) && OthersKept(hash, first, t) && InsertStop(hash, parseFloat, t, row).Some?
    ensures OthersKept(hash, first, InsertStop(hash, parseFloat, t, row).value)
  {
    var after := InsertStop(hash, parseFloat, t, row).value;
    var (id, stop) := ParseStop(parseFloat, row).value;
    assert id in after.stops && forall other | other in t.stops :: other in after.stops;
    forall logicalId | IsOther(first, logicalId) && !IsStopEntity(after, logicalId)
      ensures SameAbout(first, after.index, hash, logicalId)
    {
      UpsertLeavesOthers(hash, t.index, PlaceOf(id, stop), SOURCE, id, [], logicalId);
      SameAboutTransitive(hash, first, t.index, after.index, logicalId);
    }
  }

  lemma InsertStopGood(hash: string -> int, parseFloat: string -> Option<real>, first: Index, t: Tables, row: Row)
    requires Injective(hash) && Good(hash, first, t) && InsertStop(hash, parseFloat, t, row).Some?
    ensures Good(hash, first, InsertStop(hash, parseFloat, t, row).value)
  {
    var (id, stop) := ParseStop(parseFloat, row).value;
    InsertStopMatches(hash, parseFloat, t, row);
    UpsertConsistent(hash, t.index, PlaceOf(id, stop), SOURCE, id, []);
    InsertStopKeepsOthers(hash, parseFloat, first, t, row);
  }

  lemma GoodWithOthers(hash: string -> int, first: Index, t: Tables, after: Tables)
    requires Good(hash, first, t) && after.index == t.index && after.stops == t.stops
    ensures Good(hash, first, after)
  {
    forall id | id in after.stops ensures StopIndexed(after, id) {
      assert StopIndexed(t, id);
    }
    forall logicalId ensures IsStopEntity(t, logicalId) <==> IsStopEntity(after, logicalId) {
    }
  }

  lemma InsertRowGood(hash: string -> int, parseFloat: string -> Option<real>, first: Index, t: Tables, file: File,
      row: Row)
    requires Injective(hash) && Good(hash, first, t) && InsertRow(hash, parseFloat, t, file, row).Some?
    ensures Good(hash, first, InsertRow(hash, parseFloat, t, file, row).value)
  {
    if file == Stops {
      InsertStopGood(hash, parseFloat, first, t, row);
    } else {
      GoodWithOthers(hash, first, t, InsertRow(hash, parseFloat, t, file, row).value);
    }
  }

  lemma InsertFileGood(hash: string -> int, parseFloat: string -> Option<real>, first: Index, t: Tables,
      archive: Archive, file: File)
    requires Injective(hash) && Good(hash, first, t) && InsertFile(hash, parseFloat, t, archive, file).Some?
    ensures Good(hash, first, InsertFile(hash, parseFloat, t, archive, file).value)
  {
    if file in archive {
      var step, rows := RowStep(hash, parseFloat, file), archive[file].rows;
      forall u, row | Good(hash, first, u) && step(u, row).Some? ensures Good(hash, first, step(u, row).value) {
        InsertRowGood(hash, parseFloat, first, u, file, row);
      }
      FoldKeeps(step, (u: Tables) => Good(hash, first, u), t, rows, |rows|);
    }
  }

  lemma ClearingKeepsOthers(hash: string -> int, t: Tables)
    ensures OthersKept(hash, t.index, Cleared(t))
  {
    forall logicalId | IsOther(t.index, logicalId) ensures SameAbout(t.index, Cleared(t).index, hash, logicalId) {
      DeleteLeavesOthers(hash, t.index, SOURCE, logicalId);
    }
  }

  /** A committed import leaves the timetable's entities in one-to-one correspondence with the stop table,
      the index consistent, and all rows about other sources' entities as they were. */
  lemma ImportMatches(hash: string -> int, parseFloat: string -> Option<real>, t: Tables, archive: Archive,
      log: (string, string))
    requires Injective(hash) && Consistent(hash, t.index) && Imported(hash, parseFloat, t, archive, log).Some?
    ensures
      var after := Imported(hash, parseFloat, t, archive, log).value;
      && StopsMatch(after) && OthersKept(hash, t.index, after) && Consistent(hash, after.index)
  {
    var cleared := Cleared(t);
    DeleteConsistent(hash, t.index, SOURCE);
    ClearingKeepsOthers(hash, t);
    assert Good(hash, t.index, cleared);
    var step, first := FileStep(hash, parseFloat, archive), t.index;
    forall u, file | Good(hash, first, u) && step(u, file).Some? ensures Good(hash, first, step(u, file).value) {
      InsertFileGood(hash, parseFloat, first, u, archive, file);
    }
    FoldKeeps(step, (u: Tables) => Good(hash, first, u), cleared, FILES, |FILES|);
    GoodWithOthers(hash, t.index, InsertFiles(hash, parseFloat, cleared, archive, |FILES|).value,
                   Imported(hash, parseFloat, t, archive, log).value);
  }

  // ----- which row a table keeps -----

  /** The key under which a row is stored, stops included. */
  function StoredKey(parseFloat: string -> Option<real>, file: File, row: Row): Option<seq<string>> {
    if file != Stops then KeyOf(file, row)
    else
      match ParseStop(parseFloat, row)
      case None => None
      case Some((id, stop)) => Some([id])
  }

  /** What the table of a file holds under a key: a stop or a row. */
  datatype Stored = AStop(stop: Stop) | ARecord(record: Record)

  function At(t: Tables, file: File, key: seq<string>): Option<Stored> {
    if file == Stops then
      if |key| == 1 && key[0] in t.stops then Some(AStop(t.stops[key[0]])) else None
    else
      if (file, key) in t.others then Some(ARecord(t.others[(file, key)])) else None
  }

  function StoredForm(parseFloat: string -> Option<real>, file: File, row: Row): Option<Stored> {
    if file != Stops then Some(ARecord(RecordOf(file, row)))
    else
      match ParseStop(parseFloat, row)
      case None => None
      case Some((id, stop)) => Some(AStop(stop))
  }

  /** A row replaces what its table held under its key, and touches no other key and no other table. */
  lemma InsertRowAt(hash: string -> int, parseFloat: string -> Option<real>, t: Tables, file: File, row: Row,
      other: File, key: seq<string>)
    requires InsertRow(hash, parseFloat, t, file, row).Some?
    ensures At(InsertRow(hash, parseFloat, t, file, row).value, other, key)
         == if other == file && StoredKey(parseFloat, file, row) == Some(key) then StoredForm(parseFloat, file, row)
             else At(t, other, key)
  {
    if file == Stops {
      var (id, stop) := ParseStop(parseFloat, row).value;
      assert |key| == 1 ==> key == [key[0]];
    } else {
      InsertRecordAt(t, file, KeyOf(file, row).value, RecordOf(file, row), other, key);
    }
  }

  lemma InsertRecordAt(t: Tables, file: File, stored: seq<string>, record: Record, other: File, key: seq<string>)
    requires file != Stops
    ensures At(t.(others := t.others[(file, stored) := record]), other, key)
         == if other == file && key == stored then Some(ARecord(record)) else At(t, other, key)
  {
  }

  function Observed(file: File, key: seq<string>): Tables -> Option<Stored> {
    (t: Tables) => At(t, file, key)
  }

  function Form(parseFloat: string -> Option<real>, file: File): Row -> Option<Stored> {
    (row: Row) => StoredForm(parseFloat, file, row)
  }

  /** Which rows go to key `key` of the table of `other`. */
  function Hit(parseFloat: string -> Option<real>, file: File, other: File, key: seq<string>): Row -> bool {
    (row: Row) => other == file && StoredKey(parseFloat, file, row) == Some(key)
  }

  lemma RowStepShows(hash: string -> int, parseFloat: string -> Option<real>, file: File, other: File, key: seq<string>)
    ensures
      var step, at := RowStep(hash, parseFloat, file), Observed(other, key);
      forall u, row | step(u, row).Some? ::
        at(step(u, row).value) == if Hit(parseFloat, file, other, key)(row) then Form(parseFloat, file)(row) else at(u)
  {
    var step := RowStep(hash, parseFloat, file);
    forall u, row | step(u, row).Some?
      ensures Observed(other, key)(step(u, row).value)
           == if Hit(parseFloat, file, other, key)(row) then Form(parseFloat, file)(row) else Observed(other, key)(u)
    {
      InsertRowAt(hash, parseFloat, u, file, row, other, key);
    }
  }

  /** Position of the last row that has this key. */
  function LastRow(parseFloat: string -> Option<real>, file: File, rows: seq<Row>, key: seq<string>): (r: Option<nat>)
    ensures r.Some? ==> r.value < |rows| && StoredKey(parseFloat, file, rows[r.value]) == Some(key)
    ensures forall j | (if r.Some? then r.value + 1 else 0) <= j < |rows| ::
        StoredKey(parseFloat, file, rows[j]) != Some(key)
  {
    LastHit(Hit(parseFloat, file, file, key), rows, |rows|)
  }

  /** After a file, each key of its table holds the last row of that key, or what was there when no row has it;
      the other tables are as they were. */
  lemma LastRowWins(hash: string -> int, parseFloat: string -> Option<real>, t: Tables, file: File, rows: seq<Row>,
      other: File, key: seq<string>)
    requires InsertRows(hash, parseFloat, t, file, rows, |rows|).Some?
    ensures
      var last := LastRow(parseFloat, file, rows, key);
      At(InsertRows(hash, parseFloat, t, file, rows, |rows|).value, other, key)
      == if other == file && last.Some? then StoredForm(parseFloat, file, rows[last.value]) else At(t, other, key)
  {
    RowStepShows(hash, parseFloat, file, other, key);
    FoldShowsLast(RowStep(hash, parseFloat, file), Observed(other, key), Hit(parseFloat, file, other, key),
        Form(parseFloat, file), t, rows, |rows|);
  }

  /** What an accepted archive puts under a key. */
  ghost function Latest(parseFloat: string -> Option<real>, archive: Archive, file: File,
      key: seq<string>): Option<Stored> {
    if file !in archive then None
    else
      var rows := archive[file].rows;
      var last := LastRow(parseFloat, file, rows, key);
      if last.None? then None else StoredForm(parseFloat, file, rows[last.value])
  }

  lemma FilesDistinct(i: nat, j: nat)
    requires i < j < |FILES|
    ensures FILES[i] != FILES[j]
  {
  }

  lemma {:induction false} FilesLatest(hash: string -> int, parseFloat: string -> Option<real>, t: Tables,
      archive: Archive, n: nat, i: nat, key: seq<string>)
    requires i < |FILES| && n <= |FILES| && InsertFiles(hash, parseFloat, t, archive, n).Some?
    requires At(t, FILES[i], key) == None
    ensures At(InsertFiles(hash, parseFloat, t, archive, n).value, FILES[i], key)
         == if i < n then Latest(parseFloat, archive, FILES[i], key) else None
  {
    if n > 0 {
      FilesLatest(hash, parseFloat, t, archive, n - 1, i, key);
      var file := FILES[n - 1];
      if i < n - 1 {
        FilesDistinct(i, n - 1);
      } else if n - 1 < i {
        FilesDistinct(n - 1, i);
      }
      if file in archive {
        var rows := archive[file].rows;
        LastRowWins(hash, parseFloat, InsertFiles(hash, parseFloat, t, archive, n - 1).value, file, rows, FILES[i],
            key);
      }
    }
  }

  lemma ImportHoldsKey(hash: string -> int, parseFloat: string -> Option<real>, t: Tables, archive: Archive,
      log: (string, string), file: File, key: seq<string>)
    requires Imported(hash, parseFloat, t, archive, log).Some?
    ensures At(Imported(hash, parseFloat, t, archive, log).value, file, key) == Latest(parseFloat, archive, file, key)
  {
    FileListed(file);
    var i :| 0 <= i < |FILES| && FILES[i] == file;
    FilesLatest(hash, parseFloat, Cleared(t), archive, |FILES|, i, key);
    var filled := InsertFiles(hash, parseFloat, Cleared(t), archive, |FILES|).value;
    assert At(filled.(imports := filled.imports + [log]), file, key) == At(filled, file, key);
  }

  // ----- the same, column by column -----

  lemma WholeNumbersPrintApart(a: string, b: string)
    requires Atoi(a).Some? && Atoi(b).Some?
    ensures Itoa(Atoi(a).value) == Itoa(Atoi(b).value) <==> Atoi(a) == Atoi(b)
  {
    AtoiItoa(Atoi(a).value);
    AtoiItoa(Atoi(b).value);
  }

  /** Rows are stored under one key exactly when they agree on the columns of the primary key. */
  lemma KeysByColumns(parseFloat: string -> Option<real>, file: File, a: Row, b: Row)
    requires WellFormed(parseFloat, file, a) && WellFormed(parseFloat, file, b)
    ensures StoredKey(parseFloat, file, a).Some?
    ensures StoredKey(parseFloat, file, a) == StoredKey(parseFloat, file, b) <==> SameKey(file, a, b)
  {
    if file == Stops {
      StopAcceptedOrNot(parseFloat, a);
      StopAcceptedOrNot(parseFloat, b);
    } else {
      KeyedOrNot(parseFloat, file, a);
      KeyedOrNot(parseFloat, file, b);
      SameKeyOf(file, a, b);
    }
  }

  lemma SameKeyOf(file: File, a: Row, b: Row)
    requires KeyOf(file, a).Some? && KeyOf(file, b).Some?
    ensures KeyOf(file, a) == KeyOf(file, b) <==> SameKey(file, a, b)
  {
    var k, l := KeyOf(file, a).value, KeyOf(file, b).value;
    assert |k| == |l|;
    assert k == l <==> forall i | 0 <= i < |k| :: k[i] == l[i];
    if file == StopTimes {
      WholeNumbersPrintApart(Get(a, "stop_sequence"), Get(b, "stop_sequence"));
      assert k[0] == Get(a, "trip_id") && l[0] == Get(b, "trip_id");
    }
  }

  /** No later row of the file has the key of row `i`. */
  ghost predicate LastOfKey(file: File, rows: seq<Row>, i: int) {
    0 <= i < |rows| && forall j | i < j < |rows| :: !SameKey(file, rows[i], rows[j])
  }

  /** A row replaces the row of its table with the same key columns, and no other row of that table. */
  lemma RowReplacesItsKey(hash: string -> int, parseFloat: string -> Option<real>, t: Tables, file: File, row: Row,
      held: Row)
    requires WellFormed(parseFloat, file, row) && WellFormed(parseFloat, file, held)
    ensures InsertRow(hash, parseFloat, t, file, row).Some? && StoredKey(parseFloat, file, held).Some?
    ensures
      var key := StoredKey(parseFloat, file, held).value;
      At(InsertRow(hash, parseFloat, t, file, row).value, file, key)
      == if SameKey(file, row, held) then StoredForm(parseFloat, file, row) else At(t, file, key)
  {
    RowAcceptedOrNot(hash, parseFloat, t, file, row);
    KeysByColumns(parseFloat, file, row, held);
    KeysByColumns(parseFloat, file, held, row);
    InsertRowAt(hash, parseFloat, t, file, row, file, StoredKey(parseFloat, file, held).value);
  }

  lemma LastRowIsLastOfKey(parseFloat: string -> Option<real>, archive: Archive, file: File, key: seq<string>, i: nat)
    requires file in archive && FileAccepted(parseFloat, archive, file) && i < |archive[file].rows|
    requires StoredKey(parseFloat, file, archive[file].rows[i]) == Some(key)
    ensures LastOfKey(file, archive[file].rows, i) <==>
            LastRow(parseFloat, file, archive[file].rows, key) == Some(i)
  {
    var rows := archive[file].rows;
    forall j | i < j < |rows|
      ensures SameKey(file, rows[i], rows[j]) <==> StoredKey(parseFloat, file, rows[j]) == Some(key)
    {
      KeysByColumns(parseFloat, file, rows[i], rows[j]);
    }
  }

  /** Row `i` of a file is what the file's table holds under its key. */
  ghost predicate Holds(parseFloat: string -> Option<real>, t: Tables, file: File, key: seq<string>, row: Row) {
    StoredKey(parseFloat, file, row) == Some(key) && At(t, file, key) == StoredForm(parseFloat, file, row)
  }

  /**
   A committed import holds in each of the eight tables exactly the rows of the archive's
   file that no later row of the same key columns replaces, and nothing from before.
   */
  lemma ImportHoldsLatest(hash: string -> int, parseFloat: string -> Option<real>, t: Tables, archive: Archive,
      log: (string, string), file: File)
    requires Imported(hash, parseFloat, t, archive, log).Some?
    ensures
      var after := Imported(hash, parseFloat, t, archive, log).value;
      && (file in archive ==> forall i | LastOfKey(file, archive[file].rows, i) ::
            exists key :: Holds(parseFloat, after, file, key, archive[file].rows[i]))
      && (forall key | At(after, file, key).Some? ::
            file in archive && exists i ::
              LastOfKey(file, archive[file].rows, i) && Holds(parseFloat, after, file, key, archive[file].rows[i]))
  {
    AcceptedArchives(hash, parseFloat, t, archive, log);
    assert FileAccepted(parseFloat, archive, file);
    var after := Imported(hash, parseFloat, t, archive, log).value;
    if file in archive {
      forall i | LastOfKey(file, archive[file].rows, i)
        ensures exists key :: Holds(parseFloat, after, file, key, archive[file].rows[i])
      {
        LatestIsHeld(hash, parseFloat, t, archive, log, file, i);
      }
    }
    forall key | At(after, file, key).Some?
      ensures file in archive && exists i ::
                LastOfKey(file, archive[file].rows, i) && Holds(parseFloat, after, file, key, archive[file].rows[i])
    {
      ImportHoldsKey(hash, parseFloat, t, archive, log, file, key);
      var i := LastRow(parseFloat, file, archive[file].rows, key).value;
      LastRowIsLastOfKey(parseFloat, archive, file, key, i);
      assert Holds(parseFloat, after, file, key, archive[file].rows[i]);
    }
  }

  lemma LatestIsHeld(hash: string -> int, parseFloat: string -> Option<real>, t: Tables, archive: Archive,
      log: (string, string), file: File, i: nat)
    requires Imported(hash, parseFloat, t, archive, log).Some?
    requires file in archive && LastOfKey(file, archive[file].rows, i) && FileAccepted(parseFloat, archive, file)
    ensures StoredKey(parseFloat, file, archive[file].rows[i]).Some?
    ensures Holds(parseFloat, Imported(hash, parseFloat, t, archive, log).value, file,
                  StoredKey(parseFloat, file, archive[file].rows[i]).value, archive[file].rows[i])
  {
    var row := archive[file].rows[i];
    KeysByColumns(parseFloat, file, row, row);
    var key := StoredKey(parseFloat, file, row).value;
    LastRowIsLastOfKey(parseFloat, archive, file, key, i);
    ImportHoldsKey(hash, parseFloat, t, archive, log, file, key);
  }

  ghost predicate IsRecord(t: Tables, file: File, record: Record) {
    exists key :: (file, key) in t.others && t.others[(file, key)] == record
  }

  /** Row `i` of a file of the archive counts, and is stored as `record`. */
  ghost predicate Stores(archive: Archive, file: File, i: int, record: Record) {
    file in archive && LastOfKey(file, archive[file].rows, i) && record == RecordOf(file, archive[file].rows[i])
  }

  lemma HeldRecord(parseFloat: string -> Option<real>, t: Tables, file: File, key: seq<string>, row: Row)
    requires file != Stops && Holds(parseFloat, t, file, key, row)
    ensures (file, key) in t.others && t.others[(file, key)] == RecordOf(file, row)
  {
    var record := RecordOf(file, row);
    assert StoredForm(parseFloat, file, row) == Some(ARecord(record));
  }

  lemma RecordIsStored(hash: string -> int, parseFloat: string -> Option<real>, t: Tables, archive: Archive,
      log: (string, string), file: File, key: seq<string>)
    requires Imported(hash, parseFloat, t, archive, log).Some? && file != Stops
    requires (file, key) in Imported(hash, parseFloat, t, archive, log).value.others
    ensures exists i :: Stores(archive, file, i, Imported(hash, parseFloat, t, archive, log).value.others[(file, key)])
  {
    var after := Imported(hash, parseFloat, t, archive, log).value;
    ImportHoldsLatest(hash, parseFloat, t, archive, log, file);
    assert At(after, file, key).Some?;
    var i :| LastOfKey(file, archive[file].rows, i) && Holds(parseFloat, after, file, key, archive[file].rows[i]);
    HeldRecord(parseFloat, after, file, key, archive[file].rows[i]);
    assert Stores(archive, file, i, after.others[(file, key)]);
  }

  /** The records of a table other than that of stops are those of the archive's last rows. */
  lemma ImportedRecords(hash: string -> int, parseFloat: string -> Option<real>, t: Tables, archive: Archive,
      log: (string, string), file: File, record: Record)
    requires Imported(hash, parseFloat, t, archive, log).Some? && file != Stops
    ensures IsRecord(Imported(hash, parseFloat, t, archive, log).value, file, record) <==>
            exists i :: Stores(archive, file, i, record)
  {
    var after := Imported(hash, parseFloat, t, archive, log).value;
    if IsRecord(after, file, record) {
      var key :| (file, key) in after.others && after.others[(file, key)] == record;
      RecordIsStored(hash, parseFloat, t, archive, log, file, key);
    }
    if exists i :: Stores(archive, file, i, record) {
      var i :| Stores(archive, file, i, record);
      ImportHoldsLatest(hash, parseFloat, t, archive, log, file);
      var key :| Holds(parseFloat, after, file, key, archive[file].rows[i]);
      HeldRecord(parseFloat, after, file, key, archive[file].rows[i]);
    }
  }

  /** An empty coordinate counts as zero. */
  function Coordinate(parseFloat: string -> Option<real>, text: string): Option<real> {
    if text == "" then Some(0.0) else parseFloat(text)
  }

  /**
   The last row of a stop gives its name and place to the stop table, to the entity under
   the prefixed id, to the entity's text row and to its box.
   */
  lemma ImportedStop(hash: string -> int, parseFloat: string -> Option<real>, t: Tables, archive: Archive,
      log: (string, string), i: nat)
    requires Injective(hash) && Consistent(hash, t.index) && Imported(hash, parseFloat, t, archive, log).Some?
    requires Stops in archive && LastOfKey(Stops, archive[Stops].rows, i)
    ensures
      var after, row := Imported(hash, parseFloat, t, archive, log).value, archive[Stops].rows[i];
      var id, name := Get(row, "stop_id"), Get(row, "stop_name");
      var latitude := Coordinate(parseFloat, Get(row, "stop_lat"));
      var longitude := Coordinate(parseFloat, Get(row, "stop_lon"));
      && latitude.Some? && longitude.Some? && id in after.stops
      && after.stops[id] == Stop(name, latitude.value, longitude.value, Get(row, "parent_station"))
      && "gtfs:stop:" + id in after.index.entities
      && after.index.entities["gtfs:stop:" + id]
         == Entity("gtfs_tcl", id, "transport_stop", name, latitude.value, longitude.value)
  {
    AcceptedArchives(hash, parseFloat, t, archive, log);
    assert FileAccepted(parseFloat, archive, Stops);
    LatestIsHeld(hash, parseFloat, t, archive, log, Stops, i);
    ImportMatches(hash, parseFloat, t, archive, log);
    var after := Imported(hash, parseFloat, t, archive, log).value;
    assert StopIndexed(after, Get(archive[Stops].rows[i], "stop_id"));
  }
}
