# Grand Lyon MCP: a verified model

This project models, in Dafny, the parts of the Grand Lyon MCP server that hold most of
its state and arithmetic, and proves what they guarantee. Each module follows one part of
the program; objects that the program updates in place are classes and arrays here, and
each of their methods is proved against a function or relation whose own properties are
then proved for all inputs or all runs.

| module | part of the program |
|---|---|
| SingleFlight, FlightClient, FlightKeys | shared HTTP reads: a transition system over all interleavings, the mutable flight table that implements its steps, and the keys under which reads are shared |
| Paging | bounded paging with removal of repeated rows |
| GtfsTime, Timetable, Coverage | GTFS times and service days, theoretical departures, the coverage report |
| EntityIndex, GtfsImport, GtfsStore, ImportedTimetable | the entity tables, the all-or-nothing GTFS import, and what the departure query sees after it |
| Secrets | the secrets file as a printer and a parser |
| Settings, Migration, Preservation, PathPreservation | layered settings in their directories, their migration, and what it preserves |
| Json, Briefing, Agreement, Snapshots | the difference between briefings, the snapshot store, and the agreement of their two canonical forms |
| CacheRetention | pruning of the HTTP cache |
| StationPairs, TripChoice, TripScore | the Vélo'v pair search, constraints, ranking and recommendation of trips |
| Wrappers, Text, Sorting, StringSorting, Rows, Folds | shared vocabulary: options, strings, stable sorting, row filters, folds that may fail |

`dafny verify dfyconfig.toml` checks everything.

## How the world appears

Instants, service-day zero points, payloads, page replies, statement failures, clock
readings and interleavings are parameters or arbitrary steps. Go's 64-bit `Atoi`
range is explicit. Distances, coordinates, weights and scores are reals. SHA-based entity
numbers, YAML, JSON and float formats appear as functions about which only the stated laws
are assumed (`Injective`, `Lawful`, `Settled`). `Lawful` speaks only of what the migration
itself writes: printed 64-bit integers, flags, floats that a parse returned, and one-line
texts. How YAML reads any other scalar is arbitrary.

## Where the code and its documentation disagree

The model follows the code.

- README.md:155 and docs/operations.md:48 put settings.yaml above legacy secrets.env
  values; internal/config/config.go:313-481 applies YAML first and the legacy values over it.
- The comment at internal/config/settings.go:68-69 promises that a migration preserves
  effective values. It does exactly under the conditions of `Preservation.Survives` and
  `PathPreservation.DatabaseStays`. It does not for a section that is no mapping
  (`OfflineIsLost`, `DirectoryIsLost`), for a kept number that YAML reads in octal
  (`OctalIsKept`), for the secrets of a directory that other secrets lead to
  (`RedirectedValueAppears`), and for a written-out default database path, which the equality
  test of internal/config/config.go:431 takes for a default (`DatabaseIsLeftBehind`,
  `LegacyPathLooksDefault`).
- A migrated configuration may no longer load: an infinity that the environment hid is
  written into the document (`Preservation.HiddenInfinityStopsLoading`,
  `Preservation.LoadsAfterMigration`).
- The writer of secrets.env accepts values of any length, and its reader fails on a line of
  more than 65,535 bytes (`Secrets.FileRoundTrip`, `Secrets.LongPasswordIsLost`), so a long
  password from the environment ends every later load (`Preservation.LongPasswordStopsLoading`).
- `config explain` (internal/config/settings.go:145) names the secrets.env of the last
  directory as the origin of legacy values; the loader reads that of the first one.
- docs/operations.md:130 says that identical briefing facts create no duplicate snapshot.
  A snapshot also holds the time it is for, which is not a volatile field, so they do for
  another time (`Snapshots.OtherTimeIsStoredAgain`).
- The delete at internal/httpclient/client.go:196 has no identity check, unlike line 207,
  so one key can get two reads (`SingleFlight.GivenUpFlightSplitsItsKey`).
- A read that meets the cap of eight pages, and a budget that ends inside a page, report no
  truncation (`Paging.PageCapIsSilent`, `Paging.NoErrorMeansComplete`).
- The departure query looks at six service days. Next to a 23-hour day that is one too few
  for an hour (`Timetable.SixDaysSuffice`, `Timetable.LastHourBeforeAShortDay`).
- The snapshot store reads numbers as float64, and the comparison keeps their text in lists
  of decoded values. No caller builds such lists, so a skipped snapshot never shows changes
  (`Snapshots.SkippedBriefingIsUnchanged`); with them it could
  (`Snapshots.SkippedMeansUnchanged`, `Snapshots.LargeNumberLooksChanged`).
- Stored times are compared as text, and a fraction of a second sorts before the same
  second without one, so history order is chronological only for timely runs
  (`Snapshots.FractionSortsFirst`, `Snapshots.UntimelyPruneLosesTheLatest`).
- Exception dates are not checked for length on import; the coverage report is exact for
  eight characters (`Coverage.ActiveIsRunning`, `Coverage.LongDateInventsAService`).
- Briefing items of departures and journeys are keyed by fields joined with a bar, which the
  fields may contain, so different items can merge (`Briefing.BarMergesDepartures`).
- Flight keys join their fields with a bar, which the user name may contain
  (`FlightKeys.KeySeparation`).

## Model

| member | source | states |
|---|---|---|
| SingleFlight.StepKeepsInv | internal/httpclient/client.go:174-211 | every step of any caller, runner or download keeps the invariant: waiters are counted by the attached callers, registered flights are unfinished and waited for, callers agree with their flight, permits are held by running reads and downloads |
| SingleFlight.RunKeepsInv | internal/httpclient/client.go:137-211 | the invariant holds in every state of every run, whatever the interleaving |
| SingleFlight.EveryRunIsCounted | internal/httpclient/client.go:174-211 | in every reachable state a flight's waiter count is the number of callers that joined and have not left, its done channel was closed at most once, every registered flight is unfinished and waited for, and permit holders and downloads together stay within max(1, MaxParallel) |
| SingleFlight.CancellationNeedsNoWaiter | internal/httpclient/client.go:198-209 | while a caller is attached to an unfinished flight, the client has not cancelled that flight |
| SingleFlight.ZeroStays | internal/httpclient/client.go:177-180 | a waiter count that reached zero is zero for ever: nobody joins a flight that was given up |
| SingleFlight.ReadEndsOnce | internal/httpclient/client.go:190-199 | a flight has an outcome exactly when the run ended its upstream read, which happens at one point only and with that outcome |
| SingleFlight.WokenCallersShareOneRead | internal/httpclient/client.go:155-161 | a caller that was woken holds from then on, also after it left, exactly the outcome of one upstream read: that of a flight under the key it joined with, which the run ended once, with that outcome |
| SingleFlight.EveryCallerTellsItsStory | internal/httpclient/client.go:137-163 | in every run, whether a caller joined, under which key, whether its flight or its own context answered it, and whether it left are what its own actions say |
| SingleFlight.OwnContextOnlyAfterGivingUp | internal/httpclient/client.go:155-163 | a caller gets the error of its own context if and only if it gave up, and no caller both gives up and is woken |
| SingleFlight.CoalescedIsUnique | internal/httpclient/client.go:174-188 | when every waited-for unfinished flight is registered, a key has at most one of them |
| SingleFlight.StepCoalesces | internal/httpclient/client.go:190-211 | a step keeps coalescing if and only if it is not a publication that finds another flight under its key; such a publication always comes from a flight without waiters |
| SingleFlight.RunCoalesces | internal/httpclient/client.go:190-211 | a run stays coalesced if and only if no publication displaced another flight, and always when no unfinished flight lost its last waiter |
| SingleFlight.OneReadPerKey | internal/httpclient/client.go:174-211 | in a run in which no unfinished flight loses its last waiter, no key ever has two unfinished flights |
| SingleFlight.CoalescedMeansUnique | internal/httpclient/client.go:174-211 | reads are coalesced if and only if no key has two waited-for unfinished flights now or after any next join |
| SingleFlight.DisplacedKeyIsReadTwice | internal/httpclient/client.go:196-209 | after any publication that displaces a flight, the next caller of the key starts a second read beside the first |
| SingleFlight.RunKeepsReadsUnique | internal/httpclient/client.go:174-211 | a run keeps the reads of every key unique, now and after any next join, if and only if none of its publications displaces another flight |
| SingleFlight.NeverStuck | internal/httpclient/client.go:222-299 | while a flight is unfinished, some step that depends on no caller's decision is enabled and brings it nearer to its publication |
| SingleFlight.PublishedInFiveSteps | internal/httpclient/client.go:190-299 | any run with an unfinished flight goes on, by at most five steps that depend on no caller's decision, until that flight is published |
| SingleFlight.AnsweredInSixSteps | internal/httpclient/client.go:137-163 | whoever has no answer yet can be woken after at most five steps that depend on no caller's decision |
| SingleFlight.GivenUpFlightSplitsItsKey | internal/httpclient/client.go:196-209 | a concrete run of nine steps in which an abandoned flight unregisters its successor and a third flight of the same key starts beside it |
| FlightClient.Client.JoinFlight | internal/httpclient/client.go:174-188 | the mutable flight table takes exactly the Join step: new state, returned flight and leader flag |
| FlightClient.Client.LeaveFlight | internal/httpclient/client.go:201-211 | the mutable flight table takes exactly the Leave step, with the identity check before it unregisters |
| FlightClient.Client.PublishFlight | internal/httpclient/client.go:192-197 | the mutable flight table takes exactly the Publish step, which unregisters the key unconditionally |
| FlightClient.Client.TryAcquire | internal/httpclient/client.go:290-297 | a permit is taken exactly when fewer than the capacity are taken |
| FlightClient.Client.Release | internal/httpclient/client.go:299-301 | one permit is given back |
| FlightClient.Client.BeginGet | internal/httpclient/client.go:137-150 | a limit that is not positive and offline mode are refused, in this order and without touching the table; otherwise the flight of the request's key is joined |
| FlightKeys.SameKindKeys | internal/httpclient/client.go:166-172 | two requests with the same authentication flag and equal keys have equal URLs and byte limits, whatever bars the URLs contain |
| FlightKeys.CrossKindCollision | internal/httpclient/client.go:166-172 | a shared key of an authenticated and an anonymous request forces the user name to end like an anonymous key |
| FlightKeys.KeySeparation | internal/httpclient/client.go:166-172 | flight keys separate all requests if and only if the configured user name does not end like the key of an anonymous request |
| FlightKeys.BarredUserName | internal/httpclient/client.go:166-172 | the user name made of false, a bar, 1 and a bar gives an authenticated and an anonymous request for different URLs one key |
| Paging.RowBudget | internal/providers/live.go:1186-1191 | a budget is between 1 and the row maximum; a non-positive request gets the default |
| Paging.AppendUniqueRows | internal/providers/live.go:1169-1184 | the loop appends exactly the rows not seen yet, in order, until the budget is full, and keeps the seen set equal to the fingerprints of the rows |
| Paging.QueryTable | internal/providers/live.go:160-215 | rows, error and number of requests are those of the recursive description Read, with the quiet exit below one page |
| Paging.FetchItems | internal/providers/live.go:1077-1167 | rows, error and number of requests are those of the recursive description Read, without the quiet exit |
| Paging.AnySource | internal/providers/live.go:177-214 | for arbitrary pages, failures and time-outs: rows are pairwise distinct, are the first occurrences in the concatenated pages cut at the budget, at most eight requests are made, each kind of stop has its stated cause, and a failed page leaves exactly the rows before it |
| Paging.RequestsBounded | internal/providers/live.go:177-179 | no read makes more than eight requests |
| Paging.StableRead | internal/providers/live.go:160-215 | a stable table of distinct rows is read up to min(n, budget), the error is a function of budget and table size, and truncation is reported only for tables of at least the budget |
| Paging.NoErrorMeansComplete | internal/providers/live.go:196-213 | a missing error proves a complete read if and only if the budget is a multiple of 200 or one less (from one page on), or, below one page, the read is an OGC or WFS one |
| Paging.ThreeHundredOfThreeHundredFifty | internal/providers/live.go:196-213 | a budget of 300 over 350 stable rows returns 300 of them and no error |
| Paging.PageCapIsSilent | internal/providers/live.go:177-214 | a concrete source whose ninth page has a new row is read for eight pages and ends without an error |
| GtfsTime.ParseOffset | internal/model/helpers.go:138-157 | an accepted service time lies between 0 and 99:59:59 |
| GtfsTime.ParseFormatted | internal/model/helpers.go:138-157 | every HH:MM:SS text up to 99:59:59 is read as its number of seconds after noon minus twelve hours |
| GtfsTime.CivilDateIsUnique | internal/storage/gtfs.go:509-512 | with service days of 23 to 25 hours, an instant has at most one civil date |
| GtfsTime.CivilDateExists | internal/storage/gtfs.go:509-512 | with service days of 23 to 25 hours, every instant has a civil date |
| Timetable.LoadGTFSExceptions | internal/storage/gtfs.go:471-487 | the exception map holds, per service and date in the range, the last row |
| Timetable.KeyDate | internal/storage/gtfs.go:484 | the key of service and date determines both when dates hold no NUL |
| Timetable.WindowExceptions | internal/storage/gtfs.go:471-503 | for a date in the window, the restricted exception query answers as all exceptions would |
| Timetable.RunsInService | internal/storage/gtfs.go:489-503 | on the loaded maps, serviceRuns holds if and only if the last exception row of service and date adds it, or none removes it and its calendar has the date in its range and the flag of the weekday set |
| Timetable.EverydayService | internal/storage/gtfs.go:489-503 | a service with all seven flags runs on every date of its range but the removed ones |
| Timetable.AddedDatesOnly | internal/storage/gtfs.go:489-503 | a service without a weekday runs on the added dates only |
| Timetable.AppendDay | internal/storage/gtfs.go:425-442 | the inner loop appends exactly the day's running, accepted, parsable departures within the 24 hours, in row order |
| Timetable.ScheduledDepartures | internal/storage/gtfs.go:377-451 | the method returns the function Scheduled: window, stable sort by instant, cut at the bounded limit |
| Timetable.OlderDaysAreOver | internal/storage/gtfs.go:416 | no departure of a service day before the window reaches into the 24 hours: 99:59:59 of day D-5 ends before day D |
| Timetable.LaterDaysAreAhead | internal/storage/gtfs.go:422 | no departure of a service day after the window lies in the 24 hours when these end by the zero instant of day D+2 |
| Timetable.WindowIsComplete | internal/storage/gtfs.go:413-443 | under that hypothesis the departures collected from six days are exactly those of all service days |
| Timetable.SortedWindow | internal/storage/gtfs.go:444-446 | the stable sort orders by instant and, at one instant, by service day and row |
| Timetable.ScheduledIsEarliest | internal/storage/gtfs.go:377-451 | the result is the first `limit` of all departures over every integer service day within 24 hours, in order, without repetition and without omission, where the tables themselves say on which days a service runs |
| Timetable.DepartsOnAddedDates | internal/storage/gtfs.go:413-450 | whatever the instant, a returned departure of a service without a weekday is on a date that adds the service |
| Timetable.SixDaysSuffice | internal/storage/gtfs.go:413-450 | six service days answer every timetable and limit correctly if and only if the 24 hours end by the zero instant of day D+2 |
| Timetable.LonelyIsMissed | internal/storage/gtfs.go:413-450 | when they end later, a one-row timetable is constructed whose only departure is missed |
| Timetable.OnlyShortDaysMatter | internal/storage/gtfs.go:413-450 | the hypothesis can fail only if one of the next two service days has 23 hours |
| Timetable.LastHourBeforeAShortDay | internal/storage/gtfs.go:413-450 | on an ordinary day before a 23-hour one, it fails exactly in the hour before midnight |
| Coverage.CalendarRange | internal/storage/gtfs_coverage.go:66-77 | whatever the order of the rows, first and last date are the least start and the greatest end |
| Coverage.ExceptionRange | internal/storage/gtfs_coverage.go:78-93 | added dates widen the range, removed ones do not, and the map holds all exceptions |
| Coverage.ActiveServices | internal/storage/gtfs_coverage.go:102-118 | the two loops collect exactly the active set, each service once |
| Coverage.GTFSCoverage | internal/storage/gtfs_coverage.go:36-131 | range, list and status of the report: the list is sorted, distinct and exactly the active set, and each of the four statuses has its exact condition |
| Coverage.ActiveIsRunning | internal/storage/gtfs_coverage.go:102-118 | with exception dates of eight characters, a service is listed if and only if the tables say that it runs on the date, and the report cannot panic |
| Coverage.PanicsOnShortAdditions | internal/storage/gtfs_coverage.go:107-113 | the report panics on its services if and only if the last row of some service and date is an addition that is shorter than the date asked for |
| Coverage.CurrentIsWithin | internal/storage/gtfs_coverage.go:121-131 | a date on which a service runs lies between first and last service date |
| Coverage.LongDateInventsAService | internal/storage/gtfs_coverage.go:78-118 | a nine-character added date makes the report list a service that does not run and does not exist |
| EntityIndex.UpsertConsistent | internal/storage/entities.go:29-79 | an upsert keeps text rows, aliases and boxes attached to their entities if and only if no other indexed entity has the same hash |
| EntityIndex.UpsertStores | internal/storage/entities.go:29-82 | after an upsert the entity has the given fields, exactly the given aliases, one text row, and one point box at its longitude and latitude; nothing stored about it before stays |
| EntityIndex.DeleteForgets | internal/storage/entities.go:84-105 | after the deletion of a source, nothing is left of its entities in any of the five tables |
| EntityIndex.DeleteConsistent | internal/storage/entities.go:81-99 | deleting a source keeps every remaining index row attached |
| EntityIndex.ResolvedConsistent | internal/storage/entities.go:109-129 | saving a resolved place keeps consistency if and only if an indexed entity of that id keeps its name and coordinates |
| EntityIndex.UpsertLeavesOthers | internal/storage/entities.go:29-79 | an upsert leaves entity, aliases, text row and box of every entity with another hash as they were |
| EntityIndex.DeleteLeavesOthers | internal/storage/entities.go:81-99 | deleting a source leaves all rows of entities of other sources as they were |
| EntityIndex.RunConsistent | internal/storage/entities.go:29-129 | every run of upserts, deletions and resolved places keeps the index consistent, when the hash is injective and resolved places are not indexed ones |
| EntityIndex.RunLeavesOthers | internal/storage/entities.go:29-129 | every run of upserts, resolved places and deletions about other ids, hashes and sources leaves entity, aliases, text row and box of an entity as they were |
| EntityIndex.EntityTables.InsertAliases | internal/storage/entities.go:55-59 | the loop adds exactly one row per alias |
| EntityIndex.EntityTables.UpsertEntity | internal/storage/entities.go:29-79 | the five tables change as described or, for a place without id, name or valid coordinates, not at all |
| EntityIndex.EntityTables.DeleteEntitiesBySource | internal/storage/entities.go:81-99 | the statements in their order leave exactly the rows of other sources |
| EntityIndex.EntityTables.SaveResolvedPlace | internal/storage/entities.go:109-129 | only the entity table changes, and only for an accepted place |
| GtfsImport.AcceptedArchives | internal/storage/gtfs.go:53-119 | an archive is accepted if and only if the required tables get a row, no file is faulty, and every row meets the demands on its columns: filled ones, whole numbers, times, coordinates; what was stored before plays no part |
| GtfsImport.KeyedOrNot | internal/storage/gtfs.go:196-306 | the insert code gives a row a key if and only if it meets those demands |
| GtfsImport.InsertStopMatches | internal/storage/gtfs.go:214-241 | a stop row keeps the entities of the timetable source in one-to-one correspondence with the stop table |
| GtfsImport.ImportMatches | internal/storage/gtfs.go:53-95 | after a committed import the timetable's entities are exactly the stops with equal names and coordinates, the index is consistent, and entities of other sources keep their rows, aliases, texts and boxes |
| GtfsImport.InsertRowAt | internal/storage/gtfs.go:196-306 | a row replaces what its own table held under its primary key and touches no other key and no other table |
| GtfsImport.KeysByColumns | internal/assets/migrations/003_gtfs.sql:10-75 | rows of a file are stored under one key if and only if they agree on its primary key, column by column; for stop times these are the trip and the number in stop_sequence |
| GtfsImport.RowReplacesItsKey | internal/storage/gtfs.go:196-306 | a row replaces the row of its table with the same key columns, and no other |
| GtfsImport.LastRowWins | internal/storage/gtfs.go:168-190 | after a file each key of its table holds the last row of that key, or what was there when no row has it; other tables are as they were |
| GtfsImport.ImportHoldsLatest | internal/storage/gtfs.go:53-95 | a committed import holds in each of the eight tables exactly the rows of the archive that no later row with the same key columns replaces, and nothing from before |
| GtfsImport.ImportedRecords | internal/storage/gtfs.go:196-306 | the records of a table are the converted columns of the archive's last rows, and no others |
| GtfsImport.ColumnsAreKept | internal/assets/migrations/003_gtfs.sql:10-75 | whatever an accepted row has in a column of its table is stored under that name, as a number where the column is one |
| GtfsImport.ImportedStop | internal/storage/gtfs.go:210-236 | the last row of a stop gives its name and coordinates, empty ones as zero, to the stop table and to the entity under the prefixed id |
| GtfsStore.SelectMembers | internal/storage/gtfs.go:121-149 | selection succeeds if and only if no wanted file comes twice, none is too large and their sizes together are not; it then holds exactly the wanted entries, which determine it |
| GtfsStore.Transaction.Clear | internal/storage/gtfs.go:58-65 | all eight tables and the source's entities are empty, the import log stays |
| GtfsStore.Transaction.InsertRow | internal/storage/gtfs.go:196-306 | a row is written exactly when it is accepted and no statement fails, with the described new tables |
| GtfsStore.Transaction.ImportFile | internal/storage/gtfs.go:151-194 | a file counts its rows exactly when it is read to its end, and the tables are those of all its rows in turn |
| GtfsStore.Store.ImportFiles | internal/storage/gtfs.go:66-78 | the eight files are written in order and each is counted, absent ones as zero |
| GtfsStore.Store.Replace | internal/storage/gtfs.go:53-95 | one transaction: the committed tables become those the archive describes, or stay as they are |
| GtfsStore.Store.ImportGTFS | internal/storage/gtfs.go:33-95 | any failure leaves every table as it was; success replaces them by those of the one archive that the wanted entries determine; without outside failures an import is refused only when the archive is |
| ImportedTimetable.ImportedService | internal/storage/gtfs.go:453-503 | after an import, a service runs on a date if and only if the last rows of the archive say so: type 1 or none adds, type 2 removes, and without either the last calendar row has the date in its range, from 1970 to 2099 by default, and a number other than zero for the weekday |
| ImportedTimetable.ImportedRows | internal/storage/gtfs.go:379-411 | the rows of a stop query are exactly the joins of the archive's last stop times, trips and routes; a missing departure time is the arrival time, or midnight |
| ImportedTimetable.ImportedDates | internal/storage/gtfs.go:268-290 | an import leaves no calendar or exception without dates, as the coverage report requires, and seven flags in every calendar |
| ImportedTimetable.ImportedTimesParse | internal/storage/gtfs.go:246-268 | every departure time of an imported timetable can be read, so none is skipped for that |
| ImportedTimetable.ImportedQuerySees | internal/storage/gtfs.go:379-411 | after an import, a stop query sees exactly the rows and services of the archive |
| ImportedTimetable.ScheduledFromArchive | internal/storage/gtfs.go:377-451 | from the archive to the answer: every returned departure is one of the archive's, and one that is not returned is no earlier than any of a full answer |
| Secrets.DecodeEnvironmentValue | internal/config/config.go:598-633 | the decoder, its quote rules and its escape loop equal the recursive description, errors included |
| Secrets.DecodeEncode | internal/config/config.go:598-649 | decoding the trimmed encoding of any encodable value gives the value back, and an encoding has no line break |
| Secrets.OneLineCarries | internal/config/config.go:598-649 | some one-line text decodes to a value if and only if the value has no line feed, so the encoder must refuse those that have one; NUL and CR it refuses beyond need |
| Secrets.ReadSecrets | internal/config/config.go:535-596 | the line loop equals the recursive description: comments, unknown keys, repeated keys, and the first line that is bad or longer than the scanner's 65,535 bytes |
| Secrets.HandWrittenValue | internal/config/config.go:598-633 | a value without a quote in front stands for itself, single quotes keep any text as it is, double quotes keep a text without backslashes, and only an unclosed quote is an error |
| Secrets.BackslashInBody | internal/config/config.go:612-631 | in double quotes a backslash goes before a dollar sign, backtick, quote or backslash, and stays before anything else |
| Secrets.HandWrittenLine | internal/config/config.go:566-592 | spaces around key, equals sign and value do not matter, and a line of an unknown key is skipped whatever its value |
| Secrets.LineWithoutPair | internal/config/config.go:571-580 | blank lines and comments are skipped, and any other line needs an equals sign |
| Secrets.LinesSay | internal/config/config.go:566-595 | reading succeeds if and only if no line is bad, and then holds for each key the value of the last line that sets it, and nothing else |
| Secrets.WriteSecrets | internal/config/config.go:235-246 | the written bytes are one line per present key, in table order, or the first encoding error |
| Secrets.LineRoundTrip | internal/config/config.go:535-649 | a written line is read back as its key and value if and only if its key, equals sign and encoding take at most 65,535 bytes; otherwise it is refused as too long |
| Secrets.FileRoundTrip | internal/config/config.go:235-596 | writing fails if and only if a present value cannot be encoded; otherwise reading the text gives exactly the present supported values if every written line has at most 65,535 bytes, and an error if one has more |
| Secrets.OrdinaryLineFits | internal/config/config.go:566-649 | for a value of one-byte characters that need no escape, the line fits exactly when key, value and three more bytes stay within the limit |
| Secrets.WideLineFits | internal/config/config.go:566-649 | for characters of two, three or four bytes the line fits exactly when that many bytes for each, the key and three more stay within the limit |
| Secrets.LongPasswordIsLost | internal/config/config.go:235-596 | a password of 65,511 such characters is written without complaint and makes the file unreadable; one character fewer is read back |
| Secrets.CredentialsRoundTrip | internal/config/config.go:235-596 | the file a migration writes gives the three credentials back if and only if each of their lines fits |
| Secrets.SupportedKeysAreGood | internal/config/config.go:25-46 | the twenty supported keys satisfy the hypothesis of the round trip |
| Settings.Load | internal/config/config.go:169-217 | loading reads the secrets of the first directory and the YAML of the one they lead to; it succeeds if and only if every scalar and override can be read and the result is valid, and each setting has the value of the highest layer that sets it |
| Settings.LoadDatabase | internal/config/config.go:344-442 | the assignments to data directory and database path in their order give the database of the layered choice |
| Settings.YamlPlain | internal/config/config.go:313-405 | the assignments of the YAML layer give each setting what its scalar says, and fail if and only if some scalar cannot be read |
| Settings.OverridePlain | internal/config/config.go:428-481 | the assignments of the environment layer give each setting its nonempty override, and fail if and only if some override cannot be read |
| Settings.Validate | internal/config/config.go:483-500 | a configuration is refused if and only if a limit is broken: an empty data directory, a time-out that is not positive, fewer than one parallel request, a threshold outside 0 to 100, a negative retention limit |
| Text.NearestOutOfRange | internal/config/settings.go:365-367 | digits out of range are stored as the nearest 64-bit integer, which the parser returns beside its error |
| Migration.MigrateFromScalar | internal/config/settings.go:70-129 | after a migration the scalar of each setting is its legacy value as written, exactly where the section can be written and no old scalar says the same; the order of the table plays no part |
| Migration.RewrittenMeaning | internal/config/settings.go:330-390 | a scalar is kept if and only if it means the flag, number or text that would be written |
| Migration.MovedAny | internal/config/settings.go:82-98 | the report lists exactly the settings with a legacy value, and is marked changed if and only if there is one |
| Migration.ConflictsReported | internal/config/settings.go:82-98 | a conflict is reported, with both texts, if and only if a legacy value is moved over a nonempty scalar that means another flag, number or text |
| Migration.SameDirectories | internal/config/settings.go:108-129 | a load after a migration finds the same directories and credentials, the migrated document, and no legacy value unless the first directory leads to another one |
| Migration.MigratedSecrets | internal/config/settings.go:108-129 | credentials of the migrated file stay, missing ones are filled in as loaded, its settings are gone, and no other directory changes |
| Migration.SecondMigration | internal/config/settings.go:69 | loading and migrating twice is loading and migrating once, and the second report is empty |
| Migration.WrittenSecretsRead | internal/config/config.go:235-596 | the secrets file that a migration writes reads back as the credentials exactly when the model calls the directory readable |
| Migration.SettingsDocument.SetSettingsValue | internal/config/settings.go:330-358 | the edit in place: new document, old text and whether anything changed |
| Migration.SettingsDocument.MoveSetting | internal/config/settings.go:84-97 | one setting is moved into the document in place, and a conflict is reported exactly when an old scalar said something else |
| Migration.SettingsDocument.MoveLegacy | internal/config/settings.go:83-98 | the loop edits the document in place into the migrated one and lists moved settings and conflicts |
| Migration.SettingsFiles.Migrate | internal/config/settings.go:70-129 | the directories after a migration and its report; when the secrets cannot be read nothing changes, and when a credential cannot be encoded the secrets stay and at most the document is written |
| Migration.SettingsFiles.LoadAndMigrate | internal/config/settings.go:70-129 | the command succeeds if and only if the configuration loads, the secrets to migrate can be read and the credentials can be encoded; it changes nothing when the first two fail |
| Migration.SettingsFiles.MigrateTwice | internal/config/settings.go:68-69 | the second of two commands runs if and only if what the first one wrote loads and its credentials fit their lines; it reports no change, and changes nothing either way |
| Preservation.StoredReads | internal/config/settings.go:360-375 | what each kind of moved value says once it stands in the document: an invalid flag is false, an invalid number zero or the nearest one, an infinity or NaN unreadable |
| Preservation.PlainPreserved | internal/config/settings.go:68-129 | under a fixed environment, for every setting but the database path: its override stays readable, its scalar stays readable if and only if no infinity or NaN is moved for it, and its effective value, texts up to surrounding space, stays if and only if it survives, a condition on the files before |
| Preservation.OneLineTextSurvives | internal/config/settings.go:330-375 | a one-line legacy text that moves survives if and only if it is not blank, or blanks count, or the default is blank |
| Preservation.LoadsAfterMigration | internal/config/settings.go:68-129 | a configuration that loads still loads after a migration if and only if the written secrets can be read, no infinity or NaN is moved, and what the document then says of each unshadowed setting is valid |
| Preservation.SurvivorsLoad | internal/config/settings.go:368-370 | when every setting survives, loading can fail only by credentials too long to be read back, or by an infinity or NaN, which the environment or another directory hid from the load before |
| Preservation.DroppedForDocument | internal/config/settings.go:340-354 | a legacy value that does not move gives way to what the document says |
| Preservation.KeptNumberChanges | internal/config/settings.go:352-354 | whenever an old number is kept as equal but YAML reads another number from it, the setting changes to that one |
| Preservation.OctalIsKept | internal/config/settings.go:352-354 | a YAML value 010 beside a legacy value 10: 10 before the migration, 8 after it |
| Preservation.OfflineIsLost | internal/config/settings.go:340-342 | with an empty runtime section, migrating a legacy true for offline mode turns it off |
| Preservation.DirectoryIsLost | internal/config/settings.go:340-342 | with an empty runtime section, migrating a legacy data directory moves it back to the platform default |
| Preservation.RedirectedValueAppears | internal/config/config.go:183-204 | when the secrets of A lead to B, a legacy offline flag in B takes effect only by being migrated |
| Preservation.HiddenInfinityStopsLoading | internal/config/settings.go:368-370 | with a timeout in the environment and inf in the secrets, the configuration loads before the migration and not after it |
| Preservation.FreshInstallation | internal/config/config.go:169-311 | without any files and variables, loading succeeds with the built-in settings and the database in the platform directory |
| Preservation.LongPasswordStopsLoading | internal/config/settings.go:108-129 | with a password of more than 65,535 characters in the environment, the configuration loads and migrates, and does not load afterwards |
| PathPreservation.DatabaseIsChosen | internal/config/config.go:344-442 | the stepwise assignments amount to one choice: an override, a YAML path that is not the default one, or the default in the directory that counts |
| PathPreservation.PathsPreserved | internal/config/config.go:428-442 | for all inputs that can be read: the migration keeps the data directory if and only if it survives, and the database path, up to surrounding space, if and only if DatabaseStays holds, which names by cases the paths that look default before or after |
| PathPreservation.UsualPathsStay | internal/config/config.go:428-442 | both paths stay when the environment sets neither, the YAML has no database path, and the legacy ones are one-line texts that move |
| PathPreservation.DatabaseIsLeftBehind | internal/config/config.go:428-442 | a legacy directory beside a written-out default database path: before the migration the database follows the directory, after it it does not |
| PathPreservation.LegacyPathLooksDefault | internal/config/config.go:428-442 | a directory from the environment beside a legacy path that is the default one of the YAML directory: migrated, the path is taken for a default and the database moves to the other directory |
| Briefing.IndexItems | internal/service/briefing.go:349-407 | items by key, the last of a key wins, keyless items and non-objects are dropped |
| Briefing.ItemsAreLast | internal/service/briefing.go:383-405 | the items of a list are the last objects of their nonempty keys, and there are no others |
| Briefing.KeysIdentify | internal/service/briefing.go:386-402 | two items have one key if and only if they agree on the identifying fields of their section, as long as the fields before a bar hold none |
| Briefing.WithoutKey | internal/service/briefing.go:386-405 | only stations, alerts and indicators without their identifying field are dropped; a departure or journey never is |
| Briefing.BarMergesDepartures | internal/service/briefing.go:390-394 | two departures whose line and destination differ only in where a bar between them is cut share a key, and the briefing sees only the second |
| Briefing.CompareBriefingFacts | internal/service/briefing.go:234-291 | no previous facts give no changes; otherwise all changes, cut to fifty and flagged exactly when there are more |
| Briefing.CompareItems | internal/service/briefing.go:271-283 | the loop over the sorted keys yields one change per changed key |
| Briefing.AscendingIsUnique | internal/service/briefing.go:266-270 | there is one ascending list of a set of keys, so map iteration order does not matter |
| Briefing.DifferencesAreExact | internal/service/briefing.go:234-291 | before the cut, a change is listed if and only if its section was lost, or its key is new (added, with the new item), gone (removed, with the old one), or has items that differ in a field that is not volatile (updated, with both); sections in order, keys ascending |
| Briefing.OneFieldMatters | internal/service/briefing.go:447-482 | changing one field of an item shows if and only if the field is none of the six volatile ones and its value differs |
| Briefing.SwappingSwaps | internal/service/briefing.go:234-291 | with the same sections on both sides, swapping the arguments swaps added and removed and the two values |
| Json.RemoveTwice | internal/service/briefing.go:468-482 | removing volatile fields is idempotent at every depth |
| Json.RemoveRemoves | internal/service/briefing.go:468-482 | no object at any depth keeps a volatile field |
| Json.RemainsAgree | internal/service/briefing.go:447-482 | canonical forms are equal if and only if the trees agree at every depth but for the removed fields and for what the reading of numbers makes equal |
| Json.DecodedSame | internal/storage/profiles.go:144-160 | marshalling keeps everything that a value says |
| Json.DecodeKept | internal/storage/profiles.go:162-173 | storing a value and reading it later gives what reading it at once gives |
| Agreement.StrippedItems | internal/service/briefing.go:349-482 | taking items and removing volatile fields commute: no item key uses a volatile field |
| Agreement.RereadItems | internal/service/briefing.go:349-407 | taking items and storing commute: no item key uses a number |
| Agreement.EquivalentItem | internal/service/briefing.go:447-466 | for sections with equal canonical form, a key has no change if and only if float64 reading keeps the numbers of its new item |
| Agreement.EquivalentFactsDiff | internal/service/briefing.go:234-482 | facts with equal canonical form show no difference if and only if float64 reading keeps the lasting numbers of all new items |
| Agreement.TypedListsAreStable | internal/service/briefing.go:349-370 | lists of structs always meet that condition |
| Snapshots.SkippedMeansUnchanged | internal/storage/profiles.go:144-189 | a snapshot discarded as equivalent shows an empty comparison with the stored one if and only if float64 reading keeps the lasting numbers of the new items |
| Snapshots.SkippedBriefingIsUnchanged | internal/storage/profiles.go:144-189 | when the lists of the new facts are lists of structs or absent, as in every briefing, a snapshot discarded as equivalent shows an empty comparison with the stored one |
| Snapshots.LargeNumberLooksChanged | internal/storage/profiles.go:162-173 | a list of decoded values, which no caller builds, would need the number condition: with 9007199254740993 the snapshot is skipped and a change reported |
| Snapshots.OtherTimeIsStoredAgain | internal/storage/profiles.go:144-160 | the same facts for another time are stored again |
| Snapshots.CountKeepsNewest | internal/storage/retention.go:46-57 | pruning by count leaves each profile exactly its newest rows |
| Snapshots.AgeKeepsNewest | internal/storage/retention.go:38-45 | pruning by age leaves each profile exactly its rows from the cutoff on |
| Snapshots.PruneKeepsNewest | internal/storage/retention.go:28-57 | pruning leaves a profile exactly the rows that are not older than the cutoff and are among its newest, as far as the policy sets these limits |
| Snapshots.SaveKeepsHistory | internal/storage/profiles.go:144-160 | a timely save keeps ids and times rising, neighbours different and the last row equivalent to the last value saved |
| Snapshots.SavedUnlessSame | internal/storage/profiles.go:144-160 | a save adds one row with the given time and everything that the value says, unless the last row of the profile agrees with it but for volatile fields and digits that float64 drops |
| Snapshots.PruneKeepsHistory | internal/storage/retention.go:28-57 | pruning keeps those properties |
| Snapshots.DeleteKeepsHistory | internal/storage/retention.go:117-123 | deleting a profile empties it, leaves the others as they were and keeps those properties |
| Snapshots.EveryHistory | internal/storage/profiles.go:144-205 | after every timely run, adjacent snapshots of a profile differ in canonical form and the last, if any, is canonically the last value saved |
| Snapshots.LatestSurvivesCount | internal/storage/retention.go:46-57 | whatever the times, pruning by count keeps the latest snapshot of a profile if and only if fewer of its rows than the maximum have a later time text |
| Snapshots.UntimelyPruneLosesTheLatest | internal/storage/retention.go:46-57 | when a later snapshot has an earlier time text, pruning to one row deletes the latest snapshot |
| Snapshots.FractionSortsFirst | internal/storage/profiles.go:157-158 | a time with a fraction of a second sorts before the same second without one |
| Snapshots.SnapshotStore.SaveSnapshot | internal/storage/profiles.go:144-160 | the store takes the Save step and keeps its history valid when the clock does not fall |
| Snapshots.SnapshotStore.PruneHistory | internal/storage/retention.go:28-57 | the store takes the Prune step and refuses negative limits; no row left is older than the cutoff and no profile has more rows than the maximum; its counts plus the rows left are the rows before |
| Snapshots.SnapshotStore.DeleteBriefingHistory | internal/storage/retention.go:117-123 | the store takes the Delete step and counts the rows removed |
| Snapshots.SnapshotStore.LastSnapshot | internal/storage/profiles.go:191-205 | nothing if and only if the profile has no row, and otherwise the decoded payload of a row with the greatest id of the profile, whatever the order of the rows |
| CacheRetention.CacheStore.PruneCache | internal/storage/retention.go:141-170 | what is left is not stale, and is exactly the longest newest-first prefix of the fresh rows within both limits; the returned count plus the rows left is the rows before, and negative limits change nothing |
| CacheRetention.RowsInOrder | internal/storage/retention.go:154-160 | the window functions give a row its place and the running byte sum in newest-first order |
| CacheRetention.KeptIsLongestPrefix | internal/storage/retention.go:141-170 | exactly the longest prefix within both limits of the rows whose stale time lies ahead, ordered by retrieval time and row id, newest first, is kept |
| CacheRetention.RoomForAll | internal/storage/retention.go:141-170 | when all fresh rows are within both limits together, all of them and no others stay |
| CacheRetention.KeptIsSettled | internal/storage/retention.go:141-170 | what was kept is kept again at the same clock |
| CacheRetention.CacheStore.PruneCacheTwice | internal/storage/retention.go:141-170 | an immediate second run removes nothing |
| StationPairs.SetStationDistances | internal/service/journey.go:293-298 | every station of the array gets its distance and nothing else changes |
| StationPairs.FilterStations | internal/service/journey.go:312-327 | exactly the open stations with enough bikes or docks remain, in order |
| StationPairs.FilterFreshStations | internal/service/journey.go:300-310 | exactly the stations with an observation of acceptable age remain, in order |
| StationPairs.SearchedPairs | internal/service/journey.go:216-271 | the filters and the walking check let a pair through if and only if both stations are open and observed within the maximum age, one has the bikes and the other the docks, and the two walks are within the limit; its time is that of the walks at one metre a second and of the ride at four |
| StationPairs.TruncatedTowardZero | internal/service/journey.go:253-262 | conversion to whole metres and seconds cuts toward zero, for distances of either sign |
| StationPairs.SearchPairs | internal/service/journey.go:243-271 | the nested loops find the first fastest pair within walking range, or none if there is none |
| StationPairs.VelovPair | internal/service/journey.go:216-271 | over the provider's own lists: the proposal is open, stocked, fresh and within the walking limit, no admissible pair takes less time and none met earlier takes as little; none is proposed only if none is admissible |
| TripChoice.ApplyTripTiming | internal/service/journey.go:524-538 | every option of the array is timed in place as described, and nothing else changes |
| TripChoice.TimedIsFilledIn | internal/service/journey.go:524-538 | known departures and arrivals stay, a missing departure is the one of the request, and a missing arrival is that departure plus the duration when there is one |
| TripChoice.ReasonsApply | internal/service/journey.go:126-174 | the reasons found for an option are exactly the violated constraints |
| TripChoice.EvaluateTripOption | internal/service/journey.go:126-174 | an option is eligible if and only if it satisfies every constraint of the request, exactly the reasons that apply are listed, and nothing else changes but unknown evidence |
| TripChoice.EvaluateTripOptions | internal/service/journey.go:126-174 | every option of the array is judged in place |
| TripChoice.JudgedAgain | internal/service/journey.go:126-174 | a second evaluation gives the same verdict, and the same reasons unless the evidence was unknown |
| TripChoice.DeadlineIsDecided | internal/service/journey.go:524-538 | for known evidence and duration the arrival is never unknown, and it is late exactly when departure plus duration is |
| TripChoice.HasUnavailableOption | internal/service/journey.go:176-183 | whether some option has unavailable evidence |
| TripChoice.Recommend | internal/service/journey.go:93-114 | ranking loses no option; no eligible option stands behind another one and scores fall within both groups; the recommendation is the first option among the best eligible ones; the status for none is decided as stated |
| TripChoice.AnswerTrip | internal/service/journey.go:91-124 | for any options: the recommendation satisfies every constraint, no option that does scores higher and none before it as high; none is given exactly when no option satisfies them, and the status is not_found exactly without wheelchair, warnings and unknown or unavailable evidence |
| TripScore.NoWorseScoresNoLower | internal/service/journey.go:540-554 | scores lie in [0, 1], and with non-negative weights a trip that is no worse in any respect scores no lower |
| TripScore.LoneWeight | internal/service/journey.go:540-543 | with a single weight a trip is scored on that merit alone: nothing is left of the time after 5400 seconds nor of the walk after 2000 metres |
| TripScore.DefaultWeights | internal/service/journey.go:546-554 | weights that sum to zero stand for the default ones, and with weights that sum to one no score is cut off |
| TripScore.FixedMerits | internal/service/journey.go:61-280 | the reliability, disruptions and availability on which walks, cars and bicycles are scored do not depend on the distance |
| TripScore.WeightsAdd | internal/service/journey.go:540-543 | the merits are weighed independently: what two weightings give adds up |
| TripScore.WalkIsAFallback | internal/service/journey.go:61-70 | a walk within the limit and the deadline guarantees a recommendation that scores at least as much |
| TripScore.CarIsAFallback | internal/service/journey.go:71-80 | without a wheelchair, a car that meets the deadline guarantees a recommendation that scores at least as much, whatever the distance |
| TripScore.ProposedPairIsEligible | internal/service/journey.go:272-280 | without a wheelchair, a proposed pair of stations is eligible if and only if it meets the deadline |

## Left out

- HTTP, TLS, redirects, retries, time-outs as durations, response bodies: an upstream read is a step with an arbitrary outcome, which may also time out.
- Copying of a response for each caller, and sharing of its body between them: outcomes are values.
- SingleFlight.PublishedInFiveSteps: says that such steps exist, not that the scheduler takes them, because the Go scheduler is no part of the program.
- FlightClient.Client.TryAcquire: models the attempt to take a permit; waiting for one is the enabling condition of the Acquire step.
- Downloads: only the permits they hold are modelled.
- SQL text, SQLite, full-text search, ranking and NearEntities: tables are maps and sequences, a transaction is a copy that replaces the tables on commit.
- Columns without influence on the modelled results, such as names of agencies, colours, label, address and confidence.
- File permissions, temporary files, renames and invalid UTF-8: the secrets file is its text.
- The YAML, JSON, CSV and ZIP libraries: the models start from decoded scalars, trees, rows and archive entries; YAML merge keys, aliases of single scalars and duplicate keys do not occur, and comments are not kept track of.
- Settings.Load: other fields of the document, its version and the journey weights are one flag that says whether they decode and are valid; they do not change by a migration.
- Preservation.PlainPreserved: floats are real numbers, infinities and NaN, without negative zero, and two names lead to one directory exactly when a given function says so.
- Migration.SettingsFiles.Migrate: the list of removed names, which repeats the migrated ones, and read or write failures of the two files are not modelled.
- Time-zone data: service days are numbers whose zero instants lie 23 to 25 hours apart, and no clock change falls between noon and midnight.
- Timetable.ScheduledDepartures: the recursive query for the stops of a station and the line and direction filter are given rows and an arbitrary predicate.
- Briefing.CompareBriefingFacts: the texts of a change (message, shortened values, source, observation time) are not modelled; a change carries the two items instead.
- Json.RemoveRemoves: the in-place deletion in JSON trees is modelled on values, so aliasing inside a tree is not captured.
- Snapshots.EveryHistory: Vélo'v observation history, pruned in the same transaction, is not modelled.
- EntityIndex.RunConsistent: alias spelling, stored text normalisation and the rounding of rtree coordinates to 32-bit floats are not modelled.
- GtfsImport.ImportedRecords: a row is its trimmed columns by name; the reader that splits lines into columns is not modelled.
- GtfsStore.Store.ImportGTFS: the base name of an archive entry is given, and reading, hashing, statements and commit fail or succeed by parameter.
- StationPairs.VelovPair: haversine trigonometry is an arbitrary function, and float rounding of distances is not modelled.
- TripChoice.AnswerTrip: park-and-ride and transit options are arbitrary members of the option list; validation and resolution of the two places are not modelled.
- TripScore.NoWorseScoresNoLower: weights and scores are real numbers, without rounding, infinities and NaN.
- Feed mapping, facilities, waste, accessibility, commands, the MCP adapter, schemas and reports: field lookup and plumbing that would only add easy members.
