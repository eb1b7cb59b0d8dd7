# JAWS traffic-incident ingestion, modelled in Dafny

JAWS polls two traffic sources and stores what it finds in PostgreSQL.

- **ChartMD.** A JSON export of Maryland traffic events. `processChartMDData` checks the response, keeps the Montgomery County events and normalises each one, filling in defaults. It then inserts the records one at a time into `chartmd_incidents`, an append-only history table keyed by a BIGSERIAL `entry_id`, and counts the successful inserts.
- **WTOP.** A traffic RSS feed. `processWTOPData` keeps the traffic items and builds one record per item:
  - the location is cut from the title by the regular expression `^(.*?)(?=\s+\d)`;
  - the severity comes from keyword tests on the title and snippet.

  It then upserts each record into `wtop_incidents`, a latest-state table keyed by `incident_id`. On a conflict the upsert overwrites only the columns of its SET list.

The model is split into these modules:

| module | what it holds |
|---|---|
| `Wrappers` | `Option` and `Result` |
| `JsValues` | JavaScript truthiness, `a \|\| b`, `Array.prototype.filter`, `Array.prototype.join` |
| `JsText` | `String.prototype.includes` and `trim`; the regex classes `\s`, `\d` and `.` |
| `Db` | the errors a write rethrows; the database oracle (`failAt` holds the attempt numbers the database rejects); the count of writes that store |
| `SeqFacts` | small sequence lemmas used by the loops |
| `ChartMDIncidents` | the history table, as a class `HistoryTable` with a growing `seq` of entries and a method `Insert` |
| `WTOPIncidents` | the upsert table, as a class `LatestTable` with a `map` from `incident_id` to row and a method `Upsert` |
| `ChartMDService` | validation, the county filter and `Normalise` as functions; the insert loop as a method |
| `WTOPService` | the traffic filter, `ExtractLocation`, `DetermineSeverity` and the record mapping as functions; the upsert loop as a method |

How the outside world enters the model:

- The fetched response (`None` for `fetchData`'s `null`) and the parsed feed's items are inputs. The feed is `None` when `parseURL` rejects or the feed has no item list to filter; both end in the outer `catch`.
- The database's verdict on each statement is an input set `failAt`.
- A record with no `incident_id` is refused by the `NOT NULL` / primary-key constraint. The model represents this deterministically.
- Each table keeps a ghost log `attempts` of every record handed to it, so "every record is attempted, in order" can be stated.

## Model

| member | source | states |
|---|---|---|
| JsValues.Or | services/chartmdService.js:36-38 | `s \|\| fallback` is `s` when `s` is present and non-empty, else the fallback; the result is empty only if the fallback is |
| JsValues.Filter | services/chartmdService.js:18-19 | the kept elements are elements of the input that satisfy the test; every satisfying element is kept; nothing is kept beyond the input's length; all are kept exactly when all satisfy the test |
| JsValues.FilterAppend | services/chartmdService.js:18-19 | filtering a concatenation is the concatenation of the filtered parts: order and every occurrence are kept |
| JsValues.FilterSnoc | services/wtopService.js:28-33 | one more element at the end adds itself at the end of the result exactly when it passes the test |
| JsValues.FilterCount | services/chartmdService.js:18-19 | the result has exactly one element per position of the input whose element passes the test |
| JsValues.Join | services/chartmdService.js:29-32 | a join is empty exactly when every part is empty and there is at most one part (or the separator is empty); a join of one part is that part |
| JsValues.JoinSnoc | services/chartmdService.js:29-32 | joining one more part appends the separator and that part, so the text is the parts in order with the separator between each two |
| JsText.ContainsTransitive | services/wtopService.js:16-18 | whatever occurs in a substring of `a` occurs in `a` (`includes` is transitive) |
| JsText.Trim | services/wtopService.js:11 | `trim` gives the slice of the input at some offset such that everything before and after it is white space, and the slice neither starts nor ends with white space; the result is empty exactly when the input is all white space |
| JsText.TrimIdempotent | services/wtopService.js:11 | trimming twice is trimming once |
| Db.WriteError | models/chartmdIncidents.js:88-94 | a write is rethrown exactly when the database rejects it or the record has no `incident_id`; a not-null violation implies the id is missing |
| Db.WrittenCount | services/chartmdService.js:45-55 | the count of stored writes is at most the batch size, and equals it exactly when every write stores |
| Db.OneFailureCountsTheRest | services/chartmdService.js:45-55 | per-record isolation: when exactly one write of N fails, the count is N - 1 |
| ChartMDIncidents.FromRow | models/chartmdIncidents.js:53-84 | every stored row is what inserting some incident with an `incident_id` produces, so reading a row back and inserting it again stores the same row |
| ChartMDIncidents.ToRow | models/chartmdIncidents.js:53-84 | each of the 20 columns takes the same-named incident field (`incident_id` ... `op_center`, in the order of the column list); `additional_data` is the incident's `additionalData`, or the empty object when it is absent |
| ChartMDIncidents.RowRoundTrip | models/chartmdIncidents.js:63-84 | nothing of an incident is lost in its row: reading the row back gives the incident, with `additionalData` defaulted |
| ChartMDIncidents.HistoryTable.Insert | models/chartmdIncidents.js:51-95 | success (`true`) exactly when the row can be stored; then exactly one entry is appended under the next `entry_id` and no existing entry changes; on failure the error is rethrown and the table is unchanged; the `entry_id` key invariant is kept |
| ChartMDIncidents.AppendedRows | services/chartmdService.js:45-55 | a batch appends as many rows as it has stored writes |
| ChartMDIncidents.AllStored | models/chartmdIncidents.js:53-84 | when every insert of a batch stores, the appended rows are exactly the batch's rows, in order |
| ChartMDIncidents.CountAppended | models/chartmdIncidents.js:8-9 | a fully stored batch holds one row per occurrence of each `incident_id` in the batch |
| ChartMDIncidents.StoredOccurrences | services/chartmdService.js:45-55 | the stored attempts naming an id are at most its occurrences in the batch, and all of them when the database rejects none |
| ChartMDIncidents.CountStored | models/chartmdIncidents.js:8-9 | whatever the failures, a batch appends exactly one row under an id per stored attempt naming it |
| ChartMDIncidents.HistoryAccumulates | models/chartmdIncidents.js:8-9 | history accumulation: each `incident_id` gains one row per stored insert naming it, on top of the rows already stored, and nothing is merged; when every insert of the batch stores, that is one row per occurrence in the batch |
| ChartMDIncidents.RepeatedInsertKeepsBoth | models/chartmdIncidents.js:33 | two polls that store the same incident leave two more rows under its id |
| ChartMDService.RenderLane | services/chartmdService.js:31 | a rendered lane is never empty |
| ChartMDService.LanesText | services/chartmdService.js:29-32 | the lanes text is the rendered lanes joined by ", " when the list is present; it is empty exactly when the lane list is missing or empty |
| ChartMDService.TwoLanes | services/chartmdService.js:29-32 | two lanes render as `desc (status), desc (status)` |
| ChartMDService.ParticipantsText | services/chartmdService.js:39 | the participants text is the names joined by ", " when the list is present; it is empty exactly when the list is missing, empty, or one empty name |
| ChartMDService.Normalise | services/chartmdService.js:20-41 | id, type, description, county, severity (`type`), coordinates and times pass through; location is `name`, else `other`, else "Unknown"; direction and vehicles default to "Unknown", lanes status to "All lanes open"; none of these is ever empty; lanes and participants are the joined texts; traffic alert is true exactly when the source flag is true; additional data, source and op center are left unset |
| ChartMDService.Prepare | services/chartmdService.js:13-41 | "invalid response" exactly when the response is null, unsuccessful or has no data; "processing failed" exactly when the data cannot be filtered; otherwise exactly one record per position holding a Montgomery event, every record in Montgomery County |
| ChartMDService.IsMontgomery | services/chartmdService.js:19 | an event is kept only when its county is exactly "Montgomery" (strict equality: a missing county is dropped); a kept event normalises to a Montgomery record |
| ChartMDService.RecordsFollowEventOrder | services/chartmdService.js:18-41 | the records follow the export's order: one more event at the end adds its record at the end exactly when it is a Montgomery event |
| ChartMDService.MontgomeryRecordsSnoc | services/chartmdService.js:18-41 | filter-then-map of a sequence with one more event at its end |
| ChartMDService.NormaliseAllAppend | services/chartmdService.js:20-41 | mapping a concatenation maps each part, in order |
| ChartMDService.RecordsComeFromMontgomeryEvents | services/chartmdService.js:18-41 | each record is the normalisation of a Montgomery event |
| ChartMDService.MontgomeryEventsBecomeRecords | services/chartmdService.js:18-19 | each Montgomery event gives a record |
| ChartMDService.ProcessChartMDData | services/chartmdService.js:8-67 | a cycle that stops early returns 0 and attempts nothing; otherwise every record is attempted in order, the count is the number of stored inserts (at most the number of records), earlier entries are untouched and the new rows are exactly those of the stored inserts |
| ChartMDService.InsertEach | services/chartmdService.js:45-60 | the insert loop: every record attempted in order; a failure does not stop later inserts; the count equals the rows appended |
| ChartMDService.InsertStep | services/chartmdService.js:45-55 | one turn of the loop appends the record's row exactly when its insert stores, and keeps earlier entries |
| ChartMDService.OneFailedInsert | services/chartmdService.js:45-55 | when one insert of a cycle fails, the other N - 1 rows are still appended |
| ChartMDService.AllMontgomeryEventsStored | services/chartmdService.js:18-60 | with no database failures and ids present, exactly one row is stored per position holding a Montgomery event, all in Montgomery County |
| ChartMDService.SampleEvent | tests/services/chartmdService.test.js:19-50 | the test's event yields one record with id "test-1", county Montgomery, its name as location, and every default |
| WTOPIncidents.Upserted | models/wtopIncidents.js:32-47 | the keys become the old keys plus the record's id; other rows are unchanged; the SET-list columns take the new values; `reported_time` and `source` keep their stored values on conflict; a new id stores all 11 values |
| WTOPIncidents.Kept | models/wtopIncidents.js:33-35 | the columns outside the SET list, `reported_time` and `source`, take the same-named fields |
| WTOPIncidents.Updated | models/wtopIncidents.js:38-46 | each of the eight SET-list columns takes the same-named field of the record |
| WTOPIncidents.UpsertIdempotent | models/wtopIncidents.js:38-46 | upserting the same record twice leaves the table as upserting it once |
| WTOPIncidents.SecondWriteWins | models/wtopIncidents.js:38-46 | two writes of one id: the second's SET-list columns, the first's (or the stored) creation columns |
| WTOPIncidents.LatestTable.Upsert | models/wtopIncidents.js:31-71 | the error rethrown is exactly the write error; on success the table becomes the upserted table, otherwise it is unchanged; the attempt is logged |
| WTOPIncidents.UpsertedAll | models/wtopIncidents.js:32-47 | the batch upsert of a cycle's records never removes a stored row |
| WTOPIncidents.UntouchedKey | models/wtopIncidents.js:32-47 | an id no stored write of a batch names keeps its row, or its absence |
| WTOPIncidents.LastWriteWins | models/wtopIncidents.js:38-46 | after a batch, an id's SET-list columns are those of the last stored write naming it |
| WTOPIncidents.FirstWriteKeeps | models/wtopIncidents.js:38-46 | after a batch, an id's `reported_time` and `source` are those stored before, or else those of the first stored write naming it |
| WTOPIncidents.BatchIdempotent | models/wtopIncidents.js:38-46 | re-running the same batch with the same failures leaves the table unchanged |
| WTOPIncidents.BatchKeys | models/wtopIncidents.js:7 | after a batch the table holds exactly the old ids and the ids of the stored writes, one row each |
| WTOPService.DigitAfterSpaces | services/wtopService.js:10 | the scan decides `\s*\d` at an offset |
| WTOPService.LookaheadAt | services/wtopService.js:10 | the scan decides the lookahead `(?=\s+\d)` at an offset |
| WTOPService.MatchEndFrom | services/wtopService.js:10 | the lazy search finds the first offset where the lookahead holds without crossing a line terminator, or reports that there is none |
| WTOPService.MatchEnd | services/wtopService.js:10 | `match` returns where the match of `^(.*?)(?=\s+\d)` ends, or no match exactly when none exists |
| WTOPService.MatchEndUnique | services/wtopService.js:10 | the match end is unique |
| WTOPService.ExtractLocation | services/wtopService.js:8-12 | "Unknown Location" for a missing or empty title or one with no match; otherwise the matched prefix, trimmed |
| WTOPService.LocationShape | services/wtopService.js:10-11 | a location lies in the title's first line before the match end, has no white space at either end, and never has white space right before a digit |
| WTOPService.NoDigitAfterSpaceMeansUnknown | services/wtopService.js:10-11 | a title in which no digit follows white space gives "Unknown Location" |
| WTOPService.DetermineSeverity | services/wtopService.js:14-21 | Unknown exactly when both texts are missing or empty; Major exactly when the title has "Long Term" or the description "Fatal"; Moderate exactly when not Major and the description has "Delay" or "Backed up"; Minor otherwise |
| WTOPService.Label | services/wtopService.js:15-20 | the stored severity is one of "Unknown", "Minor", "Moderate", "Major", never empty |
| WTOPService.SeverityGrowsWithDescription | services/wtopService.js:14-21 | a description that contains another never gets a lower severity |
| WTOPService.AdditionalData | services/wtopService.js:43-46 | `link` and `category` appear exactly when the item has them; `category` is the categories joined by ", "; no other key |
| WTOPService.TrafficIncidents | services/wtopService.js:28-47 | exactly one record per position of the feed holding a traffic item, never more than the feed has |
| WTOPService.IsTrafficItem | services/wtopService.js:29-33 | an item is kept when its title contains "Traffic" or its categories include "Traffic" as an element; a kept item with no title has the category, and a kept item with no categories has it in its title |
| WTOPService.ToIncident | services/wtopService.js:34-47 | `incident_id` is the guid; title and description pass through; location is ExtractLocation of the title; severity is the label of DetermineSeverity; lat and lon are unset; reported_time is the pubDate, last_update the cycle's time, source "WTOP"; additional data is AdditionalData of link and categories |
| WTOPService.TrafficIncidentsSnoc | services/wtopService.js:28-47 | the records follow feed order: one more item at the end adds its record at the end exactly when it is a traffic item |
| WTOPService.ToIncidentsAppend | services/wtopService.js:34-47 | mapping a concatenation maps each part, in order |
| WTOPService.RecordsComeFromTrafficItems | services/wtopService.js:28-47 | each record is the mapping of a traffic item, with source "WTOP" and the cycle's time |
| WTOPService.TrafficItemsBecomeRecords | services/wtopService.js:28-33 | each item whose title contains "Traffic" or whose categories include "Traffic" gives a record |
| WTOPService.ProcessWTOPData | services/wtopService.js:23-72 | a rejected feed attempts nothing; otherwise every record is attempted in order, the count is the number of stored upserts, and the table is the batch upsert of the records |
| WTOPService.UpsertEach | services/wtopService.js:51-64 | the upsert loop: every record attempted in order; a failure does not stop later upserts; the count equals the stored upserts |
| WTOPService.NewKeysAreWTOP | services/wtopService.js:42 | an id first stored by a cycle keeps the source "WTOP" |
| WTOPService.SampleLocation | tests/services/wtopService.test.js:21-30 | the test title "Traffic Alert: Accident on I-495" has location "Unknown Location" |
| WTOPService.SampleSeverity | tests/services/wtopService.test.js:21-30 | the test item's severity is Minor: matching is case-sensitive, so "delays" is not "Delay" |
| WTOPService.SampleTrafficItem | tests/services/wtopService.test.js:21-45 | the test item gives one record with id "wtop-1", source "WTOP", and the category "Traffic" in its additional data |

## Left out

- Logging (`debug`, `info`, `_error`), the scheduler in `index.js`, the pool and environment configuration, table creation and index DDL: these are side effects or process scaffolding. The DDL is used only for the key and NOT NULL constraints.
- `fetchData` and the `rss-parser` network fetch: the model takes the payload or feed as an input value.
- Timestamps: `new Date(...)` parsing and `new Date()` are opaque `Instant` values passed through. One `now` is taken per WTOP cycle, although the code reads the clock once per record.
- `lat` and `lon` are opaque pass-through values. Floating point is not modelled.
- JavaScript values other than the ones modelled are not represented: numbers or objects where strings are expected, a truthy non-boolean `trafficAlert`, or non-string participants and categories.
- `Malformed` ChartMD data stands for every payload on which `filter`/`map` would throw, such as a non-array `data`, a null event or a non-array `lanes`. The model does not represent the shape of such payloads.
- Database failures other than a missing `incident_id` are an oracle (`failAt`): VARCHAR length limits, type errors and connection loss. `recorded_at` and the gaps BIGSERIAL leaves after a failed insert are not modelled; the model takes `entry_id`s from a counter that advances only on success.
- ProcessWTOPData: the source function returns nothing (`undefined`). The model returns the count that the function logs.
- ChartMDService.Normalise: the service never sets `additionalData`, `source` or `opCenter`, which the insert reads. So in this code every ChartMD row gets `additional_data = {}` and NULL `source` and `op_center`. The model keeps these fields and states that they are unset.
