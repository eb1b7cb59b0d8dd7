/** The `chartmd_incidents` table: an append-only history. Every successful
    insert adds one row under a fresh `entry_id` (a BIGSERIAL key), so the
    same `incident_id` may be stored any number of times. */
module ChartMDIncidents {
  import opened Wrappers
  import opened JsValues
  import opened Db
  import opened SeqFacts

  /** The object handed to `insertChartMDIncident`: the fields the ChartMD
      service fills in, plus `additionalData`, `source` and `opCenter`, which
      the insert reads as well. */
  datatype ChartMDIncident = ChartMDIncident(
    incidentId: Option<string>,
    incidentType: Option<string>,
    description: Option<string>,
    location: string,
    county: Option<string>,
    severity: Option<int>,
    lat: Option<Coordinate>,
    lon: Option<Coordinate>,
    lanes: string,
    createTime: Instant,
    startTime: Instant,
    lastUpdate: Instant,
    direction: string,
    vehiclesInvolved: string,
    lanesStatus: string,
    participants: string,
    trafficAlert: bool,
    additionalData: Option<Json>,
    source: Option<string>,
    opCenter: Option<string>)

  /** The 20 columns the insert writes, in the order of its column list.
      `incident_id` is NOT NULL, so a stored row always has one. */
  datatype ChartMDRow = ChartMDRow(
    incidentId: string,
    incidentType: Option<string>,
    description: Option<string>,
    location: string,
    county: Option<string>,
    severity: Option<int>,
    lat: Option<Coordinate>,
    lon: Option<Coordinate>,
    lanes: string,
    createTime: Instant,
    startTime: Instant,
    lastUpdate: Instant,
    direction: string,
    vehiclesInvolved: string,
    lanesStatus: string,
    participants: string,
    trafficAlert: bool,
    additionalData: Json,
    source: Option<string>,
    opCenter: Option<string>)

  /** A stored row under its `entry_id`. */
  datatype Entry = Entry(entryId: nat, row: ChartMDRow)

  /** The incident a stored row reads back as; inserting it again stores the
      same row. */
  function FromRow(row: ChartMDRow): (incident: ChartMDIncident)
    ensures incident.incidentId.Some? && ToRow(incident) == row
  {
    ChartMDIncident(
      Some(row.incidentId), row.incidentType, row.description, row.location,
      row.county, row.severity, row.lat, row.lon, row.lanes, row.createTime,
      row.startTime, row.lastUpdate, row.direction, row.vehiclesInvolved,
      row.lanesStatus, row.participants, row.trafficAlert,
      Some(row.additionalData), row.source, row.opCenter)
  }

  /** The parameters of the INSERT, positionally bound to the 20 columns.
      A missing `additionalData` is stored as the empty object
      (`additionalData || {}`). */
  function ToRow(incident: ChartMDIncident): (row: ChartMDRow)
    requires incident.incidentId.Some?
    ensures row.incidentId == incident.incidentId.value && row.incidentType == incident.incidentType
    ensures row.description == incident.description && row.location == incident.location
    ensures row.county == incident.county && row.severity == incident.severity
    ensures row.lat == incident.lat && row.lon == incident.lon && row.lanes == incident.lanes
    ensures row.createTime == incident.createTime && row.startTime == incident.startTime
    ensures row.lastUpdate == incident.lastUpdate
    ensures row.direction == incident.direction && row.vehiclesInvolved == incident.vehiclesInvolved
    ensures row.lanesStatus == incident.lanesStatus && row.participants == incident.participants
    ensures row.trafficAlert == incident.trafficAlert
    ensures row.additionalData == incident.additionalData.GetOr(map[])
    ensures incident.additionalData.None? ==> row.additionalData == map[]
    ensures row.source == incident.source && row.opCenter == incident.opCenter
  {
    ChartMDRow(
      incident.incidentId.value, incident.incidentType, incident.description,
      incident.location, incident.county, incident.severity, incident.lat,
      incident.lon, incident.lanes, incident.createTime, incident.startTime,
      incident.lastUpdate, incident.direction, incident.vehiclesInvolved,
      incident.lanesStatus, incident.participants, incident.trafficAlert,
      incident.additionalData.GetOr(map[]), incident.source, incident.opCenter)
  }

  /** Nothing of an incident is lost in its row: reading the row back gives
      the incident again, with `additionalData` defaulted. */
  lemma RowRoundTrip(incident: ChartMDIncident)
    requires incident.incidentId.Some?
    ensures FromRow(ToRow(incident)) == incident.(additionalData := Some(incident.additionalData.GetOr(map[])))
  {
  }

  /** The rows of a sequence of entries, in table order. */
  function RowsOf(entries: seq<Entry>): (rows: seq<ChartMDRow>)
    ensures |rows| == |entries|
    ensures forall i :: 0 <= i < |entries| ==> rows[i] == entries[i].row
  {
    if entries == [] then [] else RowsOf(entries[..|entries| - 1]) + [entries[|entries| - 1].row]
  }

  class HistoryTable {
    /** The table's rows, in insertion order. */
    var entries: seq<Entry>
    /** The next value of the BIGSERIAL sequence behind `entry_id`. */
    var nextEntryId: nat
    /** Every incident handed to `Insert`, whether it was stored or not. */
    ghost var attempts: seq<ChartMDIncident>

    /** `entry_id` is the primary key: entries carry distinct ids, increasing
        in insertion order and below the next sequence value. */
    ghost predicate Valid()
      reads this
    {
      && 1 <= nextEntryId
      && (forall i, j :: 0 <= i < j < |entries| ==> entries[i].entryId < entries[j].entryId)
      && (forall i :: 0 <= i < |entries| ==> entries[i].entryId < nextEntryId)
    }

    constructor ()
      ensures Valid()
      ensures entries == [] && attempts == []
    {
      entries := [];
      nextEntryId := 1;
      attempts := [];
    }

    /** `insertChartMDIncident`: append one row, or rethrow. `accepted` says
        whether the database executes the statement. */
    method Insert(incident: ChartMDIncident, accepted: bool) returns (r: Result<bool, DbError>)
      requires Valid()
      modifies this
      ensures Valid()
      ensures r == (if Writes(incident.incidentId, accepted) then Success(true)
                    else Failure(WriteError(incident.incidentId, accepted).value))
      ensures r.Success? ==> entries == old(entries) + [Entry(old(nextEntryId), ToRow(incident))]
      ensures r.Failure? ==> entries == old(entries)
      ensures attempts == old(attempts) + [incident]
    {
      attempts := attempts + [incident];
      var err := WriteError(incident.incidentId, accepted);
      if err.Some? {
        return Failure(err.value);
      }
      entries := entries + [Entry(nextEntryId, ToRow(incident))];
      nextEntryId := nextEntryId + 1;
      r := Success(true);
    }
  }

  /** The `incident_id` of each incident of a batch. */
  function Ids(batch: seq<ChartMDIncident>): (ids: seq<Option<string>>)
    ensures |ids| == |batch|
    ensures forall k :: 0 <= k < |batch| ==> ids[k] == batch[k].incidentId
  {
    seq(|batch|, k requires 0 <= k < |batch| => batch[k].incidentId)
  }

  /** The rows that inserting `batch` one incident at a time appends, when
      the database rejects attempt `k` exactly when `k` is in `failAt`: one
      row per stored incident, in batch order. */
  function AppendedRows(batch: seq<ChartMDIncident>, failAt: set<nat>): (rows: seq<ChartMDRow>)
    ensures |rows| == WrittenCount(Ids(batch), failAt)
  {
    if batch == [] then []
    else
      var k := |batch| - 1;
      assert Ids(batch)[..k] == Ids(batch[..k]);
      var prev := AppendedRows(batch[..k], failAt);
      if Writes(batch[k].incidentId, k !in failAt) then prev + [ToRow(batch[k])] else prev
  }

  /** When every attempt of a batch stores its row, the rows appended are
      the batch's rows, one per incident and in order. */
  lemma {:induction false} AllStored(batch: seq<ChartMDIncident>, failAt: set<nat>)
    requires forall k :: 0 <= k < |batch| ==> Writes(batch[k].incidentId, k !in failAt)
    ensures var rows := AppendedRows(batch, failAt);
            |rows| == |batch| && forall k :: 0 <= k < |batch| ==> rows[k] == ToRow(batch[k])
    decreases |batch|
  {
    if batch != [] {
      var n := |batch| - 1;
      var prev := AppendedRows(batch[..n], failAt);
      AppendedRowsSnoc(batch, failAt, n);
      TakeAll(batch);
      AllStored(batch[..n], failAt);
      forall k | 0 <= k < n
        ensures prev[k] == ToRow(batch[k])
      {
        assert batch[..n][k] == batch[k];
      }
    }
  }

  lemma {:induction false} RowsOfSnoc(entries: seq<Entry>, entry: Entry)
    ensures RowsOf(entries + [entry]) == RowsOf(entries) + [entry.row]
  {
    assert (entries + [entry])[..|entries|] == entries;
  }

  /** One more attempt of a batch appends its row exactly when it is stored. */
  lemma {:induction false} AppendedRowsSnoc(batch: seq<ChartMDIncident>, failAt: set<nat>, i: nat)
    requires i < |batch|
    ensures AppendedRows(batch[..i + 1], failAt) ==
              AppendedRows(batch[..i], failAt) + (if Writes(batch[i].incidentId, i !in failAt) then [ToRow(batch[i])] else [])
  {
    assert batch[..i + 1][..i] == batch[..i];
  }

  /** The number of rows stored under `id`. */
  function CountId(rows: seq<ChartMDRow>, id: string): (n: nat)
    ensures n <= |rows|
  {
    if rows == [] then 0
    else CountId(rows[..|rows| - 1], id) + (if rows[|rows| - 1].incidentId == id then 1 else 0)
  }

  /** The number of occurrences of `Some(id)` in a batch's identifiers. */
  function Occurrences(ids: seq<Option<string>>, id: string): (n: nat)
    ensures n <= |ids|
  {
    if ids == [] then 0
    else Occurrences(ids[..|ids| - 1], id) + (if ids[|ids| - 1] == Some(id) then 1 else 0)
  }

  lemma {:induction false} CountIdAppend(a: seq<ChartMDRow>, b: seq<ChartMDRow>, id: string)
    ensures CountId(a + b, id) == CountId(a, id) + CountId(b, id)
    decreases |b|
  {
    if b != [] {
      var n := |b| - 1;
      assert (a + b)[..|a + b| - 1] == a + b[..n];
      assert (a + b)[|a + b| - 1] == b[n];
      CountIdAppend(a, b[..n], id);
    } else {
      assert a + b == a;
    }
  }

  lemma CountIdSnoc(rows: seq<ChartMDRow>, row: ChartMDRow, id: string)
    ensures CountId(rows + [row], id) == CountId(rows, id) + (if row.incidentId == id then 1 else 0)
  {
    assert (rows + [row])[..|rows|] == rows;
  }

  /** The number of attempts of a batch that store a row under `id`: the
      positions holding `Some(id)` whose statement the database accepts. */
  function StoredOccurrences(ids: seq<Option<string>>, failAt: set<nat>, id: string): (n: nat)
    ensures n <= Occurrences(ids, id)
    ensures (forall k :: 0 <= k < |ids| ==> k !in failAt) ==> n == Occurrences(ids, id)
  {
    if ids == [] then 0
    else
      var k := |ids| - 1;
      StoredOccurrences(ids[..k], failAt, id) + (if ids[k] == Some(id) && k !in failAt then 1 else 0)
  }

  /** A batch appends one row under `id` per stored attempt naming `id`. */
  lemma {:induction false} CountStored(batch: seq<ChartMDIncident>, failAt: set<nat>, id: string)
    ensures CountId(AppendedRows(batch, failAt), id) == StoredOccurrences(Ids(batch), failAt, id)
    decreases |batch|
  {
    if batch != [] {
      var n := |batch| - 1;
      AppendedRowsSnoc(batch, failAt, n);
      TakeAll(batch);
      CountStored(batch[..n], failAt, id);
      if Writes(batch[n].incidentId, n !in failAt) {
        CountIdSnoc(AppendedRows(batch[..n], failAt), ToRow(batch[n]), id);
      } else {
        AppendNothing(AppendedRows(batch[..n], failAt));
      }
      assert Ids(batch)[..n] == Ids(batch[..n]);
    }
  }

  /** A fully stored batch holds as many rows under `id` as the batch has
      occurrences of it. */
  lemma {:induction false} CountAppended(batch: seq<ChartMDIncident>, failAt: set<nat>, id: string)
    requires forall k :: 0 <= k < |batch| ==> Writes(batch[k].incidentId, k !in failAt)
    ensures CountId(AppendedRows(batch, failAt), id) == Occurrences(Ids(batch), id)
    decreases |batch|
  {
    if batch != [] {
      var n := |batch| - 1;
      AppendedRowsSnoc(batch, failAt, n);
      TakeAll(batch);
      CountAppended(batch[..n], failAt, id);
      CountIdSnoc(AppendedRows(batch[..n], failAt), ToRow(batch[n]), id);
      assert Ids(batch)[..n] == Ids(batch[..n]);
    }
  }

  /** History accumulation: each `incident_id` gains exactly one row per
      stored insert naming it, on top of those already stored; nothing is
      merged. When every insert of the batch stores, that is one row per
      occurrence in the batch. */
  lemma HistoryAccumulates(prior: seq<ChartMDRow>, batch: seq<ChartMDIncident>, failAt: set<nat>, id: string)
    ensures CountId(prior + AppendedRows(batch, failAt), id) ==
              CountId(prior, id) + StoredOccurrences(Ids(batch), failAt, id)
    ensures (forall k :: 0 <= k < |batch| ==> Writes(batch[k].incidentId, k !in failAt)) ==>
              CountId(prior + AppendedRows(batch, failAt), id) == CountId(prior, id) + Occurrences(Ids(batch), id)
  {
    CountIdAppend(prior, AppendedRows(batch, failAt), id);
    CountStored(batch, failAt, id);
    if forall k :: 0 <= k < |batch| ==> Writes(batch[k].incidentId, k !in failAt) {
      CountAppended(batch, failAt, id);
    }
  }

  /** Two polls that each store the same incident leave two more rows under
      its identifier. */
  lemma RepeatedInsertKeepsBoth(prior: seq<ChartMDRow>, incident: ChartMDIncident)
    requires incident.incidentId.Some?
    ensures var rows := prior + AppendedRows([incident], {}) + AppendedRows([incident], {});
            CountId(rows, incident.incidentId.value) == CountId(prior, incident.incidentId.value) + 2
  {
    var id := incident.incidentId.value;
    var once := prior + AppendedRows([incident], {});
    HistoryAccumulates(prior, [incident], {}, id);
    HistoryAccumulates(once, [incident], {}, id);
  }
}
