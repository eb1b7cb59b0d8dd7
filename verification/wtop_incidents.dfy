/** The `wtop_incidents` table: latest state per incident. `incident_id` is
    the primary key; an insert whose key is already stored overwrites the
    columns of the ON CONFLICT ... DO UPDATE SET list and keeps the rest. */
module WTOPIncidents {
  import opened Wrappers
  import opened JsValues
  import opened Db

  /** The object handed to `insertWTOPIncident`, as the WTOP service builds
      it (`lat` and `lon` are never set there and read as `undefined`). */
  datatype WTOPIncident = WTOPIncident(
    incidentId: Option<string>,
    title: Option<string>,
    description: Option<string>,
    location: string,
    severity: string,
    lat: Option<Coordinate>,
    lon: Option<Coordinate>,
    reportedTime: Instant,
    lastUpdate: Instant,
    source: string,
    additionalData: Json)

  /** The columns a conflicting insert leaves as they were first stored. */
  datatype KeptColumns = KeptColumns(reportedTime: Instant, source: string)

  /** The columns of the SET list: a conflicting insert overwrites them. */
  datatype UpdatedColumns = UpdatedColumns(
    title: Option<string>,
    description: Option<string>,
    location: string,
    severity: string,
    lat: Option<Coordinate>,
    lon: Option<Coordinate>,
    lastUpdate: Instant,
    additionalData: Json)

  /** A stored row, without its key. */
  datatype WTOPRow = WTOPRow(kept: KeptColumns, updated: UpdatedColumns)

  /** The columns a new key stores and a conflict keeps. */
  function Kept(incident: WTOPIncident): (kept: KeptColumns)
    ensures kept.reportedTime == incident.reportedTime && kept.source == incident.source
  {
    KeptColumns(incident.reportedTime, incident.source)
  }

  /** The SET list: each column takes the value of the same-named field. */
  function Updated(incident: WTOPIncident): (cols: UpdatedColumns)
    ensures cols.title == incident.title && cols.description == incident.description
    ensures cols.location == incident.location && cols.severity == incident.severity
    ensures cols.lat == incident.lat && cols.lon == incident.lon
    ensures cols.lastUpdate == incident.lastUpdate && cols.additionalData == incident.additionalData
  {
    UpdatedColumns(incident.title, incident.description, incident.location,
                   incident.severity, incident.lat, incident.lon,
                   incident.lastUpdate, incident.additionalData)
  }

  /** The incident that a row stored under `id` reads back as. */
  function FromRow(id: string, row: WTOPRow): WTOPIncident {
    WTOPIncident(Some(id), row.updated.title, row.updated.description,
                 row.updated.location, row.updated.severity, row.updated.lat,
                 row.updated.lon, row.kept.reportedTime, row.updated.lastUpdate,
                 row.kept.source, row.updated.additionalData)
  }

  /** The table after the INSERT ... ON CONFLICT (incident_id) DO UPDATE of
      `incident`. A new key gets a row holding all 11 values; a stored key
      gets the new SET-list columns and keeps `reported_time` and `source`;
      no other row changes. */
  function Upserted(table: map<string, WTOPRow>, incident: WTOPIncident): (t: map<string, WTOPRow>)
    requires incident.incidentId.Some?
    ensures t.Keys == table.Keys + {incident.incidentId.value}
    ensures forall id :: id in table && id != incident.incidentId.value ==> t[id] == table[id]
    ensures t[incident.incidentId.value].updated == Updated(incident)
    ensures t[incident.incidentId.value].kept ==
              if incident.incidentId.value in table then table[incident.incidentId.value].kept else Kept(incident)
    ensures incident.incidentId.value !in table ==> FromRow(incident.incidentId.value, t[incident.incidentId.value]) == incident
  {
    var id := incident.incidentId.value;
    var kept := if id in table then table[id].kept else Kept(incident);
    table[id := WTOPRow(kept, Updated(incident))]
  }

  /** Upserting the same incident a second time leaves the table as the
      first upsert left it. */
  lemma UpsertIdempotent(table: map<string, WTOPRow>, incident: WTOPIncident)
    requires incident.incidentId.Some?
    ensures Upserted(Upserted(table, incident), incident) == Upserted(table, incident)
  {
    var once := Upserted(table, incident);
    var twice := Upserted(once, incident);
    assert twice.Keys == once.Keys;
    assert forall id :: id in once ==> twice[id] == once[id];
  }

  /** Two writes of one key leave one row: the second write's SET-list
      columns, and the creation columns from before both. */
  lemma SecondWriteWins(table: map<string, WTOPRow>, first: WTOPIncident, second: WTOPIncident)
    requires first.incidentId.Some? && second.incidentId == first.incidentId
    ensures var t := Upserted(Upserted(table, first), second);
            var id := first.incidentId.value;
            && t.Keys == table.Keys + {id}
            && t[id].updated == Updated(second)
            && t[id].kept == (if id in table then table[id].kept else Kept(first))
  {
  }

  class LatestTable {
    /** The rows, keyed by `incident_id`: at most one row per key. */
    var rows: map<string, WTOPRow>
    /** Every incident handed to `Upsert`, whether it was stored or not. */
    ghost var attempts: seq<WTOPIncident>

    constructor ()
      ensures rows == map[] && attempts == []
    {
      rows := map[];
      attempts := [];
    }

    /** `insertWTOPIncident`: insert or update one row, or rethrow.
        `accepted` says whether the database executes the statement. */
    method Upsert(incident: WTOPIncident, accepted: bool) returns (r: Option<DbError>)
      modifies this
      ensures r == WriteError(incident.incidentId, accepted)
      ensures rows == if r.None? then Upserted(old(rows), incident) else old(rows)
      ensures attempts == old(attempts) + [incident]
    {
      attempts := attempts + [incident];
      r := WriteError(incident.incidentId, accepted);
      if r.None? {
        var id := incident.incidentId.value;
        if id in rows {
          rows := rows[id := WTOPRow(rows[id].kept, Updated(incident))];
        } else {
          rows := rows[id := WTOPRow(Kept(incident), Updated(incident))];
        }
      }
    }
  }

  /** The `incident_id` of each incident of a batch. */
  function Ids(batch: seq<WTOPIncident>): (ids: seq<Option<string>>)
    ensures |ids| == |batch|
    ensures forall k :: 0 <= k < |batch| ==> ids[k] == batch[k].incidentId
  {
    seq(|batch|, k requires 0 <= k < |batch| => batch[k].incidentId)
  }

  /** The table after upserting `batch` one incident at a time, when the
      database rejects attempt `k` exactly when `k` is in `failAt`. */
  function UpsertedAll(table: map<string, WTOPRow>, batch: seq<WTOPIncident>, failAt: set<nat>): (t: map<string, WTOPRow>)
    ensures table.Keys <= t.Keys
  {
    if batch == [] then table
    else
      var k := |batch| - 1;
      var prev := UpsertedAll(table, batch[..k], failAt);
      if Writes(batch[k].incidentId, k !in failAt) then Upserted(prev, batch[k]) else prev
  }

  /** One more attempt of a batch upserts its incident exactly when it is
      stored. */
  lemma {:induction false} UpsertedAllSnoc(table: map<string, WTOPRow>, batch: seq<WTOPIncident>, failAt: set<nat>, i: nat)
    requires i < |batch|
    ensures UpsertedAll(table, batch[..i + 1], failAt) ==
              if Writes(batch[i].incidentId, i !in failAt)
              then Upserted(UpsertedAll(table, batch[..i], failAt), batch[i])
              else UpsertedAll(table, batch[..i], failAt)
  {
    assert batch[..i + 1][..i] == batch[..i];
  }

  /** Attempt `k` of the batch stores a row under `id`. */
  predicate WrittenWithId(batch: seq<WTOPIncident>, failAt: set<nat>, k: nat, id: string) {
    k < |batch| && k !in failAt && batch[k].incidentId == Some(id)
  }

  /** A key no stored attempt of the batch names keeps its row, or its absence. */
  lemma {:induction false} UntouchedKey(table: map<string, WTOPRow>, batch: seq<WTOPIncident>, failAt: set<nat>, id: string)
    requires forall k: nat :: !WrittenWithId(batch, failAt, k, id)
    ensures var t := UpsertedAll(table, batch, failAt);
            (id in t <==> id in table) && (id in table ==> t[id] == table[id])
    decreases |batch|
  {
    if batch != [] {
      var n := |batch| - 1;
      assert forall k: nat :: WrittenWithId(batch[..n], failAt, k, id) ==> WrittenWithId(batch, failAt, k, id);
      UntouchedKey(table, batch[..n], failAt, id);
      assert !WrittenWithId(batch, failAt, n, id);
    }
  }

  /** Last write wins: the SET-list columns of a key are those of the last
      stored attempt that names it. */
  lemma {:induction false} LastWriteWins(table: map<string, WTOPRow>, batch: seq<WTOPIncident>, failAt: set<nat>, k: nat, id: string)
    requires WrittenWithId(batch, failAt, k, id)
    requires forall j: nat :: k < j ==> !WrittenWithId(batch, failAt, j, id)
    ensures var t := UpsertedAll(table, batch, failAt);
            id in t && t[id].updated == Updated(batch[k])
    decreases |batch|
  {
    var n := |batch| - 1;
    if k < n {
      assert forall j: nat :: WrittenWithId(batch[..n], failAt, j, id) ==> WrittenWithId(batch, failAt, j, id);
      assert WrittenWithId(batch[..n], failAt, k, id);
      LastWriteWins(table, batch[..n], failAt, k, id);
      assert !WrittenWithId(batch, failAt, n, id);
    }
  }

  /** First write keeps: `reported_time` and `source` of a key are those it
      was stored with before the batch, or else those of the first stored
      attempt that names it. */
  lemma {:induction false} FirstWriteKeeps(table: map<string, WTOPRow>, batch: seq<WTOPIncident>, failAt: set<nat>, k: nat, id: string)
    requires WrittenWithId(batch, failAt, k, id)
    requires forall j: nat :: j < k ==> !WrittenWithId(batch, failAt, j, id)
    ensures var t := UpsertedAll(table, batch, failAt);
            id in t && t[id].kept == (if id in table then table[id].kept else Kept(batch[k]))
    decreases |batch|
  {
    var n := |batch| - 1;
    assert forall j: nat :: WrittenWithId(batch[..n], failAt, j, id) ==> WrittenWithId(batch, failAt, j, id);
    if k < n {
      assert WrittenWithId(batch[..n], failAt, k, id);
      FirstWriteKeeps(table, batch[..n], failAt, k, id);
    } else {
      UntouchedKey(table, batch[..n], failAt, id);
    }
  }

  /** The last stored attempt of the batch that names `id`. */
  lemma {:induction false} LastWritten(batch: seq<WTOPIncident>, failAt: set<nat>, k0: nat, id: string) returns (k: nat)
    requires WrittenWithId(batch, failAt, k0, id)
    ensures k0 <= k && WrittenWithId(batch, failAt, k, id)
    ensures forall j: nat :: k < j ==> !WrittenWithId(batch, failAt, j, id)
    decreases |batch| - k0
  {
    if j: nat :| k0 < j && WrittenWithId(batch, failAt, j, id) {
      k := LastWritten(batch, failAt, j, id);
    } else {
      k := k0;
    }
  }

  /** The first stored attempt of the batch that names `id`. */
  lemma {:induction false} FirstWritten(batch: seq<WTOPIncident>, failAt: set<nat>, k0: nat, id: string) returns (k: nat)
    requires WrittenWithId(batch, failAt, k0, id)
    ensures k <= k0 && WrittenWithId(batch, failAt, k, id)
    ensures forall j: nat :: j < k ==> !WrittenWithId(batch, failAt, j, id)
    decreases k0
  {
    if j: nat :| j < k0 && WrittenWithId(batch, failAt, j, id) {
      k := FirstWritten(batch, failAt, j, id);
    } else {
      k := k0;
    }
  }

  /** Re-polling an unchanged feed: upserting the same batch again, with the
      same attempts failing, leaves the table as the first pass left it. */
  lemma BatchIdempotent(table: map<string, WTOPRow>, batch: seq<WTOPIncident>, failAt: set<nat>)
    ensures UpsertedAll(UpsertedAll(table, batch, failAt), batch, failAt) == UpsertedAll(table, batch, failAt)
  {
    var once := UpsertedAll(table, batch, failAt);
    var twice := UpsertedAll(once, batch, failAt);
    forall id
      ensures (id in twice <==> id in once) && (id in once ==> twice[id] == once[id])
    {
      if k0: nat :| WrittenWithId(batch, failAt, k0, id) {
        var last := LastWritten(batch, failAt, k0, id);
        var first := FirstWritten(batch, failAt, k0, id);
        LastWriteWins(table, batch, failAt, last, id);
        LastWriteWins(once, batch, failAt, last, id);
        FirstWriteKeeps(table, batch, failAt, first, id);
        FirstWriteKeeps(once, batch, failAt, first, id);
      } else {
        UntouchedKey(table, batch, failAt, id);
        UntouchedKey(once, batch, failAt, id);
      }
    }
    assert twice.Keys == once.Keys;
  }

  /** After a batch the table holds exactly the keys it held before and the
      keys of the stored attempts. */
  lemma BatchKeys(table: map<string, WTOPRow>, batch: seq<WTOPIncident>, failAt: set<nat>, id: string)
    ensures id in UpsertedAll(table, batch, failAt) <==> id in table || exists k: nat :: WrittenWithId(batch, failAt, k, id)
  {
    if k: nat :| WrittenWithId(batch, failAt, k, id) {
      var last := LastWritten(batch, failAt, k, id);
      LastWriteWins(table, batch, failAt, last, id);
    } else {
      UntouchedKey(table, batch, failAt, id);
    }
  }
}
