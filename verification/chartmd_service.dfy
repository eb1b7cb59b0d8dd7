/** `processChartMDData`: validate the fetched ChartMD export, keep the
    Montgomery County events, normalise each into a `chartmd_incidents`
    record, and insert the records one at a time, counting the successes. */
module ChartMDService {
  import opened Wrappers
  import opened JsValues
  import opened Db
  import opened ChartMDIncidents
  import opened SeqFacts

  const MONTGOMERY := "Montgomery"

  /** One entry of an event's `lanes` array. */
  datatype Lane = Lane(laneDescription: Option<string>, laneStatus: Option<string>)

  /** One event of the export's `data` array. `typeCode` is the JSON field
      `type`, the numeric severity; the three times are the values
      `new Date(...)` makes of `createTime`, `startDateTime` and
      `lastCachedDataUpdateTime`. */
  datatype ChartItem = ChartItem(
    id: Option<string>,
    incidentType: Option<string>,
    description: Option<string>,
    name: Option<string>,
    other: Option<string>,
    county: Option<string>,
    typeCode: Option<int>,
    lat: Option<Coordinate>,
    lon: Option<Coordinate>,
    lanes: Option<seq<Lane>>,
    createTime: Instant,
    startDateTime: Instant,
    lastCachedDataUpdateTime: Instant,
    direction: Option<string>,
    vehicles: Option<string>,
    lanesStatus: Option<string>,
    participants: Option<seq<string>>,
    trafficAlert: Option<bool>)

  /** The `data` member of the response: missing or otherwise falsy, present
      but not something `filter` and `map` can walk (a non-array, a null
      event, a non-array `lanes`), or an array of events. */
  datatype ChartData = Absent | Malformed | Items(items: seq<ChartItem>)

  /** The body `fetchData` resolves to when the request succeeds. */
  datatype ChartResponse = ChartResponse(success: bool, data: ChartData)

  /** Why a cycle stops before any insert: a response that fails the
      structure check, or an exception while filtering and mapping. */
  datatype CycleFault = InvalidResponse | ProcessingFailed

  /** A value as a template literal renders it (`undefined` for a missing one). */
  function Render(s: Option<string>): string {
    s.GetOr("undefined")
  }

  /** `${lane.laneDescription} (${lane.laneStatus})` */
  function RenderLane(lane: Lane): (r: string)
    ensures r != ""
  {
    Render(lane.laneDescription) + " (" + Render(lane.laneStatus) + ")"
  }

  /** `lanes?.map(RenderLane).join(', ') || ''`: empty exactly when the lane
      list is missing or empty. */
  function LanesText(lanes: Option<seq<Lane>>): (r: string)
    ensures r == "" <==> lanes.None? || lanes.value == []
    ensures lanes.Some? ==>
              r == Join(seq(|lanes.value|, i requires 0 <= i < |lanes.value| => RenderLane(lanes.value[i])), ", ")
  {
    match lanes
    case None => ""
    case Some(ls) =>
      var rendered := seq(|ls|, i requires 0 <= i < |ls| => RenderLane(ls[i]));
      assert |ls| > 0 ==> rendered[0] != "";
      Or(Some(Join(rendered, ", ")), "")
  }

  /** Two lanes render as "desc (status), desc (status)". */
  lemma TwoLanes(first: Lane, second: Lane)
    ensures LanesText(Some([first, second])) == RenderLane(first) + ", " + RenderLane(second)
  {
    var rendered := [RenderLane(first), RenderLane(second)];
    assert seq(2, i requires 0 <= i < 2 => RenderLane([first, second][i])) == rendered;
    assert rendered[1..] == [RenderLane(second)];
  }

  /** `participants?.join(', ') || ''`: empty exactly when the list is
      missing, empty, or a single empty name. */
  function ParticipantsText(participants: Option<seq<string>>): (r: string)
    ensures r == "" <==> participants.None? || participants.value == [] || participants.value == [""]
    ensures participants.Some? ==> r == Join(participants.value, ", ")
  {
    match participants
    case None => ""
    case Some(ps) =>
      assert |ps| == 1 ==> (ps == [""] <==> ps[0] == "");
      Or(Some(Join(ps, ", ")), "")
  }

  /** The county filter: strict equality with "Montgomery", so an event
      with no county, or with any other spelling or case, is dropped. */
  function IsMontgomery(item: ChartItem): (keep: bool)
    ensures keep ==> item.county.Some? && item.county.value == MONTGOMERY
    ensures item.county.None? ==> !keep
    ensures keep ==> Normalise(item).county == Some(MONTGOMERY)
  {
    item.county == Some(MONTGOMERY)
  }

  /** The record built for one event. Identifier, type, description,
      county, coordinates and times pass through; `location` is `name`, else
      `other`, else "Unknown"; the text defaults are never empty; the three
      fields the insert also reads are left unset. */
  function Normalise(item: ChartItem): (r: ChartMDIncident)
    ensures r.incidentId == item.id && r.severity == item.typeCode && r.county == item.county
    ensures r.incidentType == item.incidentType && r.description == item.description
    ensures r.lat == item.lat && r.lon == item.lon
    ensures r.createTime == item.createTime && r.startTime == item.startDateTime
    ensures r.lastUpdate == item.lastCachedDataUpdateTime
    ensures Truthy(item.name) ==> r.location == item.name.value
    ensures !Truthy(item.name) && Truthy(item.other) ==> r.location == item.other.value
    ensures !Truthy(item.name) && !Truthy(item.other) ==> r.location == "Unknown"
    ensures r.direction == (if Truthy(item.direction) then item.direction.value else "Unknown")
    ensures r.vehiclesInvolved == (if Truthy(item.vehicles) then item.vehicles.value else "Unknown")
    ensures r.lanesStatus == (if Truthy(item.lanesStatus) then item.lanesStatus.value else "All lanes open")
    ensures r.location != "" && r.direction != "" && r.vehiclesInvolved != "" && r.lanesStatus != ""
    ensures r.lanes == "" <==> item.lanes.None? || item.lanes.value == []
    ensures r.participants == "" <==> item.participants.None? || item.participants.value == [] || item.participants.value == [""]
    ensures r.lanes == LanesText(item.lanes) && r.participants == ParticipantsText(item.participants)
    ensures r.trafficAlert <==> item.trafficAlert == Some(true)
    ensures r.additionalData.None? && r.source.None? && r.opCenter.None?
  {
    ChartMDIncident(
      incidentId := item.id,
      incidentType := item.incidentType,
      description := item.description,
      location := Or(item.name, Or(item.other, "Unknown")),
      county := item.county,
      severity := item.typeCode,
      lat := item.lat,
      lon := item.lon,
      lanes := LanesText(item.lanes),
      createTime := item.createTime,
      startTime := item.startDateTime,
      lastUpdate := item.lastCachedDataUpdateTime,
      direction := Or(item.direction, "Unknown"),
      vehiclesInvolved := Or(item.vehicles, "Unknown"),
      lanesStatus := Or(item.lanesStatus, "All lanes open"),
      participants := ParticipantsText(item.participants),
      trafficAlert := item.trafficAlert == Some(true),
      additionalData := None,
      source := None,
      opCenter := None)
  }

  /** `events.map(Normalise)`. */
  function NormaliseAll(events: seq<ChartItem>): (r: seq<ChartMDIncident>)
    ensures |r| == |events|
  {
    if events == [] then [] else [Normalise(events[0])] + NormaliseAll(events[1..])
  }

  /** Normalising a concatenation normalises each part, in order. */
  lemma {:induction false} NormaliseAllAppend(a: seq<ChartItem>, b: seq<ChartItem>)
    ensures NormaliseAll(a + b) == NormaliseAll(a) + NormaliseAll(b)
  {
    if a == [] {
      assert a + b == b;
    } else {
      assert (a + b)[0] == a[0];
      assert (a + b)[1..] == a[1..] + b;
      NormaliseAllAppend(a[1..], b);
      AppendAssociates([Normalise(a[0])], NormaliseAll(a[1..]), NormaliseAll(b));
    }
  }

  lemma {:induction false} NormaliseAllAt(events: seq<ChartItem>, i: nat)
    requires i < |events|
    ensures NormaliseAll(events)[i] == Normalise(events[i])
  {
    if i > 0 {
      NormaliseAllAt(events[1..], i - 1);
    }
  }

  /** Validation, county filter and normalisation: the records the cycle
      will insert, one per Montgomery event and all in Montgomery County, or
      why it stops with 0. */
  function Prepare(response: Option<ChartResponse>): (r: Result<seq<ChartMDIncident>, CycleFault>)
    ensures r == Failure(InvalidResponse) <==>
              response.None? || !response.value.success || response.value.data.Absent?
    ensures r == Failure(ProcessingFailed) <==>
              response.Some? && response.value.success && response.value.data.Malformed?
    ensures r.Success? ==>
              && |r.value| == |Matching(response.value.data.items, IsMontgomery)| <= |response.value.data.items|
              && forall i :: 0 <= i < |r.value| ==> r.value[i].county == Some(MONTGOMERY)
  {
    if response.None? || !response.value.success || response.value.data.Absent? then
      Failure(InvalidResponse)
    else if response.value.data.Malformed? then
      Failure(ProcessingFailed)
    else
      var kept := Filter(response.value.data.items, IsMontgomery);
      FilterCount(response.value.data.items, IsMontgomery);
      var incidents := NormaliseAll(kept);
      assert forall i :: 0 <= i < |incidents| ==> incidents[i].county == Some(MONTGOMERY) by {
        forall i | 0 <= i < |incidents|
          ensures incidents[i].county == Some(MONTGOMERY)
        {
          NormaliseAllAt(kept, i);
        }
      }
      Success(incidents)
  }

  /** Each record of a cycle is the normalisation of a Montgomery event. */
  lemma RecordsComeFromMontgomeryEvents(response: Option<ChartResponse>)
    requires Prepare(response).Success?
    ensures var items := response.value.data.items;
            var incidents := Prepare(response).value;
            forall i :: 0 <= i < |incidents| ==>
              exists j :: 0 <= j < |items| && IsMontgomery(items[j]) && incidents[i] == Normalise(items[j])
  {
    var items := response.value.data.items;
    var incidents := Prepare(response).value;
    var kept := Filter(items, IsMontgomery);
    forall i | 0 <= i < |incidents|
      ensures exists j :: 0 <= j < |items| && IsMontgomery(items[j]) && incidents[i] == Normalise(items[j])
    {
      NormaliseAllAt(kept, i);
      assert kept[i] in items && IsMontgomery(kept[i]);
      var j :| 0 <= j < |items| && items[j] == kept[i];
    }
  }

  /** The records follow the export's order: one more event at the end of
      the export adds its record at the end, exactly when it is a Montgomery
      event. */
  lemma RecordsFollowEventOrder(items: seq<ChartItem>, item: ChartItem)
    ensures var before := Prepare(Some(ChartResponse(true, Items(items))));
            var after := Prepare(Some(ChartResponse(true, Items(items + [item]))));
            && before.Success? && after.Success?
            && after.value == before.value + if IsMontgomery(item) then [Normalise(item)] else []
  {
    PreparedItems(items);
    PreparedItems(items + [item]);
    MontgomeryRecordsSnoc(items, item);
  }

  /** The normalised Montgomery events of a sequence with one more event at
      its end. */
  lemma MontgomeryRecordsSnoc(items: seq<ChartItem>, item: ChartItem)
    ensures NormaliseAll(Filter(items + [item], IsMontgomery)) ==
              NormaliseAll(Filter(items, IsMontgomery)) + if IsMontgomery(item) then [Normalise(item)] else []
  {
    FilterSnoc(items, item, IsMontgomery);
    var kept := Filter(items, IsMontgomery);
    if IsMontgomery(item) {
      NormaliseAllAppend(kept, [item]);
      NormaliseOne(item);
    } else {
      AppendNothing(kept);
      AppendNothing(NormaliseAll(kept));
    }
  }

  lemma NormaliseOne(item: ChartItem)
    ensures NormaliseAll([item]) == [Normalise(item)]
  {
    assert [item][1..] == [];
  }

  /** A valid export of events gives the normalised Montgomery events. */
  lemma PreparedItems(items: seq<ChartItem>)
    ensures Prepare(Some(ChartResponse(true, Items(items)))) == Success(NormaliseAll(Filter(items, IsMontgomery)))
  {
  }

  /** Each Montgomery event of a cycle gives a record. */
  lemma MontgomeryEventsBecomeRecords(response: Option<ChartResponse>)
    requires Prepare(response).Success?
    ensures var items := response.value.data.items;
            var incidents := Prepare(response).value;
            forall j :: 0 <= j < |items| && IsMontgomery(items[j]) ==> Normalise(items[j]) in incidents
  {
    var items := response.value.data.items;
    var incidents := Prepare(response).value;
    var kept := Filter(items, IsMontgomery);
    forall j | 0 <= j < |items| && IsMontgomery(items[j])
      ensures Normalise(items[j]) in incidents
    {
      var i :| 0 <= i < |kept| && kept[i] == items[j];
      NormaliseAllAt(kept, i);
      assert incidents[i] == Normalise(items[j]);
    }
  }

  /** The whole cycle, with `response` the value `fetchData` resolved to
      (`None` for its `null`) and the database rejecting insert number `k`
      exactly when `k` is in `failAt`. A cycle that stops early inserts
      nothing; otherwise every record is handed to the insert in order, a
      failed insert does not stop the later ones, and the result counts the
      rows appended. */
  method ProcessChartMDData(response: Option<ChartResponse>, store: HistoryTable, failAt: set<nat>)
    returns (processedCount: nat)
    requires store.Valid()
    modifies store
    ensures store.Valid()
    ensures Prepare(response).Failure? ==>
              processedCount == 0 && store.entries == old(store.entries) && store.attempts == old(store.attempts)
    ensures Prepare(response).Success? ==>
              var incidents := Prepare(response).value;
              && processedCount == WrittenCount(Ids(incidents), failAt) <= |incidents|
              && |old(store.entries)| <= |store.entries|
              && store.entries[..|old(store.entries)|] == old(store.entries)
              && RowsOf(store.entries) == RowsOf(old(store.entries)) + AppendedRows(incidents, failAt)
              && store.attempts == old(store.attempts) + incidents
  {
    var prepared := Prepare(response);
    if prepared.Failure? {
      return 0;
    }
    processedCount := InsertEach(prepared.value, store, failAt);
  }

  /** The insert loop of a cycle: each record in turn, a rejected insert
      caught and skipped, the successes counted. */
  method InsertEach(incidents: seq<ChartMDIncident>, store: HistoryTable, failAt: set<nat>)
    returns (processedCount: nat)
    requires store.Valid()
    modifies store
    ensures store.Valid()
    ensures processedCount == WrittenCount(Ids(incidents), failAt) <= |incidents|
    ensures |old(store.entries)| <= |store.entries|
    ensures store.entries[..|old(store.entries)|] == old(store.entries)
    ensures RowsOf(store.entries) == RowsOf(old(store.entries)) + AppendedRows(incidents, failAt)
    ensures store.attempts == old(store.attempts) + incidents
  {
    processedCount := 0;
    for i := 0 to |incidents|
      invariant store.Valid()
      invariant processedCount == |AppendedRows(incidents[..i], failAt)|
      invariant |old(store.entries)| <= |store.entries|
      invariant store.entries[..|old(store.entries)|] == old(store.entries)
      invariant RowsOf(store.entries) == RowsOf(old(store.entries)) + AppendedRows(incidents[..i], failAt)
      invariant store.attempts == old(store.attempts) + incidents[..i]
    {
      ghost var before := store.entries;
      ghost var entryId := store.nextEntryId;
      var result := store.Insert(incidents[i], i !in failAt);
      InsertStep(old(store.entries), before, store.entries, entryId, incidents, failAt, i);
      AppendOneMore(old(store.attempts), incidents, i);
      if result.Success? {
        processedCount := processedCount + 1;
      }
    }
    TakeAll(incidents);
  }

  /** One turn of the insert loop keeps the loop's account of the table: the
      rows so far are the earlier rows plus those of the attempts so far,
      and the earlier entries are untouched. */
  lemma InsertStep(base: seq<Entry>, before: seq<Entry>, after: seq<Entry>, entryId: nat,
                   incidents: seq<ChartMDIncident>, failAt: set<nat>, i: nat)
    requires i < |incidents|
    requires |base| <= |before| && before[..|base|] == base
    requires RowsOf(before) == RowsOf(base) + AppendedRows(incidents[..i], failAt)
    requires Writes(incidents[i].incidentId, i !in failAt) ==>
               after == before + [Entry(entryId, ToRow(incidents[i]))]
    requires !Writes(incidents[i].incidentId, i !in failAt) ==> after == before
    ensures |AppendedRows(incidents[..i + 1], failAt)| ==
              |AppendedRows(incidents[..i], failAt)| + (if Writes(incidents[i].incidentId, i !in failAt) then 1 else 0)
    ensures |base| <= |after| && after[..|base|] == base
    ensures RowsOf(after) == RowsOf(base) + AppendedRows(incidents[..i + 1], failAt)
  {
    var prefixRows := AppendedRows(incidents[..i], failAt);
    AppendedRowsSnoc(incidents, failAt, i);
    if Writes(incidents[i].incidentId, i !in failAt) {
      var entry := Entry(entryId, ToRow(incidents[i]));
      RowsOfSnoc(before, entry);
      AppendAssociates(RowsOf(base), prefixRows, [entry.row]);
      PrefixKept(before, [entry], |base|);
    } else {
      AppendNothing(prefixRows);
    }
  }

  /** Partial-failure isolation: when one insert of N fails, the other N - 1
      are counted. */
  lemma OneFailedInsert(response: Option<ChartResponse>, failAt: set<nat>, k: nat)
    requires Prepare(response).Success?
    requires k < |Prepare(response).value|
    requires forall j :: 0 <= j < |Prepare(response).value| ==> Prepare(response).value[j].incidentId.Some?
    requires forall j :: 0 <= j < |Prepare(response).value| ==> (j in failAt <==> j == k)
    ensures |AppendedRows(Prepare(response).value, failAt)| == |Prepare(response).value| - 1
  {
    var incidents := Prepare(response).value;
    OneFailureCountsTheRest(Ids(incidents), failAt, k);
  }

  /** Every Montgomery event with an identifier is stored when no insert
      fails: one row per event, and every row in Montgomery County. */
  lemma AllMontgomeryEventsStored(response: Option<ChartResponse>, failAt: set<nat>)
    requires response.Some? && response.value.success && response.value.data.Items?
    requires forall item :: item in response.value.data.items && IsMontgomery(item) ==> item.id.Some?
    requires forall j :: 0 <= j < |response.value.data.items| ==> j !in failAt
    ensures Prepare(response).Success?
    ensures var rows := AppendedRows(Prepare(response).value, failAt);
            && |rows| == |Matching(response.value.data.items, IsMontgomery)|
            && forall i :: 0 <= i < |rows| ==> rows[i].county == Some(MONTGOMERY)
  {
    var items := response.value.data.items;
    var incidents := Prepare(response).value;
    var kept := Filter(items, IsMontgomery);
    forall k | 0 <= k < |incidents|
      ensures Writes(incidents[k].incidentId, k !in failAt)
    {
      NormaliseAllAt(kept, k);
      assert kept[k] in items && IsMontgomery(kept[k]);
    }
    AllStored(incidents, failAt);
  }

  /** The event of the service's own test: a Montgomery event with only
      identifier, type, description, name, severity, coordinates and times
      gives one record carrying its identifier and county, its name as the
      location, and every default. */
  lemma SampleEvent(lat: Coordinate, lon: Coordinate, time: Instant)
    ensures var item := ChartItem(
              Some("test-1"), Some("CRASH"), Some("Test incident"), Some("Test location"), None,
              Some(MONTGOMERY), Some(1), Some(lat), Some(lon), None, time, time, time,
              None, None, None, None, None);
            var prepared := Prepare(Some(ChartResponse(true, Items([item]))));
            && prepared.Success? && |prepared.value| == 1
            && prepared.value[0] == Normalise(item)
            && prepared.value[0].incidentId == Some("test-1")
            && prepared.value[0].county == Some(MONTGOMERY)
            && prepared.value[0].location == "Test location"
            && prepared.value[0].direction == "Unknown"
            && prepared.value[0].lanesStatus == "All lanes open"
            && prepared.value[0].lanes == "" && prepared.value[0].participants == ""
            && !prepared.value[0].trafficAlert
  {
    var item := ChartItem(
      Some("test-1"), Some("CRASH"), Some("Test incident"), Some("Test location"), None,
      Some(MONTGOMERY), Some(1), Some(lat), Some(lon), None, time, time, time,
      None, None, None, None, None);
    assert IsMontgomery(item);
    assert Filter([item], IsMontgomery) == [item];
    NormaliseAllAt([item], 0);
  }
}
