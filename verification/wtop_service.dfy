/** `processWTOPData`: read the WTOP traffic RSS feed, keep the traffic
    items, normalise each into a `wtop_incidents` record (location from the
    title, severity from keywords), and upsert the records one at a time,
    counting the successes. */
module WTOPService {
  import opened Wrappers
  import opened JsValues
  import opened JsText
  import opened Db
  import opened SeqFacts
  import opened WTOPIncidents

  const UNKNOWN_LOCATION := "Unknown Location"
  const WTOP_SOURCE := "WTOP"
  const TRAFFIC := "Traffic"

  /** One item of the parsed feed, with the fields the normaliser reads.
      `pubDate` is the value `new Date(item.pubDate)` makes of it. */
  datatype RssItem = RssItem(
    guid: Option<string>,
    title: Option<string>,
    contentSnippet: Option<string>,
    pubDate: Instant,
    link: Option<string>,
    categories: Option<seq<string>>)

  // ---------------------------------------------------------------------
  // Location: the regular expression ^(.*?)(?=\s+\d) applied to the title
  // ---------------------------------------------------------------------

  /** No character of `s[i..k]` is one that `.` refuses to match. */
  predicate LineFreeBetween(s: string, i: nat, k: nat) {
    forall m :: i <= m < k && m < |s| ==> !IsLineTerminator(s[m])
  }

  /** Every character of `s[i..j]` is white space. */
  predicate SpaceRun(s: string, i: nat, j: nat) {
    j <= |s| && forall k :: i <= k < j ==> IsSpace(s[k])
  }

  /** The lookahead `(?=\s+\d)` holds at offset `i`: one or more white-space
      characters from `i` on, then a digit. */
  predicate SpacesThenDigit(s: string, i: nat) {
    exists j: nat :: i < j < |s| && IsDigit(s[j]) && SpaceRun(s, i, j)
  }

  /** The match of `^(.*?)(?=\s+\d)` on `s` ends at offset `i`: the lazy
      group reaches `i` without crossing a line terminator, the lookahead
      holds there, and at no earlier offset. */
  predicate IsMatchEnd(s: string, i: nat) {
    && i <= |s|
    && LineFreeBetween(s, 0, i)
    && SpacesThenDigit(s, i)
    && forall k: nat :: k < i ==> !SpacesThenDigit(s, k)
  }

  /** `\s*\d` from offset `i`: zero or more white-space characters, then a
      digit. */
  function DigitAfterSpaces(s: string, i: nat): (b: bool)
    requires i <= |s|
    ensures b <==> exists j: nat :: i <= j < |s| && IsDigit(s[j]) && SpaceRun(s, i, j)
    decreases |s| - i
  {
    if i == |s| then false
    else if IsDigit(s[i]) then
      assert SpaceRun(s, i, i);
      true
    else if IsSpace(s[i]) then
      var b := DigitAfterSpaces(s, i + 1);
      assert b ==> exists j: nat :: i <= j < |s| && IsDigit(s[j]) && SpaceRun(s, i, j) by {
        if b {
          var j: nat :| i + 1 <= j < |s| && IsDigit(s[j]) && SpaceRun(s, i + 1, j);
          assert SpaceRun(s, i, j);
        }
      }
      assert forall j: nat :: i < j <= |s| && SpaceRun(s, i, j) ==> SpaceRun(s, i + 1, j);
      b
    else
      assert forall j: nat :: i < j <= |s| ==> !SpaceRun(s, i, j);
      false
  }

  /** The lookahead tested at one offset. */
  function LookaheadAt(s: string, i: nat): (b: bool)
    requires i <= |s|
    ensures b <==> SpacesThenDigit(s, i)
  {
    if i < |s| && IsSpace(s[i]) then
      var b := DigitAfterSpaces(s, i + 1);
      assert b ==> SpacesThenDigit(s, i) by {
        if b {
          var j: nat :| i + 1 <= j < |s| && IsDigit(s[j]) && SpaceRun(s, i + 1, j);
          assert SpaceRun(s, i, j);
        }
      }
      assert forall j: nat :: i < j <= |s| && SpaceRun(s, i, j) ==> SpaceRun(s, i + 1, j);
      b
    else
      assert forall j: nat :: i < j <= |s| ==> !SpaceRun(s, i, j);
      false
  }

  /** The backtracking search of the lazy group from offset `i` on: the
      first offset at which the lookahead holds, before the group would have
      to cross a line terminator or the end of `s`. */
  function MatchEndFrom(s: string, i: nat): (r: Option<nat>)
    requires i <= |s|
    ensures r.Some? ==>
              && i <= r.value <= |s|
              && LineFreeBetween(s, i, r.value)
              && SpacesThenDigit(s, r.value)
              && forall k :: i <= k < r.value ==> !SpacesThenDigit(s, k)
    ensures r.None? ==>
              forall k :: i <= k <= |s| && LineFreeBetween(s, i, k) ==> !SpacesThenDigit(s, k)
    decreases |s| - i
  {
    if LookaheadAt(s, i) then Some(i)
    else if i < |s| && !IsLineTerminator(s[i]) then
      var r := MatchEndFrom(s, i + 1);
      assert forall k :: i < k <= |s| && LineFreeBetween(s, i, k) ==> LineFreeBetween(s, i + 1, k);
      r
    else
      assert forall k :: i < k <= |s| ==> !LineFreeBetween(s, i, k) by {
        forall k | i < k <= |s|
          ensures !LineFreeBetween(s, i, k)
        {
          assert IsLineTerminator(s[i]);
        }
      }
      None
  }

  /** `s.match(/^(.*?)(?=\s+\d)/)`: where the match ends, or `None` when
      there is no match. */
  function MatchEnd(s: string): (r: Option<nat>)
    ensures r.Some? ==> IsMatchEnd(s, r.value)
    ensures r.None? ==> forall i: nat :: i <= |s| && LineFreeBetween(s, 0, i) ==> !SpacesThenDigit(s, i)
  {
    MatchEndFrom(s, 0)
  }

  /** `extractLocation`: the title up to the first white space that runs
      into a digit, trimmed; "Unknown Location" for a falsy title or a
      title with no such white space on its first line. */
  function ExtractLocation(title: Option<string>): (r: string)
    ensures !Truthy(title) ==> r == UNKNOWN_LOCATION
    ensures Truthy(title) && (forall i: nat :: i <= |title.value| && LineFreeBetween(title.value, 0, i) ==> !SpacesThenDigit(title.value, i)) ==>
              r == UNKNOWN_LOCATION
    ensures forall i: nat :: Truthy(title) && IsMatchEnd(title.value, i) ==> r == Trim(title.value[..i])
  {
    if !Truthy(title) then UNKNOWN_LOCATION
    else
      match MatchEnd(title.value)
      case None => UNKNOWN_LOCATION
      case Some(i) =>
        assert forall k: nat | IsMatchEnd(title.value, k) :: k == i by {
          forall k: nat | IsMatchEnd(title.value, k)
            ensures k == i
          {
            MatchEndUnique(title.value, i, k);
          }
        }
        Trim(title.value[..i])
  }

  /** The match end is unique: the lazy group stops at the first offset. */
  lemma MatchEndUnique(s: string, i: nat, k: nat)
    requires IsMatchEnd(s, i) && IsMatchEnd(s, k)
    ensures i == k
  {
  }

  /** A location cut from a title lies in the title's first line before the
      match end, has no white space at either end, and never has white space
      directly before a digit. */
  lemma LocationShape(title: string, i: nat)
    requires title != "" && IsMatchEnd(title, i)
    ensures var r := ExtractLocation(Some(title));
            && Contains(title[..i], r)
            && (forall k :: 0 <= k < |r| ==> !IsLineTerminator(r[k]))
            && (r == "" || (!IsSpace(r[0]) && !IsSpace(r[|r| - 1])))
            && forall k :: 0 < k < |r| && IsDigit(r[k]) ==> !IsSpace(r[k - 1])
  {
    var r := ExtractLocation(Some(title));
    assert r == Trim(title[..i]);
    PieceOfMatchedPrefix(title, i, r);
  }

  /** What any piece of the matched prefix inherits from the match. */
  lemma PieceOfMatchedPrefix(s: string, i: nat, r: string)
    requires IsMatchEnd(s, i) && Contains(s[..i], r)
    ensures forall k :: 0 <= k < |r| ==> !IsLineTerminator(r[k])
    ensures forall k :: 0 < k < |r| && IsDigit(r[k]) ==> !IsSpace(r[k - 1])
  {
    var p := s[..i];
    var o: nat :| o <= |p| && OccursAt(p, r, o);
    assert p[o..o + |r|] == r;
    assert forall k :: 0 <= k < |r| ==> r[k] == s[o + k];
    forall k | 0 < k < |r| && IsDigit(r[k])
      ensures !IsSpace(r[k - 1])
    {
      assert SpaceRun(s, o + k - 1, o + k) == IsSpace(s[o + k - 1]);
      assert !SpacesThenDigit(s, o + k - 1) && IsDigit(s[o + k]);
    }
  }

  /** A title in which no digit follows white space has no match, so its
      location is "Unknown Location". */
  lemma NoDigitAfterSpaceMeansUnknown(title: string)
    requires forall k :: 0 < k < |title| && IsDigit(title[k]) ==> !IsSpace(title[k - 1])
    ensures ExtractLocation(Some(title)) == UNKNOWN_LOCATION
  {
    forall i: nat | i <= |title|
      ensures !SpacesThenDigit(title, i)
    {
      forall j: nat | i < j < |title| && IsDigit(title[j])
        ensures !SpaceRun(title, i, j)
      {
        assert !IsSpace(title[j - 1]);
      }
    }
  }

  // ---------------------------------------------------------------------
  // Severity: keyword matching on the title and the content snippet
  // ---------------------------------------------------------------------

  datatype Severity = Unknown | Minor | Moderate | Major

  /** The string stored in the `severity` column. */
  function Label(s: Severity): (text: string)
    ensures text != ""
    ensures text in {"Unknown", "Minor", "Moderate", "Major"}
  {
    match s
    case Unknown => "Unknown"
    case Minor => "Minor"
    case Moderate => "Moderate"
    case Major => "Major"
  }

  /** The order of the severities, from `Unknown` up to `Major`. */
  function Rank(s: Severity): nat {
    match s
    case Unknown => 0
    case Minor => 1
    case Moderate => 2
    case Major => 3
  }

  /** `s?.includes(word)` is true. */
  predicate Mentions(s: Option<string>, word: string) {
    s.Some? && Contains(s.value, word)
  }

  predicate MajorKeyword(title: Option<string>, description: Option<string>) {
    Mentions(title, "Long Term") || Mentions(description, "Fatal")
  }

  predicate ModerateKeyword(description: Option<string>) {
    Mentions(description, "Delay") || Mentions(description, "Backed up")
  }

  /** `determineSeverity`: Unknown exactly when both texts are falsy; Major
      exactly when the title says "Long Term" or the description "Fatal";
      otherwise Moderate exactly when the description says "Delay" or
      "Backed up"; Minor in every other case. Matching is case-sensitive. */
  function DetermineSeverity(title: Option<string>, description: Option<string>): (r: Severity)
    ensures r == Unknown <==> !Truthy(title) && !Truthy(description)
    ensures r == Major <==> MajorKeyword(title, description)
    ensures r == Moderate <==> !MajorKeyword(title, description) && ModerateKeyword(description)
    ensures r == Minor <==>
              (Truthy(title) || Truthy(description)) && !MajorKeyword(title, description) && !ModerateKeyword(description)
  {
    if !Truthy(title) && !Truthy(description) then
      assert !MajorKeyword(title, description) && !ModerateKeyword(description);
      Unknown
    else if MajorKeyword(title, description) then Major
    else if ModerateKeyword(description) then Moderate
    else Minor
  }

  /** A word that occurs in a string makes it non-empty. */
  lemma MentionMakesTruthy(s: Option<string>, word: string)
    requires word != "" && Mentions(s, word)
    ensures Truthy(s)
  {
    var i: nat :| i <= |s.value| && OccursAt(s.value, word, i);
  }

  /** A longer description never lowers the severity: when `shorter` occurs
      in `longer`, every keyword of `shorter` is one of `longer`. */
  lemma SeverityGrowsWithDescription(title: Option<string>, shorter: Option<string>, longer: Option<string>)
    requires shorter.None? || (longer.Some? && Contains(longer.value, shorter.value))
    ensures Rank(DetermineSeverity(title, shorter)) <= Rank(DetermineSeverity(title, longer))
  {
    if shorter.Some? {
      forall word | Mentions(shorter, word)
        ensures Mentions(longer, word)
      {
        ContainsTransitive(longer.value, shorter.value, word);
      }
      if Truthy(shorter) {
        MentionMakesTruthy(longer, shorter.value);
      }
    }
  }

  /** White space never directly precedes a digit in `text + digits` when
      `text` has no digit and does not end in white space. */
  lemma DigitsAfterText(text: string, digits: string)
    requires text != [] && !IsSpace(text[|text| - 1])
    requires forall c | c in text :: !IsDigit(c)
    requires forall c | c in digits :: IsDigit(c)
    ensures var s := text + digits;
            forall k :: 0 < k < |s| ==> !IsDigit(s[k]) || !IsSpace(s[k - 1])
  {
    var s := text + digits;
    forall k | 0 < k < |s|
      ensures !IsDigit(s[k]) || !IsSpace(s[k - 1])
    {
      if k < |text| {
        assert s[k] in text;
      } else if k > |text| {
        assert s[k - 1] in digits;
      }
    }
  }

  /** A word whose first letter does not occur in `s` does not occur in `s`. */
  lemma FirstLetterAbsent(s: string, word: string)
    requires word != "" && word[0] !in s
    ensures !Contains(s, word)
  {
    forall i: nat | i <= |s|
      ensures !OccursAt(s, word, i)
    {
      if i + |word| <= |s| {
        assert s[i..i + |word|][0] == s[i] && s[i] in s;
      }
    }
  }

  // ---------------------------------------------------------------------
  // Feed items to incidents
  // ---------------------------------------------------------------------

  /** The traffic filter: the title mentions "Traffic", or "Traffic" is one
      of the categories. */
  function IsTrafficItem(item: RssItem): (keep: bool)
    ensures Mentions(item.title, TRAFFIC) ==> keep
    ensures item.categories.Some? && TRAFFIC in item.categories.value ==> keep
    ensures keep && !Truthy(item.title) ==> item.categories.Some? && TRAFFIC in item.categories.value
    ensures keep && item.categories.None? ==> Mentions(item.title, TRAFFIC)
  {
    Mentions(item.title, TRAFFIC) || (item.categories.Some? && TRAFFIC in item.categories.value)
  }

  /** The `additional_data` object as stored: `link` and `category` appear
      only when the item has them, since `JSON.stringify` drops `undefined`;
      `category` is the categories joined with ", ". */
  function AdditionalData(link: Option<string>, categories: Option<seq<string>>): (r: Json)
    ensures r.Keys <= {"link", "category"}
    ensures "link" in r <==> link.Some?
    ensures "category" in r <==> categories.Some?
    ensures link.Some? ==> r["link"] == link.value
    ensures categories.Some? ==> r["category"] == Join(categories.value, ", ")
  {
    var withLink: Json := if link.Some? then map["link" := link.value] else map[];
    if categories.Some? then withLink["category" := Join(categories.value, ", ")] else withLink
  }

  /** The record built for one traffic item, at time `now`. */
  function ToIncident(item: RssItem, now: Instant): (r: WTOPIncident)
    ensures r.incidentId == item.guid && r.title == item.title && r.description == item.contentSnippet
    ensures r.location == ExtractLocation(item.title)
    ensures r.severity == Label(DetermineSeverity(item.title, item.contentSnippet))
    ensures r.lat.None? && r.lon.None?
    ensures r.reportedTime == item.pubDate && r.lastUpdate == now && r.source == WTOP_SOURCE
    ensures r.additionalData == AdditionalData(item.link, item.categories)
  {
    WTOPIncident(
      incidentId := item.guid,
      title := item.title,
      description := item.contentSnippet,
      location := ExtractLocation(item.title),
      severity := Label(DetermineSeverity(item.title, item.contentSnippet)),
      lat := None,
      lon := None,
      reportedTime := item.pubDate,
      lastUpdate := now,
      source := WTOP_SOURCE,
      additionalData := AdditionalData(item.link, item.categories))
  }

  /** `items.map(item => ToIncident(item, now))`. */
  function ToIncidents(items: seq<RssItem>, now: Instant): (r: seq<WTOPIncident>)
    ensures |r| == |items|
  {
    if items == [] then [] else [ToIncident(items[0], now)] + ToIncidents(items[1..], now)
  }

  /** Mapping a concatenation maps each part, in order. */
  lemma {:induction false} ToIncidentsAppend(a: seq<RssItem>, b: seq<RssItem>, now: Instant)
    ensures ToIncidents(a + b, now) == ToIncidents(a, now) + ToIncidents(b, now)
  {
    if a == [] {
      assert a + b == b;
    } else {
      assert (a + b)[0] == a[0];
      assert (a + b)[1..] == a[1..] + b;
      ToIncidentsAppend(a[1..], b, now);
      AppendAssociates([ToIncident(a[0], now)], ToIncidents(a[1..], now), ToIncidents(b, now));
    }
  }

  lemma {:induction false} ToIncidentsAt(items: seq<RssItem>, now: Instant, i: nat)
    requires i < |items|
    ensures ToIncidents(items, now)[i] == ToIncident(items[i], now)
  {
    if i > 0 {
      ToIncidentsAt(items[1..], now, i - 1);
    }
  }

  /** The records of one cycle: one per traffic item, in feed order. */
  function TrafficIncidents(items: seq<RssItem>, now: Instant): (r: seq<WTOPIncident>)
    ensures |r| == |Matching(items, IsTrafficItem)| <= |items|
  {
    FilterCount(items, IsTrafficItem);
    ToIncidents(Filter(items, IsTrafficItem), now)
  }

  /** The records follow feed order: one more item at the end of the feed
      adds its record at the end, exactly when it is a traffic item. */
  lemma TrafficIncidentsSnoc(items: seq<RssItem>, item: RssItem, now: Instant)
    ensures TrafficIncidents(items + [item], now) ==
              TrafficIncidents(items, now) + if IsTrafficItem(item) then [ToIncident(item, now)] else []
  {
    FilterSnoc(items, item, IsTrafficItem);
    var tail := if IsTrafficItem(item) then [item] else [];
    ToIncidentsAppend(Filter(items, IsTrafficItem), tail, now);
    if tail != [] {
      assert tail[1..] == [];
    }
  }

  /** Each record of a cycle is the normalisation of a traffic item, stamped
      with the cycle's time and the source "WTOP". */
  lemma RecordsComeFromTrafficItems(items: seq<RssItem>, now: Instant)
    ensures var incidents := TrafficIncidents(items, now);
            forall i :: 0 <= i < |incidents| ==>
              && incidents[i].source == WTOP_SOURCE
              && incidents[i].lastUpdate == now
              && exists j :: 0 <= j < |items| && IsTrafficItem(items[j]) && incidents[i] == ToIncident(items[j], now)
  {
    var kept := Filter(items, IsTrafficItem);
    var incidents := TrafficIncidents(items, now);
    forall i | 0 <= i < |incidents|
      ensures && incidents[i].source == WTOP_SOURCE
              && incidents[i].lastUpdate == now
              && exists j :: 0 <= j < |items| && IsTrafficItem(items[j]) && incidents[i] == ToIncident(items[j], now)
    {
      ToIncidentsAt(kept, now, i);
      assert kept[i] in items && IsTrafficItem(kept[i]);
      var j :| 0 <= j < |items| && items[j] == kept[i];
    }
  }

  /** Each traffic item of a cycle gives a record. */
  lemma TrafficItemsBecomeRecords(items: seq<RssItem>, now: Instant)
    ensures forall j :: 0 <= j < |items| && IsTrafficItem(items[j]) ==> ToIncident(items[j], now) in TrafficIncidents(items, now)
  {
    var kept := Filter(items, IsTrafficItem);
    forall j | 0 <= j < |items| && IsTrafficItem(items[j])
      ensures ToIncident(items[j], now) in TrafficIncidents(items, now)
    {
      var i :| 0 <= i < |kept| && kept[i] == items[j];
      ToIncidentsAt(kept, now, i);
    }
  }

  // ---------------------------------------------------------------------
  // The cycle
  // ---------------------------------------------------------------------

  /** The whole cycle, with `feed` the items `parseURL` resolved to (`None`
      when it rejects), `now` the time `new Date()` gives during the cycle,
      and the database rejecting upsert number `k` exactly when `k` is in
      `failAt`. A rejected feed upserts nothing; otherwise every record is
      handed to the upsert in order, a failed upsert does not stop the later
      ones, and the result counts the successes. */
  method ProcessWTOPData(feed: Option<seq<RssItem>>, store: LatestTable, failAt: set<nat>, now: Instant)
    returns (successCount: nat)
    modifies store
    ensures feed.None? ==>
              successCount == 0 && store.rows == old(store.rows) && store.attempts == old(store.attempts)
    ensures feed.Some? ==>
              var incidents := TrafficIncidents(feed.value, now);
              && successCount == WrittenCount(Ids(incidents), failAt) <= |incidents|
              && store.rows == UpsertedAll(old(store.rows), incidents, failAt)
              && store.attempts == old(store.attempts) + incidents
  {
    if feed.None? {
      return 0;
    }
    successCount := UpsertEach(TrafficIncidents(feed.value, now), store, failAt);
  }

  /** The upsert loop of a cycle: each record in turn, a rejected upsert
      caught and skipped, the successes counted. */
  method UpsertEach(incidents: seq<WTOPIncident>, store: LatestTable, failAt: set<nat>)
    returns (successCount: nat)
    modifies store
    ensures successCount == WrittenCount(Ids(incidents), failAt) <= |incidents|
    ensures store.rows == UpsertedAll(old(store.rows), incidents, failAt)
    ensures store.attempts == old(store.attempts) + incidents
  {
    successCount := 0;
    for i := 0 to |incidents|
      invariant successCount == WrittenCount(Ids(incidents)[..i], failAt)
      invariant store.rows == UpsertedAll(old(store.rows), incidents[..i], failAt)
      invariant store.attempts == old(store.attempts) + incidents[..i]
    {
      var err := store.Upsert(incidents[i], i !in failAt);
      WrittenCountSnoc(Ids(incidents), failAt, i);
      UpsertedAllSnoc(old(store.rows), incidents, failAt, i);
      AppendOneMore(old(store.attempts), incidents, i);
      if err.None? {
        successCount := successCount + 1;
      }
    }
    TakeAll(incidents);
    TakeAll(Ids(incidents));
  }

  /** A key first stored by a cycle carries the source "WTOP", however
      often later items of the cycle update it. */
  lemma NewKeysAreWTOP(table: map<string, WTOPRow>, items: seq<RssItem>, now: Instant, failAt: set<nat>, k: nat, id: string)
    requires id !in table
    requires WrittenWithId(TrafficIncidents(items, now), failAt, k, id)
    ensures var t := UpsertedAll(table, TrafficIncidents(items, now), failAt);
            id in t && t[id].kept.source == WTOP_SOURCE
  {
    var incidents := TrafficIncidents(items, now);
    var first := FirstWritten(incidents, failAt, k, id);
    FirstWriteKeeps(table, incidents, failAt, first, id);
    ToIncidentsAt(Filter(items, IsTrafficItem), now, first);
  }

  const SAMPLE_TITLE := "Traffic Alert: Accident on I-495"
  const SAMPLE_SNIPPET := "Major delays due to accident"

  /** The title of the service's own test item has no white space before a
      digit ("I-495"), so its location is "Unknown Location". */
  lemma SampleLocation()
    ensures ExtractLocation(Some(SAMPLE_TITLE)) == UNKNOWN_LOCATION
  {
    assert SAMPLE_TITLE == "Traffic Alert: Accident on I-" + "495";
    DigitsAfterText("Traffic Alert: Accident on I-", "495");
    NoDigitAfterSpaceMeansUnknown(SAMPLE_TITLE);
  }

  /** The keyword match is case-sensitive: "Major delays" gives Minor. */
  lemma SampleSeverity()
    ensures DetermineSeverity(Some(SAMPLE_TITLE), Some(SAMPLE_SNIPPET)) == Minor
  {
    SampleAbsent(SAMPLE_TITLE, "Long Term");
    SampleAbsent(SAMPLE_SNIPPET, "Fatal");
    SampleAbsent(SAMPLE_SNIPPET, "Delay");
    SampleAbsent(SAMPLE_SNIPPET, "Backed up");
  }

  /** None of the four keywords occurs in the sample texts. */
  lemma SampleAbsent(s: string, word: string)
    requires s in {SAMPLE_TITLE, SAMPLE_SNIPPET}
    requires word in {"Long Term", "Fatal", "Delay", "Backed up"}
    ensures !Contains(s, word)
  {
    FirstLetterAbsent(s, word);
  }

  /** The feed item of the service's own test gives one record, with
      identifier "wtop-1" and source "WTOP". */
  lemma SampleTrafficItem(pubDate: Instant, now: Instant)
    ensures var item := RssItem(Some("wtop-1"), Some(SAMPLE_TITLE), Some(SAMPLE_SNIPPET), pubDate, None, Some(["Traffic"]));
            var incidents := TrafficIncidents([item], now);
            && |incidents| == 1
            && incidents[0].incidentId == Some("wtop-1")
            && incidents[0].source == WTOP_SOURCE
            && incidents[0].location == UNKNOWN_LOCATION
            && incidents[0].severity == "Minor"
            && incidents[0].additionalData == map["category" := "Traffic"]
  {
    var item := RssItem(Some("wtop-1"), Some(SAMPLE_TITLE), Some(SAMPLE_SNIPPET), pubDate, None, Some(["Traffic"]));
    assert IsTrafficItem(item);
    assert Filter([item], IsTrafficItem) == [item];
    ToIncidentsAt([item], now, 0);
    SampleLocation();
    SampleSeverity();
  }
}
