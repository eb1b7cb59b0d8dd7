/** What the two incident tables share: the errors a write rethrows, and
    which writes of a batch reach the table. */
module Db {
  import opened Wrappers

  /** Why a write is rethrown to its caller. `NotNullViolation`: the row has
      no `incident_id`, which both tables require. `QueryFailed`: every other
      failure of the query (connection, type or length errors). */
  datatype DbError = NotNullViolation | QueryFailed

  /** A write stores its row when the database accepts the statement and the
      row carries an identifier. `accepted` is the oracle for the database. */
  predicate Writes(id: Option<string>, accepted: bool) {
    accepted && id.Some?
  }

  /** The error a write rethrows, if any. */
  function WriteError(id: Option<string>, accepted: bool): (r: Option<DbError>)
    ensures r.None? <==> Writes(id, accepted)
    ensures r == Some(NotNullViolation) ==> id.None?
  {
    if !accepted then Some(QueryFailed)
    else if id.None? then Some(NotNullViolation)
    else None
  }

  /** The number of writes of a batch that store their row, when the batch
      has identifiers `ids` and the database rejects attempt `k` exactly
      when `k` is in `failAt`. */
  function WrittenCount(ids: seq<Option<string>>, failAt: set<nat>): (n: nat)
    ensures n <= |ids|
    ensures n == |ids| <==> forall k :: 0 <= k < |ids| ==> Writes(ids[k], k !in failAt)
  {
    if ids == [] then 0
    else
      var k := |ids| - 1;
      WrittenCount(ids[..k], failAt) + (if Writes(ids[k], k !in failAt) then 1 else 0)
  }

  /** Per-write fault isolation: when exactly one write of a batch fails, all
      the others are still counted. */
  lemma {:induction false} OneFailureCountsTheRest(ids: seq<Option<string>>, failAt: set<nat>, k: nat)
    requires k < |ids|
    requires !Writes(ids[k], k !in failAt)
    requires forall j :: 0 <= j < |ids| && j != k ==> Writes(ids[j], j !in failAt)
    ensures WrittenCount(ids, failAt) == |ids| - 1
  {
    var n := |ids| - 1;
    if k == n {
      assert forall j :: 0 <= j < n ==> ids[..n][j] == ids[j];
    } else {
      assert forall j :: 0 <= j < n ==> ids[..n][j] == ids[j];
      OneFailureCountsTheRest(ids[..n], failAt, k);
    }
  }

  /** One more write of a batch adds one to the count exactly when it stores
      its row. */
  lemma {:induction false} WrittenCountSnoc(ids: seq<Option<string>>, failAt: set<nat>, i: nat)
    requires i < |ids|
    ensures WrittenCount(ids[..i + 1], failAt) ==
              WrittenCount(ids[..i], failAt) + (if Writes(ids[i], i !in failAt) then 1 else 0)
  {
    assert ids[..i + 1][..i] == ids[..i];
  }
}
