/** The JavaScript value semantics the ingestion code leans on: truthiness of
    optional strings, the `a || b` default idiom, `Array.prototype.filter`
    and `Array.prototype.join`. */
module JsValues {
  import opened Wrappers
  import opened SeqFacts

  /** A `Date` built from a source timestamp, or the current time. Parsing is
      not modelled: the value is carried through unchanged. */
  type Instant = int

  /** A latitude or longitude (a JavaScript number), carried through unchanged. */
  type Coordinate = real

  /** A JSON object stored in a JSONB column: keys whose value is `undefined`
      do not appear, as `JSON.stringify` drops them. */
  type Json = map<string, string>

  /** An optional string is truthy when it is present and not empty. */
  predicate Truthy(s: Option<string>) {
    s.Some? && s.value != ""
  }

  /** `s || fallback` for an optional string and a string fallback. */
  function Or(s: Option<string>, fallback: string): (r: string)
    ensures Truthy(s) ==> r == s.value
    ensures !Truthy(s) ==> r == fallback
    ensures r == "" ==> fallback == ""
  {
    if Truthy(s) then s.value else fallback
  }

  /** `xs.filter(keep)`: the elements that satisfy `keep`, in their order. */
  function Filter<T>(xs: seq<T>, keep: T -> bool): (r: seq<T>)
    ensures |r| <= |xs|
    ensures forall i :: 0 <= i < |r| ==> r[i] in xs && keep(r[i])
    ensures forall i :: 0 <= i < |xs| && keep(xs[i]) ==> xs[i] in r
    ensures |r| == |xs| <==> forall i :: 0 <= i < |xs| ==> keep(xs[i])
  {
    if xs == [] then []
    else
      var rest := Filter(xs[1..], keep);
      assert forall i :: 1 <= i < |xs| ==> xs[i] == xs[1..][i - 1];
      if keep(xs[0]) then [xs[0]] + rest else rest
  }

  /** The positions of `xs` whose element satisfies `keep`. */
  function Matching<T>(xs: seq<T>, keep: T -> bool): set<nat> {
    set i: nat | i < |xs| && keep(xs[i])
  }

  /** One step of the filter: the first element, if kept, then the filter
      of the rest. */
  lemma FilterFirst<T>(xs: seq<T>, keep: T -> bool)
    requires xs != []
    ensures Filter(xs, keep) == (if keep(xs[0]) then [xs[0]] else []) + Filter(xs[1..], keep)
  {
  }

  /** Filtering a concatenation filters each part, in order: the kept
      elements keep their relative order and every occurrence is kept. */
  lemma {:induction false} FilterAppend<T>(a: seq<T>, b: seq<T>, keep: T -> bool)
    ensures Filter(a + b, keep) == Filter(a, keep) + Filter(b, keep)
  {
    if a == [] {
      assert a + b == b;
    } else {
      var ab := a + b;
      assert ab[0] == a[0] && ab[1..] == a[1..] + b;
      var head := if keep(a[0]) then [a[0]] else [];
      FilterFirst(ab, keep);
      FilterFirst(a, keep);
      FilterAppend(a[1..], b, keep);
      AppendAssociates(head, Filter(a[1..], keep), Filter(b, keep));
    }
  }

  /** Filtering a sequence with one more element at its end: the earlier
      result, followed by that element exactly when it is kept. */
  lemma FilterSnoc<T>(xs: seq<T>, x: T, keep: T -> bool)
    ensures Filter(xs + [x], keep) == Filter(xs, keep) + if keep(x) then [x] else []
  {
    FilterAppend(xs, [x], keep);
    FilterFirst([x], keep);
    assert [x][1..] == [];
  }

  /** The positions matching in a sequence with one more element at its end. */
  lemma MatchingSnoc<T>(xs: seq<T>, keep: T -> bool)
    requires xs != []
    ensures var n := |xs| - 1;
            && n !in Matching(xs[..n], keep)
            && Matching(xs, keep) == Matching(xs[..n], keep) + if keep(xs[n]) then {n} else {}
  {
    var n := |xs| - 1;
    assert forall i :: 0 <= i < n ==> xs[..n][i] == xs[i];
  }

  /** A filter keeps exactly one element per position that satisfies the test. */
  lemma {:induction false} FilterCount<T>(xs: seq<T>, keep: T -> bool)
    ensures |Filter(xs, keep)| == |Matching(xs, keep)|
    decreases |xs|
  {
    if xs == [] {
      assert Matching(xs, keep) == {};
    } else {
      var n := |xs| - 1;
      var init := xs[..n];
      assert xs == init + [xs[n]];
      FilterSnoc(init, xs[n], keep);
      FilterCount(init, keep);
      MatchingSnoc(xs, keep);
    }
  }

  /** `parts.join(sep)`. */
  function Join(parts: seq<string>, sep: string): (r: string)
    ensures r == "" <==> (forall i :: 0 <= i < |parts| ==> parts[i] == "") && (|parts| <= 1 || sep == "")
    ensures |parts| == 1 ==> r == parts[0]
  {
    if |parts| == 0 then ""
    else if |parts| == 1 then parts[0]
    else
      var rest := Join(parts[1..], sep);
      assert forall i :: 1 <= i < |parts| ==> parts[i] == parts[1..][i - 1];
      parts[0] + sep + rest
  }

  /** `join` puts the separator between each part and the next: joining
      one more part appends the separator and that part. */
  lemma {:induction false} JoinSnoc(parts: seq<string>, last: string, sep: string)
    requires parts != []
    ensures Join(parts + [last], sep) == Join(parts, sep) + sep + last
  {
    var whole := parts + [last];
    assert whole[0] == parts[0];
    if |parts| == 1 {
      assert whole[1..] == [last];
    } else {
      assert whole[1..] == parts[1..] + [last];
      JoinSnoc(parts[1..], last, sep);
    }
  }
}
