/** Facts about sequences that the loops over batches use, proved once for
    every element type. */
module SeqFacts {

  lemma {:induction false} TakeOneMore<T>(s: seq<T>, i: nat)
    requires i < |s|
    ensures s[..i + 1] == s[..i] + [s[i]]
  {
  }

  lemma {:induction false} AppendOneMore<T>(a: seq<T>, s: seq<T>, i: nat)
    requires i < |s|
    ensures a + s[..i + 1] == (a + s[..i]) + [s[i]]
  {
    TakeOneMore(s, i);
  }

  lemma {:induction false} PrefixKept<T>(a: seq<T>, extra: seq<T>, n: nat)
    requires n <= |a|
    ensures (a + extra)[..n] == a[..n]
  {
  }

  lemma {:induction false} TakeAll<T>(s: seq<T>)
    ensures s[..|s|] == s
  {
  }

  lemma {:induction false} AppendAssociates<T>(a: seq<T>, b: seq<T>, c: seq<T>)
    ensures (a + b) + c == a + (b + c)
  {
  }

  lemma {:induction false} AppendNothing<T>(a: seq<T>)
    ensures a + [] == a
  {
  }
}
