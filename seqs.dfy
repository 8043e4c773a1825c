/** Facts about sequences and maps that the proofs use at specific types. */
module Seqs {

  lemma AppendAssoc<T>(x: seq<T>, y: seq<T>, z: seq<T>)
    ensures (x + y) + z == x + (y + z)
  {
  }

  /** A non-empty sequence is its first element followed by the rest. */
  lemma FirstAndRest<T>(s: seq<T>)
    requires |s| > 0
    ensures [s[0]] + s[1..] == s
  {
  }

  lemma RestOfCons<T>(x: T, s: seq<T>)
    ensures ([x] + s)[1..] == s
  {
  }

  /** A non-empty sequence is all but its last element followed by the last. */
  lemma FrontAndLast<T>(s: seq<T>)
    requires |s| > 0
    ensures s[..|s| - 1] + [s[|s| - 1]] == s
  {
  }

  /** Storing a key's own value again leaves a map as it was. */
  lemma UpdateSame<K, V>(m: map<K, V>, k: K)
    requires k in m
    ensures m[k := m[k]] == m
  {
  }

  /** Of two stores to the same key, the second wins. */
  lemma UpdateTwice<K, V>(m: map<K, V>, k: K, v: V, w: V)
    ensures m[k := v][k := w] == m[k := w]
  {
  }

  /** The elements of xs that satisfy p, in order. */
  function Filter<T>(p: T -> bool, xs: seq<T>): seq<T>
    decreases |xs|
  {
    if |xs| == 0 then [] else Filter(p, xs[..|xs| - 1]) + (if p(xs[|xs| - 1]) then [xs[|xs| - 1]] else [])
  }

  lemma {:induction false} FilterAppend<T>(p: T -> bool, a: seq<T>, b: seq<T>)
    ensures Filter(p, a + b) == Filter(p, a) + Filter(p, b)
    decreases |b|
  {
    if |b| == 0 {
      assert a + b == a;
    } else {
      var n := |b| - 1;
      var ab := a + b;
      assert ab[..|ab| - 1] == a + b[..n];
      assert ab[|ab| - 1] == b[n];
      FilterAppend(p, a, b[..n]);
      AppendAssoc(Filter(p, a), Filter(p, b[..n]), if p(b[n]) then [b[n]] else []);
    }
  }

  lemma {:induction false} FilterMembership<T>(p: T -> bool, xs: seq<T>, x: T)
    ensures x in Filter(p, xs) <==> x in xs && p(x)
    decreases |xs|
  {
    if |xs| > 0 {
      FilterMembership(p, xs[..|xs| - 1], x);
      FrontAndLast(xs);
    }
  }
}
