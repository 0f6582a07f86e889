/** Sequences: without repetition, without one of their members, and joined. */
module Sequences {
  ghost predicate Distinct<T>(s: seq<T>) {
    forall j, k :: 0 <= j < k < |s| ==> s[j] != s[k]
  }

  /** `x` taken out wherever it occurs. */
  function Without<T(==)>(s: seq<T>, x: T): (r: seq<T>) {
    if s == [] then [] else (if s[0] == x then [] else [s[0]]) + Without(s[1..], x)
  }

  lemma {:induction false} WithoutMembers<T>(s: seq<T>, x: T)
    ensures |Without(s, x)| <= |s|
    ensures forall y :: y in Without(s, x) ==> y in s && y != x
    ensures forall y :: y in s && y != x ==> y in Without(s, x)
  {
    if s != [] {
      WithoutMembers(s[1..], x);
      assert forall y :: y in s <==> y == s[0] || y in s[1..];
    }
  }

  lemma {:induction false} WithoutDistinct<T>(s: seq<T>, x: T)
    requires Distinct(s)
    ensures Distinct(Without(s, x))
  {
    if s != [] {
      WithoutDistinct(s[1..], x);
      WithoutMembers(s[1..], x);
      assert s[0] !in s[1..];
      hide Without;
    }
  }

  lemma WithoutFacts<T>(s: seq<T>, x: T)
    requires Distinct(s)
    ensures Distinct(Without(s, x)) && |Without(s, x)| <= |s|
    ensures forall y :: y in Without(s, x) <==> y in s && y != x
    ensures forall k :: 0 <= k < |Without(s, x)| ==> Without(s, x)[k] in s && Without(s, x)[k] != x
  {
    hide Distinct, Without;
    WithoutDistinct(s, x);
    WithoutMembers(s, x);
    var r := Without(s, x);
    forall k | 0 <= k < |r|
      ensures r[k] in s && r[k] != x
    {
      assert r[k] in r;
    }
  }

  lemma {:induction false} WithoutAt<T>(s: seq<T>, i: nat)
    requires i < |s| && Distinct(s)
    ensures Without(s, s[i]) == s[..i] + s[i + 1..]
  {
    if i == 0 {
      WithoutOther(s[1..], s[0]);
      assert s[..0] + s[1..] == s[1..];
    } else {
      WithoutAt(s[1..], i - 1);
      hide Without, Distinct;
      assert s[..i] == [s[0]] + s[1..][..i - 1] && s[1..][i..] == s[i + 1..];
      assert s[..i] + s[i + 1..] == [s[0]] + (s[1..][..i - 1] + s[i + 1..]);
    }
  }

  lemma {:induction false} WithoutOther<T>(s: seq<T>, x: T)
    requires x !in s
    ensures Without(s, x) == s
  {
    if s != [] {
      WithoutOther(s[1..], x);
    }
  }

  function Repeat<T>(x: T, n: nat): (r: seq<T>)
    ensures |r| == n
  {
    seq(n, _ => x)
  }

  /** All pieces, one after the other. */
  function Concat<T>(pieces: seq<seq<T>>): (r: seq<T>) {
    if pieces == [] then [] else pieces[0] + Concat(pieces[1..])
  }

  lemma {:induction false} ConcatJoin<T>(a: seq<seq<T>>, b: seq<seq<T>>)
    ensures Concat(a + b) == Concat(a) + Concat(b)
  {
    if a == [] {
      assert a + b == b && Concat(a) + Concat(b) == Concat(b);
    } else {
      assert (a + b)[1..] == a[1..] + b;
      ConcatJoin(a[1..], b);
      assert a[0] + (Concat(a[1..]) + Concat(b)) == (a[0] + Concat(a[1..])) + Concat(b);
    }
  }

  /** A piece of a prefix is a piece of the whole. */
  lemma PieceOfFront<T>(s: seq<T>, k: nat, a: nat, b: nat)
    requires a <= b <= k <= |s|
    ensures s[..k][a..b] == s[a..b]
  {
    var x, y := s[..k][a..b], s[a..b];
    forall i | 0 <= i < |x|
      ensures x[i] == y[i]
    {
      assert s[..k][a + i] == s[a + i];
    }
    assert x == y;
  }

  /** So is a piece of what is behind. */
  lemma PieceOfBack<T>(s: seq<T>, k: nat, a: nat, b: nat)
    requires a <= b && k + b <= |s|
    ensures s[k..][a..b] == s[k + a..k + b]
  {
    var x, y := s[k..][a..b], s[k + a..k + b];
    forall i | 0 <= i < |x|
      ensures x[i] == y[i]
    {
      assert s[k..][a + i] == s[k + a + i];
    }
    assert x == y;
  }

  /** Two pieces that meet. */
  lemma PiecesMeet<T>(s: seq<T>, a: nat, m: nat, b: nat)
    requires a <= m <= b <= |s|
    ensures s[a..m] + s[m..b] == s[a..b]
  {
    var x, y := s[a..m] + s[m..b], s[a..b];
    forall i | 0 <= i < |x|
      ensures x[i] == y[i]
    {
      if i < m - a {
        assert x[i] == s[a..m][i] == s[a + i];
      } else {
        assert x[i] == s[m..b][i - (m - a)] == s[a + i];
      }
    }
    assert x == y;
  }

  /** Cutting two joined sequences inside the first. */
  lemma CutInFirst<T>(a: seq<T>, b: seq<T>, n: nat)
    requires n <= |a|
    ensures (a + b)[n..] == a[n..] + b && (a + b)[..n] == a[..n]
  {
    var x, y := (a + b)[n..], a[n..] + b;
    forall i | 0 <= i < |x|
      ensures x[i] == y[i]
    {
      assert x[i] == (a + b)[n + i];
    }
    assert x == y;
  }

  lemma Associate<T>(a: seq<T>, b: seq<T>, c: seq<T>)
    ensures (a + b) + c == a + (b + c)
  {
  }

  lemma ConcatOne<T>(x: seq<T>)
    ensures Concat([x]) == x
  {
    assert Concat<T>([]) == [] && x + [] == x;
  }
}
