/** Permutations of sequences, taken apart one element at a time, and what
    mapping, flattening and summing do to them. */
module Permutations {

  lemma {:induction false} TakeOut<X>(p: seq<X>, q: seq<X>) returns (i: nat)
    requires p != [] && multiset(p) == multiset(q)
    ensures i < |q| && q[i] == p[|p| - 1]
    ensures q == q[..i] + [q[i]] + q[i + 1..]
    ensures multiset(p[..|p| - 1]) == multiset(q[..i] + q[i + 1..])
  {
    var n := |p| - 1;
    var x := p[n];
    assert x in multiset(p);
    assert x in multiset(q);
    i :| 0 <= i < |q| && q[i] == x;
    assert p == p[..n] + [x];
    assert q == q[..i] + [x] + q[i + 1..];
    assert multiset(p) == multiset(p[..n]) + multiset{x};
    assert multiset(q) == multiset(q[..i]) + multiset{x} + multiset(q[i + 1..]);
    assert multiset(q[..i] + q[i + 1..]) == multiset(q[..i]) + multiset(q[i + 1..]);
    assert multiset(p[..n]) == multiset(p) - multiset{x};
    assert multiset(q[..i] + q[i + 1..]) == multiset(q) - multiset{x};
  }

  lemma {:induction false} MiddleOut<X>(a: seq<X>, x: X, c: seq<X>)
    ensures multiset(a + [x] + c) == multiset(a + c) + multiset{x}
  {
  }

  lemma {:induction false} NothingPermuted<X>(p: seq<X>, q: seq<X>)
    requires multiset(p) == multiset(q)
    ensures |p| == |q|
  {
    assert |multiset(p)| == |multiset(q)|;
  }

  lemma {:induction false} Permuted<X>(p: seq<X>, q: seq<X>, x: X)
    requires multiset(p) == multiset(q) && x in q
    ensures x in p
  {
    assert x in multiset(q);
    assert x in multiset(p);
  }

  lemma {:induction false} CountDistinct<X>(s: seq<X>, x: X)
    requires forall i, j :: 0 <= i < j < |s| ==> s[i] != s[j]
    ensures multiset(s)[x] == if x in s then 1 else 0
  {
    if s != [] {
      var n := |s| - 1;
      CountDistinct(s[..n], x);
      assert s == s[..n] + [s[n]];
      assert multiset(s) == multiset(s[..n]) + multiset{s[n]};
      assert s[n] !in s[..n];
    }
  }

  /** Two lists without repetition and with the same members are permutations. */
  lemma {:induction false} SameMembers<X>(p: seq<X>, q: seq<X>)
    requires forall i, j :: 0 <= i < j < |p| ==> p[i] != p[j]
    requires forall i, j :: 0 <= i < j < |q| ==> q[i] != q[j]
    requires forall x :: x in p <==> x in q
    ensures multiset(p) == multiset(q)
  {
    forall x: X ensures multiset(p)[x] == multiset(q)[x] {
      CountDistinct(p, x);
      CountDistinct(q, x);
    }
  }

  // ---------------------------------------------------------------- selections

  /** The positions of exactly the members that are wanted, ascending. */
  ghost predicate Selects<X>(idx: seq<nat>, s: seq<X>, want: X -> bool) {
    && (forall a, b :: 0 <= a < b < |idx| ==> idx[a] < idx[b])
    && (forall a :: 0 <= a < |idx| ==> idx[a] < |s| && want(s[idx[a]]))
    && forall i: nat :: i < |s| && want(s[i]) ==> i in idx
  }

  /** `out` are the images of the members of `s` at the positions `idx`. */
  ghost predicate Images<X, Y>(idx: seq<nat>, s: seq<X>, f: X -> Y, out: seq<Y>) {
    |out| == |idx| && forall k :: 0 <= k < |idx| ==> idx[k] < |s| && out[k] == f(s[idx[k]])
  }

  /** The images of the wanted members of `s`. */
  ghost function Picked<X, Y>(s: seq<X>, want: X -> bool, f: X -> Y): seq<Y> {
    if s == [] then []
    else
      var n := |s| - 1;
      Picked(s[..n], want, f) + if want(s[n]) then [f(s[n])] else []
  }

  /** These are all of them, once each and in order. */
  lemma {:induction false} PickedMeans<X, Y>(s: seq<X>, want: X -> bool, f: X -> Y) returns (idx: seq<nat>)
    ensures Selects(idx, s, want) && Images(idx, s, f, Picked(s, want, f))
  {
    if s == [] {
      idx := [];
    } else {
      var n: nat := |s| - 1;
      var init := PickedMeans(s[..n], want, f);
      idx := if want(s[n]) then init + [n] else init;
      SelectStep(init, s, want, idx);
    }
  }

  lemma {:induction false} SelectStep<X>(idx: seq<nat>, s: seq<X>, want: X -> bool, more: seq<nat>)
    requires s != [] && Selects(idx, s[..|s| - 1], want)
    requires more == if want(s[|s| - 1]) then idx + [|s| - 1] else idx
    ensures Selects(more, s, want)
  {
    var n: nat := |s| - 1;
  }

  // --------------------------------------------------------------------- maps

  function MapSeq<X, Y>(s: seq<X>, f: X -> Y): (out: seq<Y>)
    ensures |out| == |s|
    ensures forall k :: 0 <= k < |s| ==> out[k] == f(s[k])
  {
    if s == [] then [] else MapSeq(s[..|s| - 1], f) + [f(s[|s| - 1])]
  }

  lemma {:induction false} MapAppend<X, Y>(a: seq<X>, b: seq<X>, f: X -> Y)
    ensures MapSeq(a + b, f) == MapSeq(a, f) + MapSeq(b, f)
  {
  }

  lemma {:induction false} MapPermuted<X, Y>(a: seq<X>, b: seq<X>, f: X -> Y)
    requires multiset(a) == multiset(b)
    ensures multiset(MapSeq(a, f)) == multiset(MapSeq(b, f))
  {
    NothingPermuted(a, b);
    if a != [] {
      var n := |a| - 1;
      var i := TakeOut(a, b);
      MapPermuted(a[..n], b[..i] + b[i + 1..], f);
      MapAppend(b[..i], b[i + 1..], f);
      MapAppend(b[..i] + [b[i]], b[i + 1..], f);
      MiddleOut(MapSeq(b[..i], f), f(b[i]), MapSeq(b[i + 1..], f));
      assert MapSeq(b[..i] + [b[i]], f) == MapSeq(b[..i], f) + [f(b[i])];
    }
  }

  function Flatten<X>(ss: seq<seq<X>>): seq<X> {
    if ss == [] then [] else Flatten(ss[..|ss| - 1]) + ss[|ss| - 1]
  }

  lemma {:induction false} FlattenAppend<X>(a: seq<seq<X>>, b: seq<seq<X>>)
    ensures Flatten(a + b) == Flatten(a) + Flatten(b)
  {
    if b == [] {
      assert a + b == a;
    } else {
      var n := |b| - 1;
      assert (a + b)[..|a + b| - 1] == a + b[..n];
      FlattenAppend(a, b[..n]);
    }
  }

  lemma {:induction false} FlattenOneMore<X>(ss: seq<seq<X>>, n: nat)
    requires 0 < n <= |ss|
    ensures Flatten(ss[..n]) == Flatten(ss[..n - 1]) + ss[n - 1]
  {
    assert ss[..n][..n - 1] == ss[..n - 1];
  }

  /** What each entry contributes, one after the other. */
  ghost function FlatMap<X, Y>(s: seq<X>, f: X -> seq<Y>): seq<Y> {
    Flatten(MapSeq(s, f))
  }

  lemma {:induction false} FlatMapOneMore<X, Y>(s: seq<X>, f: X -> seq<Y>, n: nat)
    requires n < |s|
    ensures FlatMap(s[..n + 1], f) == FlatMap(s[..n], f) + f(s[n])
  {
    assert s[..n + 1][..n] == s[..n];
    var a := MapSeq(s[..n], f);
    assert (a + [f(s[n])])[..n] == a;
  }

  lemma {:induction false} FlatMapSame<X, Y>(s: seq<X>, f: X -> seq<Y>, g: X -> seq<Y>)
    requires forall k :: 0 <= k < |s| ==> f(s[k]) == g(s[k])
    ensures FlatMap(s, f) == FlatMap(s, g)
  {
    assert MapSeq(s, f) == MapSeq(s, g);
  }

  lemma {:induction false} FlatMapIn<X, Y>(s: seq<X>, f: X -> seq<Y>, y: Y)
    ensures y in FlatMap(s, f) <==> exists k :: 0 <= k < |s| && y in f(s[k])
  {
    if s != [] {
      var n := |s| - 1;
      FlatMapIn(s[..n], f, y);
      FlatMapOneMore(s, f, n);
      assert s[..n + 1] == s;
      assert forall k :: 0 <= k < n ==> s[..n][k] == s[k];
    }
  }

  lemma {:induction false} FlattenPermuted<X>(a: seq<seq<X>>, b: seq<seq<X>>)
    requires multiset(a) == multiset(b)
    ensures multiset(Flatten(a)) == multiset(Flatten(b))
  {
    NothingPermuted(a, b);
    if a != [] {
      var n := |a| - 1;
      var i := TakeOut(a, b);
      FlattenPermuted(a[..n], b[..i] + b[i + 1..]);
      FlattenAppend(b[..i], b[i + 1..]);
      FlattenAppend(b[..i] + [b[i]], b[i + 1..]);
      assert Flatten(b[..i] + [b[i]]) == Flatten(b[..i]) + b[i];
    }
  }

  lemma {:induction false} FlatMapPermuted<X, Y>(a: seq<X>, b: seq<X>, f: X -> seq<Y>)
    requires multiset(a) == multiset(b)
    ensures multiset(FlatMap(a, f)) == multiset(FlatMap(b, f))
  {
    MapPermuted(a, b, f);
    FlattenPermuted(MapSeq(a, f), MapSeq(b, f));
  }

  // --------------------------------------------------------------------- sums

  function Sum<X>(s: seq<X>, f: X -> int): int {
    if s == [] then 0 else Sum(s[..|s| - 1], f) + f(s[|s| - 1])
  }

  lemma {:induction false} SumAppend<X>(a: seq<X>, b: seq<X>, f: X -> int)
    ensures Sum(a + b, f) == Sum(a, f) + Sum(b, f)
  {
    if b == [] {
      assert a + b == a;
    } else {
      var n := |b| - 1;
      assert (a + b)[..|a + b| - 1] == a + b[..n];
      SumAppend(a, b[..n], f);
    }
  }

  lemma {:induction false} SumSnoc<X>(s: seq<X>, x: X, f: X -> int)
    ensures Sum(s + [x], f) == Sum(s, f) + f(x)
  {
    assert (s + [x])[..|s|] == s;
  }

  /** A sum does not depend on the order of its terms. */
  lemma {:induction false} SumPermuted<X>(a: seq<X>, b: seq<X>, f: X -> int)
    requires multiset(a) == multiset(b)
    ensures Sum(a, f) == Sum(b, f)
  {
    NothingPermuted(a, b);
    if a != [] {
      var n := |a| - 1;
      var i := TakeOut(a, b);
      SumPermuted(a[..n], b[..i] + b[i + 1..], f);
      SumAppend(b[..i], b[i + 1..], f);
      SumAppend(b[..i] + [b[i]], b[i + 1..], f);
      SumSnoc(b[..i], b[i], f);
    }
  }

  function Min(a: int, b: int): (m: int)
    ensures m <= a && m <= b && (m == a || m == b)
  {
    if a <= b then a else b
  }
}
