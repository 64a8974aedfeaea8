/** What the join operators compute, on sequences of rows: the hash forms as
    the code runs them, the simple forms, and how they are related. */
module Joins {
  import opened Tables
  import opened Keys
  import opened Filters
  import opened Permutations

  /** The way an operator decides that a left and a right row match. */
  type Test = (Row, Row) -> bool

  /** Table built on the left, probed from the right, then the non-equality filters. */
  function HashLeft(fs: seq<Filter>): Test {
    (l: Row, r: Row) => HashTest(fs, l, r)
  }

  /** Table built on the right, probed from the left; equality filters only. */
  function HashRight(fs: seq<Filter>): Test {
    (l: Row, r: Row) => BuildKey(r, EqRight(fs)) == ProbeKey(l, EqLeft(fs))
  }

  /** The whole filter list. */
  function ByFilters(fs: seq<Filter>): Test {
    (l: Row, r: Row) => PassesAll(fs, l, r)
  }

  /** The list as the nested loop reads it. */
  function ByLoop(fs: seq<Filter>): Test {
    (l: Row, r: Row) => PassesLoop(fs, l, r)
  }

  /** Its equality filters only. */
  function ByEqualities(fs: seq<Filter>): Test {
    (l: Row, r: Row) => PassesEqualities(fs, l, r)
  }

  /** Its equality filters on values as they are printed. */
  function ByPrinted(fs: seq<Filter>): Test {
    (l: Row, r: Row) => PassesPrinted(fs, l, r)
  }

  /** The whole list in SQL's sense: no condition holds of NULL. */
  function ByKnown(fs: seq<Filter>): Test {
    (l: Row, r: Row) => PassesAll(fs, l, r) && NoNulls(fs, l, r)
  }

  /** The whole list, with integers narrowed to 32 bits. */
  function Correlated(fs: seq<Filter>): Test {
    (l: Row, r: Row) => PassesNarrowed(fs, l, r)
  }

  ghost predicate SameTest(t: Test, u: Test, left: seq<Row>, right: seq<Row>) {
    forall i, j :: 0 <= i < |left| && 0 <= j < |right| ==> t(left[i], right[j]) == u(left[i], right[j])
  }

  // -------------------------------------------------------------- inner joins

  /** The matches of one right row, by ascending left index. */
  function MatchesOfRight(left: seq<Row>, r: Row, t: Test): seq<Row> {
    if left == [] then []
    else MatchesOfRight(left[..|left| - 1], r, t) + PairOf(left[|left| - 1], r, t)
  }

  function PairOf(l: Row, r: Row, t: Test): seq<Row> {
    if t(l, r) then [l + r] else []
  }

  /** Right-major join: the order in which the streaming hash join emits rows. */
  function JoinRightMajor(left: seq<Row>, right: seq<Row>, t: Test): seq<Row> {
    if right == [] then []
    else JoinRightMajor(left, right[..|right| - 1], t) + MatchesOfRight(left, right[|right| - 1], t)
  }

  /** The matches of one left row, by ascending right index. */
  function MatchesOfLeft(l: Row, right: seq<Row>, t: Test): seq<Row> {
    if right == [] then []
    else MatchesOfLeft(l, right[..|right| - 1], t) + PairOf(l, right[|right| - 1], t)
  }

  /** Left-major join: two nested loops. */
  function JoinLeftMajor(left: seq<Row>, right: seq<Row>, t: Test): seq<Row> {
    if left == [] then []
    else JoinLeftMajor(left[..|left| - 1], right, t) + MatchesOfLeft(left[|left| - 1], right, t)
  }

  lemma {:induction false} RightMajorStep(left: seq<Row>, right: seq<Row>, t: Test)
    requires left != []
    ensures var n := |left| - 1;
      multiset(JoinRightMajor(left, right, t))
      == multiset(JoinRightMajor(left[..n], right, t)) + multiset(MatchesOfLeft(left[n], right, t))
  {
    if right != [] {
      var m := |right| - 1;
      RightMajorStep(left, right[..m], t);
      assert MatchesOfRight(left, right[m], t)
          == MatchesOfRight(left[..|left| - 1], right[m], t) + PairOf(left[|left| - 1], right[m], t);
    }
  }

  /** The matches of a left row are the right rows that pass the test, in order. */
  lemma {:induction false} MatchesOfLeftMean(l: Row, right: seq<Row>, t: Test) returns (idx: seq<nat>)
    ensures Selects(idx, right, (r: Row) => t(l, r))
    ensures Images(idx, right, (r: Row) => l + r, MatchesOfLeft(l, right, t))
  {
    var want, beside := (r: Row) => t(l, r), (r: Row) => l + r;
    MatchesOfLeftPicked(l, right, t, want, beside);
    idx := PickedMeans(right, want, beside);
  }

  lemma {:induction false} MatchesOfLeftPicked(l: Row, right: seq<Row>, t: Test, want: Row -> bool, beside: Row -> Row)
    requires forall r :: want(r) == t(l, r) && beside(r) == l + r
    ensures MatchesOfLeft(l, right, t) == Picked(right, want, beside)
  {
    if right != [] {
      MatchesOfLeftPicked(l, right[..|right| - 1], t, want, beside);
    }
  }

  /** The matches of a right row, by ascending left index. */
  lemma {:induction false} MatchesOfRightMean(left: seq<Row>, r: Row, t: Test) returns (idx: seq<nat>)
    ensures Selects(idx, left, (l: Row) => t(l, r))
    ensures Images(idx, left, (l: Row) => l + r, MatchesOfRight(left, r, t))
  {
    var want, beside := (l: Row) => t(l, r), (l: Row) => l + r;
    MatchesOfRightPicked(left, r, t, want, beside);
    idx := PickedMeans(left, want, beside);
  }

  lemma {:induction false} MatchesOfRightPicked(left: seq<Row>, r: Row, t: Test, want: Row -> bool, beside: Row -> Row)
    requires forall l :: want(l) == t(l, r) && beside(l) == l + r
    ensures MatchesOfRight(left, r, t) == Picked(left, want, beside)
  {
    if left != [] {
      MatchesOfRightPicked(left[..|left| - 1], r, t, want, beside);
    }
  }

  /** The joins are these matches, of one right (left) row after the other. */
  lemma {:induction false} JoinsMean(left: seq<Row>, right: seq<Row>, t: Test)
    ensures JoinRightMajor(left, right, t) == FlatMap(right, (r: Row) => MatchesOfRight(left, r, t))
    ensures JoinLeftMajor(left, right, t) == FlatMap(left, (l: Row) => MatchesOfLeft(l, right, t))
    decreases |left| + |right|
  {
    var f, g := (r: Row) => MatchesOfRight(left, r, t), (l: Row) => MatchesOfLeft(l, right, t);
    if right != [] {
      var n := |right| - 1;
      JoinsMean(left, right[..n], t);
      assert right[..n + 1] == right;
      FlatMapOneMore(right, f, n);
    }
    if left != [] {
      var n := |left| - 1;
      JoinsMean(left[..n], right, t);
      assert left[..n + 1] == left;
      FlatMapOneMore(left, g, n);
    }
  }

  /** Both loop orders produce the same rows with the same multiplicities. */
  lemma {:induction false} LoopOrderIsImmaterial(left: seq<Row>, right: seq<Row>, t: Test)
    ensures multiset(JoinRightMajor(left, right, t)) == multiset(JoinLeftMajor(left, right, t))
  {
    if left == [] {
      NothingToJoin(right, t);
    } else {
      RightMajorStep(left, right, t);
      LoopOrderIsImmaterial(left[..|left| - 1], right, t);
    }
  }

  lemma {:induction false} NothingToJoin(right: seq<Row>, t: Test)
    ensures JoinRightMajor([], right, t) == []
  {
    if right != [] {
      NothingToJoin(right[..|right| - 1], t);
    }
  }

  lemma {:induction false} MatchesOfRightSame(left: seq<Row>, r: Row, t: Test, u: Test)
    requires forall i :: 0 <= i < |left| ==> t(left[i], r) == u(left[i], r)
    ensures MatchesOfRight(left, r, t) == MatchesOfRight(left, r, u)
  {
    if left != [] {
      MatchesOfRightSame(left[..|left| - 1], r, t, u);
    }
  }

  lemma {:induction false} RightMajorSame(left: seq<Row>, right: seq<Row>, t: Test, u: Test)
    requires SameTest(t, u, left, right)
    ensures JoinRightMajor(left, right, t) == JoinRightMajor(left, right, u)
  {
    if right != [] {
      var m := |right| - 1;
      RightMajorSame(left, right[..m], t, u);
      MatchesOfRightSame(left, right[m], t, u);
    }
  }

  /** Every pair of rows is typed as the filter list expects. */
  ghost predicate AllTyped(fs: seq<Filter>, left: seq<Row>, right: seq<Row>) {
    forall i, j :: 0 <= i < |left| && 0 <= j < |right| ==> WellTyped(fs, left[i], right[j])
  }

  ghost predicate AllEqTyped(fs: seq<Filter>, left: seq<Row>, right: seq<Row>) {
    forall i, j :: 0 <= i < |left| && 0 <= j < |right| ==> EqTyped(fs, left[i], right[j])
  }

  ghost predicate AllSafe(rows: seq<Row>, cols: seq<string>, build: bool) {
    forall i :: 0 <= i < |rows| ==> SafeKey(rows[i], cols, build)
  }

  /** No pair that the hash join finds has different floats that print alike. */
  ghost predicate FloatsApart(left: seq<Row>, right: seq<Row>, fs: seq<Filter>) {
    forall i, j :: 0 <= i < |left| && 0 <= j < |right| ==>
      !(Rounded(fs, left[i], right[j]) && PassesPrinted(fs, left[i], right[j])
        && PassesNonEquality(fs, left[i], right[j]))
  }

  /** The streaming hash join emits the rows of the nested loop join, in
      right-major order, exactly when no different floats print alike: same
      sequence as the right-major simple join, same multiset as the nested loops. */
  lemma {:induction false} HashJoinRefinesNestedLoop(left: seq<Row>, right: seq<Row>, fs: seq<Filter>)
    requires fs != [] && AllTyped(fs, left, right)
    requires AllSafe(left, EqLeft(fs), true) || AllSafe(right, EqRight(fs), false)
    ensures JoinRightMajor(left, right, HashLeft(fs)) == JoinRightMajor(left, right, ByFilters(fs))
       <==> FloatsApart(left, right, fs)
    ensures multiset(JoinRightMajor(left, right, HashLeft(fs))) == multiset(JoinLeftMajor(left, right, ByFilters(fs)))
       <==> FloatsApart(left, right, fs)
  {
    forall i, j | 0 <= i < |left| && 0 <= j < |right|
      ensures ByFilters(fs)(left[i], right[j]) ==> HashLeft(fs)(left[i], right[j])
      ensures HashLeft(fs)(left[i], right[j]) == ByFilters(fs)(left[i], right[j])
         <==> !(Rounded(fs, left[i], right[j]) && PassesPrinted(fs, left[i], right[j])
                && PassesNonEquality(fs, left[i], right[j]))
    {
      assert WellTyped(fs, left[i], right[j]);
      HashTestIsFilterTest(fs, left[i], right[j]);
    }
    OrdersTell(left, right, HashLeft(fs), ByFilters(fs));
  }

  /** A pair with 0.0000001 and 0 in the key columns is joined by the hash join. */
  lemma {:induction false} HashJoinRoundsFloats(l: Row, r: Row, f: Filter)
    requires f.op.EQ? && Get(l, f.lv) == Float(0.0000001) && Get(r, f.rv) == Float(0.0)
    ensures HashLeft([f])(l, r) && !ByFilters([f])(l, r)
  {
    FloatsPrintAlike(l, r, f);
    assert EqTyped([f], l, r) by { assert [f][0] == f; }
    SingleColumn([f]);
    KeysAgree([f], l, r, true, false);
    assert !Condition([f][0], l, r);
  }

  /** A comparison with NULL compares its default value. The join is that of SQL
      exactly when no pair that passes the list has NULL in a compared column. */
  lemma {:induction false} NullsJoinIff(left: seq<Row>, right: seq<Row>, fs: seq<Filter>)
    ensures multiset(JoinLeftMajor(left, right, ByFilters(fs))) == multiset(JoinLeftMajor(left, right, ByKnown(fs)))
       <==> forall i, j :: 0 <= i < |left| && 0 <= j < |right| && PassesAll(fs, left[i], right[j]) ==>
              NoNulls(fs, left[i], right[j])
  {
    TestsTell(left, right, ByFilters(fs), ByKnown(fs));
  }

  // ------------------------------------------------------------- DATE columns

  /** Every pair is typed as the list expects; `firstDate` says whether the first
      condition is on a date. */
  ghost predicate AllTypedOrDate(fs: seq<Filter>, left: seq<Row>, right: seq<Row>, firstDate: bool) {
    && (forall i, j :: 0 <= i < |left| && 0 <= j < |right| ==> Typed(fs, left[i], right[j]))
    && fs != [] && forall i :: 0 <= i < |left| ==> Get(left[i], fs[0].lv).Date? == firstDate
  }

  /** The nested loop is right exactly when: on a first date condition, nothing
      passes the whole list; else, the pairs that pass its other conditions pass
      its date conditions. */
  lemma {:induction false} NestedLoopDatesIff(left: seq<Row>, right: seq<Row>, fs: seq<Filter>, firstDate: bool)
    requires fs != [] && forall i :: 0 <= i < |left| ==> Get(left[i], fs[0].lv).Date? == firstDate
    ensures multiset(JoinLeftMajor(left, right, ByLoop(fs))) == multiset(JoinLeftMajor(left, right, ByFilters(fs)))
       <==> forall i, j :: 0 <= i < |left| && 0 <= j < |right| ==>
              if firstDate then !PassesAll(fs, left[i], right[j])
              else PassesLoop(fs, left[i], right[j]) ==> PassesAll(fs, left[i], right[j])
  {
    if firstDate {
      TestsTell(left, right, ByFilters(fs), ByLoop(fs));
    } else {
      TestsTell(left, right, ByLoop(fs), ByFilters(fs));
    }
  }

  /** The hash join and the nested loop join the same rows exactly when, on a
      first date condition, no pair has equal keys and passes the non-equality
      filters, and else no different floats print alike. */
  lemma {:induction false} HashAndLoopIff(left: seq<Row>, right: seq<Row>, fs: seq<Filter>, firstDate: bool)
    requires AllTypedOrDate(fs, left, right, firstDate)
    requires AllSafe(left, EqLeft(fs), true) || AllSafe(right, EqRight(fs), false)
    ensures multiset(JoinRightMajor(left, right, HashLeft(fs))) == multiset(JoinLeftMajor(left, right, ByLoop(fs)))
       <==> if firstDate
            then forall i, j :: 0 <= i < |left| && 0 <= j < |right| ==>
                   !(PassesPrinted(fs, left[i], right[j]) && PassesNonEquality(fs, left[i], right[j]))
            else FloatsApart(left, right, fs)
  {
    forall i, j | 0 <= i < |left| && 0 <= j < |right|
      ensures ByLoop(fs)(left[i], right[j]) ==> HashLeft(fs)(left[i], right[j])
      ensures HashLeft(fs)(left[i], right[j]) == ByLoop(fs)(left[i], right[j])
         <==> if firstDate then !(PassesPrinted(fs, left[i], right[j]) && PassesNonEquality(fs, left[i], right[j]))
              else !(Rounded(fs, left[i], right[j]) && PassesPrinted(fs, left[i], right[j])
                     && PassesNonEquality(fs, left[i], right[j]))
    {
      TypedIsEqTyped(fs, left[i], right[j]);
      KeysAgree(fs, left[i], right[j], true, false);
      if !firstDate {
        HashTestIsLoopTest(fs, left[i], right[j]);
      }
    }
    OrdersTell(left, right, HashLeft(fs), ByLoop(fs));
  }

  lemma {:induction false} MatchesTell(left: seq<Row>, r: Row, t: Test, u: Test)
    requires forall i :: 0 <= i < |left| ==> u(left[i], r) ==> t(left[i], r)
    ensures |MatchesOfRight(left, r, u)| <= |MatchesOfRight(left, r, t)|
    ensures |MatchesOfRight(left, r, u)| == |MatchesOfRight(left, r, t)|
       <==> forall i :: 0 <= i < |left| ==> t(left[i], r) == u(left[i], r)
  {
    if left != [] {
      var n := |left| - 1;
      MatchesTell(left[..n], r, t, u);
      assert forall i :: 0 <= i < n ==> left[..n][i] == left[i];
    }
  }

  lemma {:induction false} SameTestLast(left: seq<Row>, right: seq<Row>, t: Test, u: Test)
    requires right != []
    ensures var n := |right| - 1;
      SameTest(t, u, left, right)
      <==> SameTest(t, u, left, right[..n]) && forall i :: 0 <= i < |left| ==>
        t(left[i], right[n]) == u(left[i], right[n])
  {
    var n := |right| - 1;
    assert forall j :: 0 <= j < n ==> right[..n][j] == right[j];
  }

  lemma {:induction false} JoinsTell(left: seq<Row>, right: seq<Row>, t: Test, u: Test)
    requires forall i, j :: 0 <= i < |left| && 0 <= j < |right| ==> u(left[i], right[j]) ==> t(left[i], right[j])
    ensures |JoinRightMajor(left, right, u)| <= |JoinRightMajor(left, right, t)|
    ensures |JoinRightMajor(left, right, u)| == |JoinRightMajor(left, right, t)| <==> SameTest(t, u, left, right)
  {
    if right != [] {
      var n := |right| - 1;
      var init := right[..n];
      assert forall j :: 0 <= j < n ==> init[j] == right[j];
      JoinsTell(left, init, t, u);
      MatchesTell(left, right[n], t, u);
      SameTestLast(left, right, t, u);
    }
  }

  /** Joins on two tests, one implying the other, have the same rows exactly when
      the tests agree on all pairs. */
  lemma {:induction false} TestsTell(left: seq<Row>, right: seq<Row>, t: Test, u: Test)
    requires forall i, j :: 0 <= i < |left| && 0 <= j < |right| ==> u(left[i], right[j]) ==> t(left[i], right[j])
    ensures multiset(JoinLeftMajor(left, right, t)) == multiset(JoinLeftMajor(left, right, u))
       <==> SameTest(t, u, left, right)
  {
    JoinsTell(left, right, t, u);
    LoopOrderIsImmaterial(left, right, t);
    LoopOrderIsImmaterial(left, right, u);
    var a, b := JoinRightMajor(left, right, t), JoinRightMajor(left, right, u);
    assert |multiset(a)| == |a| && |multiset(b)| == |b|;
    if SameTest(t, u, left, right) {
      RightMajorSame(left, right, t, u);
    }
  }

  /** ... in whatever order the rows come. */
  lemma {:induction false} OrdersTell(left: seq<Row>, right: seq<Row>, t: Test, u: Test)
    requires forall i, j :: 0 <= i < |left| && 0 <= j < |right| ==> u(left[i], right[j]) ==> t(left[i], right[j])
    ensures JoinRightMajor(left, right, t) == JoinRightMajor(left, right, u) <==> SameTest(t, u, left, right)
    ensures multiset(JoinRightMajor(left, right, t)) == multiset(JoinLeftMajor(left, right, u))
       <==> SameTest(t, u, left, right)
  {
    TestsTell(left, right, t, u);
    LoopOrderIsImmaterial(left, right, t);
    if SameTest(t, u, left, right) {
      RightMajorSame(left, right, t, u);
    }
    LoopOrderIsImmaterial(left, right, u);
  }

  // ----------------------------------------------------------- DATE equalities

  predicate DateEquality(f: Filter, l: Row) {
    f.op.EQ? && Get(l, f.lv).Date?
  }

  /** Both sides of every equality filter have one type. */
  predicate SameEqKinds(fs: seq<Filter>, l: Row, r: Row) {
    forall k :: 0 <= k < |fs| && fs[k].op.EQ? ==> SameKind(Get(l, fs[k].lv), Get(r, fs[k].rv))
  }

  function DateEqualities(fs: seq<Filter>, l: Row): nat {
    if fs == [] then 0
    else DateEqualities(fs[..|fs| - 1], l) + if DateEquality(fs[|fs| - 1], l) then 1 else 0
  }

  lemma {:induction false} SomeDateEquality(fs: seq<Filter>, l: Row)
    requires exists k :: 0 <= k < |fs| && DateEquality(fs[k], l)
    ensures DateEqualities(fs, l) > 0
  {
    var n := |fs| - 1;
    if !DateEquality(fs[n], l) {
      var k :| 0 <= k < |fs| && DateEquality(fs[k], l);
      assert fs[..n][k] == fs[k];
      SomeDateEquality(fs[..n], l);
    }
  }

  lemma {:induction false} ShorterStep(a: Row, acols: seq<string>, ca: string, b: Row, bcols: seq<string>, cb: string,
                                       d: nat)
    requires |KeyParts(a, acols, true)| == |KeyParts(b, bcols, false)| + d
    requires SameKind(Get(a, ca), Get(b, cb))
    ensures |KeyParts(a, acols + [ca], true)|
         == |KeyParts(b, bcols + [cb], false)| + d + if Get(a, ca).Date? then 1 else 0
  {
    KeyPartsStep(a, acols, ca, true);
    KeyPartsStep(b, bcols, cb, false);
  }

  /** The probe side has no DATE case, so its key has fewer parts. */
  lemma {:induction false} ProbeIsShorter(fs: seq<Filter>, l: Row, r: Row)
    requires SameEqKinds(fs, l, r)
    ensures |KeyParts(l, EqLeft(fs), true)| == |KeyParts(r, EqRight(fs), false)| + DateEqualities(fs, l)
    ensures |KeyParts(r, EqRight(fs), true)| == |KeyParts(l, EqLeft(fs), false)| + DateEqualities(fs, l)
  {
    if fs != [] {
      var n := |fs| - 1;
      var init, f := fs[..n], fs[n];
      assert SameEqKinds(init, l, r) by {
        assert forall k :: 0 <= k < n ==> init[k] == fs[k];
      }
      ProbeIsShorter(init, l, r);
      if f.op.EQ? {
        ShorterStep(l, EqLeft(init), f.lv, r, EqRight(init), f.rv, DateEqualities(init, l));
        ShorterStep(r, EqRight(init), f.rv, l, EqLeft(init), f.lv, DateEqualities(init, l));
        assert EqLeft(fs) == EqLeft(init) + [f.lv] && EqRight(fs) == EqRight(init) + [f.rv];
      } else {
        assert EqLeft(fs) == EqLeft(init) && EqRight(fs) == EqRight(init);
      }
    }
  }

  /** Keys with more parts than a key free of the separator differ from it. */
  lemma {:induction false} MoreParts(p: seq<string>, q: seq<string>)
    requires |p| > |q| && BarFree(q)
    ensures JoinKey(p) != JoinKey(q)
  {
    BarCount(p);
    BarCount(q);
  }

  lemma {:induction false} DateKeysDiffer(fs: seq<Filter>, l: Row, r: Row)
    requires SameEqKinds(fs, l, r) && exists k :: 0 <= k < |fs| && DateEquality(fs[k], l)
    ensures BarFree(KeyParts(r, EqRight(fs), false)) ==> !HashLeft(fs)(l, r)
    ensures BarFree(KeyParts(l, EqLeft(fs), false)) ==> !HashRight(fs)(l, r)
  {
    SomeDateEquality(fs, l);
    ProbeIsShorter(fs, l, r);
    if BarFree(KeyParts(r, EqRight(fs), false)) {
      MoreParts(KeyParts(l, EqLeft(fs), true), KeyParts(r, EqRight(fs), false));
    }
    if BarFree(KeyParts(l, EqLeft(fs), false)) {
      MoreParts(KeyParts(r, EqRight(fs), true), KeyParts(l, EqLeft(fs), false));
    }
  }

  lemma {:induction false} NoMatchOfRight(left: seq<Row>, r: Row, t: Test)
    ensures MatchesOfRight(left, r, t) == [] <==> forall i :: 0 <= i < |left| ==> !t(left[i], r)
  {
    if left != [] {
      var n := |left| - 1;
      NoMatchOfRight(left[..n], r, t);
      assert forall i :: 0 <= i < n ==> left[..n][i] == left[i];
    }
  }

  lemma {:induction false} JoinEmptyIff(left: seq<Row>, right: seq<Row>, t: Test)
    ensures JoinRightMajor(left, right, t) == []
       <==> forall i, j :: 0 <= i < |left| && 0 <= j < |right| ==> !t(left[i], right[j])
  {
    if right != [] {
      var n := |right| - 1;
      JoinEmptyIff(left, right[..n], t);
      NoMatchOfRight(left, right[n], t);
      assert forall j :: 0 <= j < n ==> right[..n][j] == right[j];
    }
  }

  /** A filter list with a DATE equality joins nothing if the probe keys are free
      of the separator; so it is right exactly when nothing should be joined, and is
      the nested loop exactly when that joins nothing either. */
  lemma {:induction false} DateKeyNeverMatches(left: seq<Row>, right: seq<Row>, fs: seq<Filter>)
    requires forall i, j :: 0 <= i < |left| && 0 <= j < |right| ==> SameEqKinds(fs, left[i], right[j])
    requires forall i :: 0 <= i < |left| ==> exists k :: 0 <= k < |fs| && DateEquality(fs[k], left[i])
    requires forall j :: 0 <= j < |right| ==> BarFree(KeyParts(right[j], EqRight(fs), false))
    ensures JoinRightMajor(left, right, HashLeft(fs)) == []
    ensures JoinRightMajor(left, right, HashLeft(fs)) == JoinRightMajor(left, right, ByFilters(fs))
       <==> forall i, j :: 0 <= i < |left| && 0 <= j < |right| ==> !PassesAll(fs, left[i], right[j])
    ensures multiset(JoinRightMajor(left, right, HashLeft(fs))) == multiset(JoinLeftMajor(left, right, ByLoop(fs)))
       <==> forall i, j :: 0 <= i < |left| && 0 <= j < |right| ==> !PassesLoop(fs, left[i], right[j])
  {
    forall i, j | 0 <= i < |left| && 0 <= j < |right| ensures !HashLeft(fs)(left[i], right[j]) {
      DateKeysDiffer(fs, left[i], right[j]);
    }
    JoinEmptyIff(left, right, HashLeft(fs));
    JoinEmptyIff(left, right, ByFilters(fs));
    JoinEmptyIff(left, right, ByLoop(fs));
    LoopOrderIsImmaterial(left, right, ByLoop(fs));
    assert |multiset(JoinLeftMajor(left, right, ByLoop(fs)))| == |JoinLeftMajor(left, right, ByLoop(fs))|;
  }

  lemma {:induction false} BuiltKey(l: Row)
    requires Get(l, "d") == Date(20) && Get(l, "s") == Str("x")
    ensures BuildKey(l, ["d"] + ["s"]) == "|20|x"
  {
    TwoKeyColumns(l, "d", "s", true);
    DecimalTwenty();
    assert KeyParts(l, ["d"] + ["s"], true) == ["20", "x"];
    JoinKeyPair("20", "x");
    assert "|" + "20" + "|" + "x" == "|20|x";
  }

  lemma {:induction false} ProbedKey(r: Row)
    requires Get(r, "e") == Date(99) && Get(r, "t") == Str("20|x")
    ensures ProbeKey(r, ["e"] + ["t"]) == "|20|x"
  {
    TwoKeyColumns(r, "e", "t", false);
    assert KeyParts(r, ["e"] + ["t"], false) == ["20|x"];
    JoinKeySingle("", "20|x");
    assert "|" + "20|x" == "|20|x";
  }

  lemma {:induction false} DateAndString(fs: seq<Filter>)
    requires fs == [Filter("d", EQ, "e"), Filter("", AND, ""), Filter("s", EQ, "t")]
    ensures EqLeft(fs) == ["d"] + ["s"] && EqRight(fs) == ["e"] + ["t"]
  {
    var two := fs[..2];
    var one := two[..1];
    SingleColumn(one);
    assert EqLeft(two) == ["d"] && EqRight(two) == ["e"];
  }

  /** With a separator in a string the missing date can be made up for: different
      dates, different strings, one key. */
  lemma {:induction false} DateKeyCanMatch(l: Row, r: Row, fs: seq<Filter>)
    requires fs == [Filter("d", EQ, "e"), Filter("", AND, ""), Filter("s", EQ, "t")]
    requires Get(l, "d") == Date(20) && Get(l, "s") == Str("x") && Get(r, "e") == Date(99) && Get(r, "t") == Str("20|x")
    ensures HashLeft(fs)(l, r) && !ByFilters(fs)(l, r)
  {
    DateAndString(fs);
    BuiltKey(l);
    ProbedKey(r);
    assert !Condition(fs[0], l, r);
  }

  lemma {:induction false} TwoKeyColumns(row: Row, c: string, d: string, build: bool)
    ensures KeyParts(row, [c] + [d], build) == KeyPart(Get(row, c), build) + KeyPart(Get(row, d), build)
  {
    OneKeyColumn(row, c, build);
    KeyPartsStep(row, [c], d, build);
  }

  lemma {:induction false} DecimalTwenty()
    ensures ToString(20) == "20"
  {
    assert NatToString(20) == NatToString(2) + [Digit(0)];
  }

  lemma {:induction false} OneKeyColumn(row: Row, c: string, build: bool)
    ensures KeyParts(row, [c], build) == KeyPart(Get(row, c), build)
  {
    KeyPartsStep(row, [], c, build);
    assert [] + [c] == [c];
  }

  // ------------------------------------------------------------------ buckets

  /** The indices with a given key, ascending: one bucket of the hash table. */
  function Bucket(rows: seq<Row>, cols: seq<string>, key: string): (b: seq<nat>)
    ensures forall k :: 0 <= k < |b| ==> b[k] < |rows| && BuildKey(rows[b[k]], cols) == key
    ensures |b| <= |rows|
  {
    if rows == [] then []
    else
      var n := |rows| - 1;
      var b := Bucket(rows[..n], cols, key);
      if BuildKey(rows[n], cols) == key then b + [n] else b
  }

  lemma {:induction false} BucketStep(rows: seq<Row>, x: Row, cols: seq<string>, key: string)
    ensures Bucket(rows + [x], cols, key) == Bucket(rows, cols, key) + if BuildKey(x, cols) == key then [|rows|] else []
  {
    assert (rows + [x])[..|rows|] == rows;
    assert Bucket(rows, cols, key) + [] == Bucket(rows, cols, key);
  }

  lemma {:induction false} BucketComplete(rows: seq<Row>, cols: seq<string>, key: string, i: nat)
    requires i < |rows| && BuildKey(rows[i], cols) == key
    ensures i in Bucket(rows, cols, key)
  {
    var n := |rows| - 1;
    if i < n {
      BucketComplete(rows[..n], cols, key, i);
    }
  }

  predicate Ascending(b: seq<nat>) {
    forall i, j :: 0 <= i < j < |b| ==> b[i] < b[j]
  }

  lemma {:induction false} BucketAscending(rows: seq<Row>, cols: seq<string>, key: string)
    ensures Ascending(Bucket(rows, cols, key))
  {
    if rows != [] {
      BucketAscending(rows[..|rows| - 1], cols, key);
    }
  }

  /** The pairs that a walk over a left bucket emits for one right row. */
  function WalkBucket(left: seq<Row>, bucket: seq<nat>, r: Row, fs: seq<Filter>): seq<Row>
    requires forall k :: 0 <= k < |bucket| ==> bucket[k] < |left|
  {
    if bucket == [] then []
    else
      var n := |bucket| - 1;
      WalkBucket(left, bucket[..n], r, fs) +
      (if PassesNonEquality(fs, left[bucket[n]], r) then [left[bucket[n]] + r] else [])
  }

  lemma {:induction false} WalkBucketPrefix(left: seq<Row>, more: seq<Row>, bucket: seq<nat>, r: Row, fs: seq<Filter>)
    requires forall k :: 0 <= k < |bucket| ==> bucket[k] < |left|
    ensures WalkBucket(left + more, bucket, r, fs) == WalkBucket(left, bucket, r, fs)
  {
    if bucket != [] {
      WalkBucketPrefix(left, more, bucket[..|bucket| - 1], r, fs);
    }
  }

  lemma {:induction false} WalkBucketMore(left: seq<Row>, x: Row, bucket: seq<nat>, hit: bool, r: Row, fs: seq<Filter>)
    requires forall k :: 0 <= k < |bucket| ==> bucket[k] < |left|
    ensures WalkBucket(left + [x], bucket + if hit then [|left|] else [], r, fs)
         == WalkBucket(left, bucket, r, fs) + if hit && PassesNonEquality(fs, x, r) then [x + r] else []
  {
    WalkBucketPrefix(left, [x], bucket, r, fs);
    if hit {
      assert (bucket + [|left|])[..|bucket|] == bucket;
    } else {
      assert bucket + [] == bucket;
    }
  }

  lemma {:induction false} HashMatchMore(left: seq<Row>, x: Row, r: Row, fs: seq<Filter>, hit: bool)
    requires hit == (BuildKey(x, EqLeft(fs)) == ProbeKey(r, EqRight(fs)))
    ensures MatchesOfRight(left + [x], r, HashLeft(fs))
         == MatchesOfRight(left, r, HashLeft(fs)) + if hit && PassesNonEquality(fs, x, r) then [x + r] else []
  {
    assert (left + [x])[..|left|] == left;
  }

  lemma {:induction false} OneMoreMatches(left: seq<Row>, x: Row, r: Row, fs: seq<Filter>)
    requires WalkBucket(left, Bucket(left, EqLeft(fs), ProbeKey(r, EqRight(fs))), r, fs)
          == MatchesOfRight(left, r, HashLeft(fs))
    ensures WalkBucket(left + [x], Bucket(left + [x], EqLeft(fs), ProbeKey(r, EqRight(fs))), r, fs)
         == MatchesOfRight(left + [x], r, HashLeft(fs))
  {
    var cols, key := EqLeft(fs), ProbeKey(r, EqRight(fs));
    var hit := BuildKey(x, cols) == key;
    BucketStep(left, x, cols, key);
    WalkBucketMore(left, x, Bucket(left, cols, key), hit, r, fs);
    HashMatchMore(left, x, r, fs, hit);
  }

  /** Walking the bucket of the probe key finds exactly the hash matches. */
  lemma {:induction false} WalkBucketIsHashMatch(left: seq<Row>, r: Row, fs: seq<Filter>)
    ensures WalkBucket(left, Bucket(left, EqLeft(fs), ProbeKey(r, EqRight(fs))), r, fs)
         == MatchesOfRight(left, r, HashLeft(fs))
  {
    if left != [] {
      var init, x := left[..|left| - 1], left[|left| - 1];
      WalkBucketIsHashMatch(init, r, fs);
      OneMoreMatches(init, x, r, fs);
      LastApart(left);
    }
  }

  // --------------------------------------------------------------- semi joins

  ghost predicate HasMatch(l: Row, right: seq<Row>, t: Test) {
    exists j :: 0 <= j < |right| && t(l, right[j])
  }

  /** The left rows with a match (or, negated, without one), in order. */
  ghost function SemiJoin(left: seq<Row>, right: seq<Row>, t: Test, negated: bool): seq<Row> {
    if left == [] then []
    else
      var n := |left| - 1;
      SemiJoin(left[..n], right, t, negated) + (if HasMatch(left[n], right, t) != negated then [left[n]] else [])
  }

  /** The semi join keeps the left rows for which some right row passes the test, or,
      negated, none, once each and in order. */
  lemma {:induction false} SemiJoinMeans(left: seq<Row>, right: seq<Row>, t: Test, negated: bool)
    returns (idx: seq<nat>)
    ensures Selects(idx, left, (l: Row) => (exists j :: 0 <= j < |right| && t(l, right[j])) != negated)
    ensures Images(idx, left, (l: Row) => l, SemiJoin(left, right, t, negated))
  {
    var want := (l: Row) => (exists j :: 0 <= j < |right| && t(l, right[j])) != negated;
    var same := (l: Row) => l;
    SemiJoinPicked(left, right, t, negated, want, same);
    idx := PickedMeans(left, want, same);
  }

  lemma {:induction false} SemiJoinPicked(left: seq<Row>, right: seq<Row>, t: Test, negated: bool, want: Row -> bool,
                                          same: Row -> Row)
    requires forall l :: want(l) == (HasMatch(l, right, t) != negated) && same(l) == l
    ensures SemiJoin(left, right, t, negated) == Picked(left, want, same)
  {
    if left != [] {
      SemiJoinPicked(left[..|left| - 1], right, t, negated, want, same);
    }
  }

  lemma {:induction false} SemiJoinSame(left: seq<Row>, right: seq<Row>, t: Test, u: Test, negated: bool)
    requires forall i :: 0 <= i < |left| ==> HasMatch(left[i], right, t) == HasMatch(left[i], right, u)
    ensures SemiJoin(left, right, t, negated) == SemiJoin(left, right, u, negated)
  {
    if left != [] {
      SemiJoinSame(left[..|left| - 1], right, t, u, negated);
    }
  }

  /** IN and NOT IN split the left table. */
  lemma {:induction false} SemiJoinSplits(left: seq<Row>, right: seq<Row>, t: Test)
    ensures multiset(SemiJoin(left, right, t, false)) + multiset(SemiJoin(left, right, t, true)) == multiset(left)
  {
    if left != [] {
      var n := |left| - 1;
      SemiJoinSplits(left[..n], right, t);
      SplitStep(left[..n], left[n], SemiJoin(left[..n], right, t, false), SemiJoin(left[..n], right, t, true),
                HasMatch(left[n], right, t));
      assert left == left[..n] + [left[n]];
    }
  }

  lemma {:induction false} SplitStep(init: seq<Row>, x: Row, kept: seq<Row>, dropped: seq<Row>, hit: bool)
    requires multiset(kept) + multiset(dropped) == multiset(init)
    ensures multiset(kept + if hit then [x] else []) + multiset(dropped + if hit then [] else [x])
         == multiset(init + [x])
  {
    assert kept + [] == kept && dropped + [] == dropped;
  }

  /** The correlated form: a flag set only inside the loop over the right rows
      keeps, without any, whatever value `unset` it happens to have. */
  ghost function ExistJoin(left: seq<Row>, right: seq<Row>, t: Test, unset: seq<bool>, negated: bool): seq<Row>
    requires |left| <= |unset|
  {
    if left == [] then []
    else
      var n := |left| - 1;
      ExistJoin(left[..n], right, t, unset, negated)
      + if Exists(left[n], right, t, unset[n]) != negated then [left[n]] else []
  }

  ghost predicate Exists(l: Row, right: seq<Row>, t: Test, unset: bool) {
    if right == [] then unset else HasMatch(l, right, t)
  }

  /** It is the semi join exactly when there is a right row or the flag happens to
      be false for every left row. */
  lemma {:induction false} ExistJoinIff(left: seq<Row>, right: seq<Row>, t: Test, unset: seq<bool>, negated: bool)
    requires |left| <= |unset|
    ensures if negated then |ExistJoin(left, right, t, unset, negated)| <= |SemiJoin(left, right, t, negated)|
            else |SemiJoin(left, right, t, negated)| <= |ExistJoin(left, right, t, unset, negated)|
    ensures ExistJoin(left, right, t, unset, negated) == SemiJoin(left, right, t, negated)
       <==> right != [] || forall i :: 0 <= i < |left| ==> !unset[i]
  {
    if left != [] {
      var n := |left| - 1;
      ExistJoinIff(left[..n], right, t, unset, negated);
      var a, b := ExistJoin(left[..n], right, t, unset, negated), SemiJoin(left[..n], right, t, negated);
      var x := if Exists(left[n], right, t, unset[n]) != negated then [left[n]] else [];
      var y := if HasMatch(left[n], right, t) != negated then [left[n]] else [];
      if |a| == |b| {
        AppendsAgree(a, x, b, y);
      }
    }
  }

  lemma {:induction false} SemiJoinIff(left: seq<Row>, right: seq<Row>, t: Test, u: Test, negated: bool)
    requires forall i :: 0 <= i < |left| ==> HasMatch(left[i], right, t) ==> HasMatch(left[i], right, u)
    ensures if negated then |SemiJoin(left, right, u, negated)| <= |SemiJoin(left, right, t, negated)|
            else |SemiJoin(left, right, t, negated)| <= |SemiJoin(left, right, u, negated)|
    ensures SemiJoin(left, right, t, negated) == SemiJoin(left, right, u, negated)
       <==> forall i :: 0 <= i < |left| ==> HasMatch(left[i], right, t) == HasMatch(left[i], right, u)
  {
    if left != [] {
      var n := |left| - 1;
      SemiJoinIff(left[..n], right, t, u, negated);
      assert forall i :: 0 <= i < n ==> left[..n][i] == left[i];
      if forall i :: 0 <= i < n ==> HasMatch(left[i], right, t) == HasMatch(left[i], right, u) {
      } else {
        SemiJoinShorter(left[..n], right, t, u, negated);
      }
    }
  }

  /** A stronger test that is strictly stronger on some row changes the length. */
  lemma {:induction false} SemiJoinShorter(left: seq<Row>, right: seq<Row>, t: Test, u: Test, negated: bool)
    requires forall i :: 0 <= i < |left| ==> HasMatch(left[i], right, t) ==> HasMatch(left[i], right, u)
    ensures if negated then |SemiJoin(left, right, u, negated)| <= |SemiJoin(left, right, t, negated)|
            else |SemiJoin(left, right, t, negated)| <= |SemiJoin(left, right, u, negated)|
    ensures (exists i :: 0 <= i < |left| && HasMatch(left[i], right, t) != HasMatch(left[i], right, u)) ==>
      |SemiJoin(left, right, t, negated)| != |SemiJoin(left, right, u, negated)|
  {
    if left != [] {
      var n := |left| - 1;
      SemiJoinShorter(left[..n], right, t, u, negated);
      assert forall i :: 0 <= i < n ==> left[..n][i] == left[i];
    }
  }

  lemma {:induction false} SingleColumn(fs: seq<Filter>)
    requires |fs| == 1 && fs[0].op.EQ?
    ensures EqLeft(fs) == [fs[0].lv] && EqRight(fs) == [fs[0].rv]
  {
    assert fs[..0] == [];
    assert EqLeft(fs) == EqLeft(fs[..0]) + [fs[0].lv];
    assert EqRight(fs) == EqRight(fs[..0]) + [fs[0].rv];
  }
}
