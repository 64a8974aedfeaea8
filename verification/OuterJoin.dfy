/** The left outer join: what it should emit, what the code emits, and exactly
    when the two agree. */
module OuterJoin {
  import opened Tables
  import opened Keys
  import opened Filters
  import opened Joins
  import opened Permutations

  // ------------------------------------------------------------ specification

  /** One left row: all its matches by ascending right index, or itself beside nulls. */
  function OuterRow(l: Row, right: seq<Row>, t: Test, nulls: Row): seq<Row> {
    var ms := MatchesOfLeft(l, right, t);
    if ms == [] then [l + nulls] else ms
  }

  function OuterJoin(left: seq<Row>, right: seq<Row>, t: Test, nulls: Row): seq<Row> {
    if left == [] then []
    else OuterJoin(left[..|left| - 1], right, t, nulls) + OuterRow(left[|left| - 1], right, t, nulls)
  }

  /** One left row after the other, each beside the right rows that pass the test, in
      order, or beside nulls if there is none. */
  lemma {:induction false} OuterJoinMeans(left: seq<Row>, right: seq<Row>, t: Test, nulls: Row)
    ensures OuterJoin(left, right, t, nulls) == FlatMap(left, (l: Row) => OuterRow(l, right, t, nulls))
  {
    if left != [] {
      var n := |left| - 1;
      OuterJoinMeans(left[..n], right, t, nulls);
      assert left[..n + 1] == left;
      FlatMapOneMore(left, (l: Row) => OuterRow(l, right, t, nulls), n);
    }
  }

  lemma {:induction false} OuterRowMeans(l: Row, right: seq<Row>, t: Test, nulls: Row) returns (idx: seq<nat>)
    ensures Selects(idx, right, (r: Row) => t(l, r))
    ensures if idx == [] then OuterRow(l, right, t, nulls) == [l + nulls]
            else Images(idx, right, (r: Row) => l + r, OuterRow(l, right, t, nulls))
  {
    idx := MatchesOfLeftMean(l, right, t);
  }

  function MatchCount(l: Row, right: seq<Row>, t: Test): nat {
    if right == [] then 0
    else MatchCount(l, right[..|right| - 1], t) + (if t(l, right[|right| - 1]) then 1 else 0)
  }

  lemma {:induction false} MatchCountIsLength(l: Row, right: seq<Row>, t: Test)
    ensures |MatchesOfLeft(l, right, t)| == MatchCount(l, right, t)
  {
    if right != [] {
      MatchCountIsLength(l, right[..|right| - 1], t);
    }
  }

  lemma {:induction false} MatchesExtendLeft(l: Row, right: seq<Row>, t: Test)
    ensures forall m :: m in MatchesOfLeft(l, right, t) ==>
      exists j :: 0 <= j < |right| && t(l, right[j]) && m == l + right[j]
  {
    if right != [] {
      var n := |right| - 1;
      MatchesExtendLeft(l, right[..n], t);
      forall m | m in MatchesOfLeft(l, right, t)
        ensures exists j :: 0 <= j < |right| && t(l, right[j]) && m == l + right[j]
      {
        if m in MatchesOfLeft(l, right[..n], t) {
          var j :| 0 <= j < n && t(l, right[..n][j]) && m == l + right[..n][j];
          assert right[j] == right[..n][j];
        } else {
          assert m in PairOf(l, right[n], t);
          assert t(l, right[n]);
        }
      }
    }
  }

  /** Each left row yields max(1, matches) rows; its nulls appear exactly when
      nothing matched, provided the right rows carry no null themselves. */
  lemma {:induction false} OuterRowShape(l: Row, right: seq<Row>, t: Test, nulls: Row, c: string)
    requires c in nulls && nulls[c].isnull
    requires forall j :: 0 <= j < |right| ==> c in right[j] && !right[j][c].isnull
    ensures |OuterRow(l, right, t, nulls)| == if MatchCount(l, right, t) == 0 then 1 else MatchCount(l, right, t)
    ensures forall m: Row :: m in OuterRow(l, right, t, nulls) ==>
      c in m && (m[c].isnull <==> MatchCount(l, right, t) == 0)
  {
    MatchCountIsLength(l, right, t);
    MatchesExtendLeft(l, right, t);
  }

  function OuterSize(left: seq<Row>, right: seq<Row>, t: Test): nat {
    if left == [] then 0
    else
      var m := MatchCount(left[|left| - 1], right, t);
      OuterSize(left[..|left| - 1], right, t) + (if m == 0 then 1 else m)
  }

  lemma {:induction false} OuterJoinSize(left: seq<Row>, right: seq<Row>, t: Test, nulls: Row)
    ensures |OuterJoin(left, right, t, nulls)| == OuterSize(left, right, t)
    ensures |left| <= |OuterJoin(left, right, t, nulls)|
  {
    if left != [] {
      var n := |left| - 1;
      OuterJoinSize(left[..n], right, t, nulls);
      MatchCountIsLength(left[n], right, t);
    }
  }

  lemma {:induction false} MatchesOfLeftSame(l: Row, right: seq<Row>, t: Test, u: Test)
    requires forall j :: 0 <= j < |right| ==> t(l, right[j]) == u(l, right[j])
    ensures MatchesOfLeft(l, right, t) == MatchesOfLeft(l, right, u)
  {
    if right != [] {
      MatchesOfLeftSame(l, right[..|right| - 1], t, u);
    }
  }

  lemma {:induction false} OuterJoinSame(left: seq<Row>, right: seq<Row>, t: Test, u: Test, nulls: Row)
    requires SameTest(t, u, left, right)
    ensures OuterJoin(left, right, t, nulls) == OuterJoin(left, right, u, nulls)
  {
    if left != [] {
      var n := |left| - 1;
      OuterJoinSame(left[..n], right, t, u, nulls);
      MatchesOfLeftSame(left[n], right, t, u);
    }
  }

  // --------------------------------------------------------------- as written

  /** The right row the code appends for position `i` of a bucket: values of the
      bucketed row, but null flags of row number `i` of the right table. */
  function RightAsWritten(right: seq<Row>, bucket: seq<nat>, i: nat): Row
    requires i < |bucket| <= |right|
    requires bucket[i] < |right|
  {
    map c | c in right[bucket[i]] ::
      if c in right[i] then Cell(right[bucket[i]][c].value, right[i][c].isnull) else right[bucket[i]][c]
  }

  function WalkAsWritten(l: Row, right: seq<Row>, bucket: seq<nat>, n: nat): seq<Row>
    requires n <= |bucket| <= |right|
    requires forall k :: 0 <= k < |bucket| ==> bucket[k] < |right|
  {
    if n == 0 then [] else WalkAsWritten(l, right, bucket, n - 1) + [l + RightAsWritten(right, bucket, n - 1)]
  }

  /** `walk[i]` is what the walk appends for position `i`. */
  ghost predicate IsWalk(walk: seq<Row>, l: Row, right: seq<Row>, bucket: seq<nat>)
    requires |bucket| <= |right|
    requires forall k :: 0 <= k < |bucket| ==> bucket[k] < |right|
  {
    |walk| == |bucket| && forall i {:trigger RightAsWritten(right, bucket, i)} :: 0 <= i < |bucket| ==>
      walk[i] == l + RightAsWritten(right, bucket, i)
  }

  lemma {:induction false} WalkEntries(l: Row, right: seq<Row>, bucket: seq<nat>, n: nat)
    requires n <= |bucket| <= |right|
    requires forall k :: 0 <= k < |bucket| ==> bucket[k] < |right|
    ensures |WalkAsWritten(l, right, bucket, n)| == n
    ensures forall i :: 0 <= i < n ==> WalkAsWritten(l, right, bucket, n)[i] == l + RightAsWritten(right, bucket, i)
  {
    if n > 0 {
      WalkEntries(l, right, bucket, n - 1);
    }
  }

  function BucketOf(l: Row, right: seq<Row>, fs: seq<Filter>): seq<nat> {
    Bucket(right, EqRight(fs), ProbeKey(l, EqLeft(fs)))
  }

  function OuterRowAsWritten(l: Row, right: seq<Row>, fs: seq<Filter>, nulls: Row): seq<Row> {
    var b := BucketOf(l, right, fs);
    if b == [] then [l + nulls] else WalkAsWritten(l, right, b, |b|)
  }

  function OuterAsWritten(left: seq<Row>, right: seq<Row>, fs: seq<Filter>, nulls: Row): seq<Row> {
    if left == [] then []
    else OuterAsWritten(left[..|left| - 1], right, fs, nulls) + OuterRowAsWritten(left[|left| - 1], right, fs, nulls)
  }

  // ------------------------------------------------------ when the two agree

  /** Row `i` and the `i`-th row of the bucket carry the same null flags. */
  predicate FlagsFollow(right: seq<Row>, bucket: seq<nat>, i: nat)
    requires i < |bucket| <= |right| && bucket[i] < |right|
  {
    forall c :: c in right[bucket[i]] && c in right[i] ==> right[i][c].isnull == right[bucket[i]][c].isnull
  }

  ghost predicate BucketFlagsFollow(right: seq<Row>, bucket: seq<nat>)
    requires |bucket| <= |right|
    requires forall k :: 0 <= k < |bucket| ==> bucket[k] < |right|
  {
    forall i :: 0 <= i < |bucket| ==> FlagsFollow(right, bucket, i)
  }

  ghost predicate RowFlagsFollow(l: Row, right: seq<Row>, fs: seq<Filter>) {
    BucketFlagsFollow(right, BucketOf(l, right, fs))
  }

  ghost predicate AllFlagsFollow(left: seq<Row>, right: seq<Row>, fs: seq<Filter>) {
    left == [] || (AllFlagsFollow(left[..|left| - 1], right, fs) && RowFlagsFollow(left[|left| - 1], right, fs))
  }

  lemma {:induction false} RightAsWrittenIff(l: Row, right: seq<Row>, bucket: seq<nat>, i: nat)
    requires i < |bucket| <= |right| && bucket[i] < |right|
    requires l.Keys !! right[bucket[i]].Keys
    ensures l + RightAsWritten(right, bucket, i) == l + right[bucket[i]] <==> FlagsFollow(right, bucket, i)
  {
    var w, r := RightAsWritten(right, bucket, i), right[bucket[i]];
    assert w.Keys == r.Keys;
    assert forall c :: c in r ==> (l + w)[c] == w[c] && (l + r)[c] == r[c];
    if FlagsFollow(right, bucket, i) {
      assert w == r;
    } else {
      var c :| c in r && c in right[i] && right[i][c].isnull != r[c].isnull;
      assert (l + w)[c] != (l + r)[c];
    }
  }

  function WalkBucketLeft(l: Row, right: seq<Row>, bucket: seq<nat>, n: nat): (rows: seq<Row>)
    requires n <= |bucket|
    requires forall k :: 0 <= k < |bucket| ==> bucket[k] < |right|
    ensures |rows| == n
  {
    if n == 0 then [] else WalkBucketLeft(l, right, bucket, n - 1) + [l + right[bucket[n - 1]]]
  }

  lemma {:induction false} WalkBucketLeftPrefix(l: Row, right: seq<Row>, more: seq<Row>, bucket: seq<nat>,
                                                extra: seq<nat>, n: nat)
    requires n <= |bucket|
    requires forall k :: 0 <= k < |bucket| ==> bucket[k] < |right|
    requires forall k :: 0 <= k < |extra| ==> extra[k] < |right + more|
    ensures WalkBucketLeft(l, right + more, bucket + extra, n) == WalkBucketLeft(l, right, bucket, n)
  {
    if n > 0 {
      WalkBucketLeftPrefix(l, right, more, bucket, extra, n - 1);
    }
  }

  lemma {:induction false} WalkBucketLeftStep(l: Row, init: seq<Row>, r: Row, bucket: seq<nat>, hit: bool)
    requires forall k :: 0 <= k < |bucket| ==> bucket[k] < |init|
    ensures var b := bucket + if hit then [|init|] else [];
      && (forall k :: 0 <= k < |b| ==> b[k] < |init + [r]|)
      && WalkBucketLeft(l, init + [r], b, |b|)
      == WalkBucketLeft(l, init, bucket, |bucket|) + if hit then [l + r] else []
  {
    var extra := if hit then [|init|] else [];
    WalkBucketLeftPrefix(l, init, [r], bucket, extra, |bucket|);
  }

  lemma {:induction false} MatchesStep(l: Row, init: seq<Row>, r: Row, t: Test)
    ensures MatchesOfLeft(l, init + [r], t) == MatchesOfLeft(l, init, t) + PairOf(l, r, t)
  {
    assert (init + [r])[..|init|] == init;
  }

  lemma {:induction false} WalkBucketLeftIsMatches(l: Row, right: seq<Row>, fs: seq<Filter>)
    ensures var b := BucketOf(l, right, fs); WalkBucketLeft(l, right, b, |b|) == MatchesOfLeft(l, right, HashRight(fs))
  {
    if right != [] {
      var n := |right| - 1;
      var init, r := right[..n], right[n];
      WalkBucketLeftIsMatches(l, init, fs);
      assert right == init + [r];
      var hit := HashRight(fs)(l, r);
      BucketStep(init, r, EqRight(fs), ProbeKey(l, EqLeft(fs)));
      WalkBucketLeftStep(l, init, r, BucketOf(l, init, fs), hit);
      MatchesStep(l, init, r, HashRight(fs));
    }
  }

  lemma {:induction false} WalkIff(l: Row, right: seq<Row>, bucket: seq<nat>, n: nat)
    requires n <= |bucket| <= |right|
    requires forall k :: 0 <= k < |bucket| ==> bucket[k] < |right|
    requires forall j :: 0 <= j < |right| ==> l.Keys !! right[j].Keys
    ensures |WalkAsWritten(l, right, bucket, n)| == n
    ensures WalkAsWritten(l, right, bucket, n) == WalkBucketLeft(l, right, bucket, n)
       <==> forall i :: 0 <= i < n ==> FlagsFollow(right, bucket, i)
  {
    if n > 0 {
      WalkIff(l, right, bucket, n - 1);
      RightAsWrittenIff(l, right, bucket, n - 1);
      AppendsAgree(WalkAsWritten(l, right, bucket, n - 1), [l + RightAsWritten(right, bucket, n - 1)],
                   WalkBucketLeft(l, right, bucket, n - 1), [l + right[bucket[n - 1]]]);
    }
  }

  lemma {:induction false} OuterRowIff(l: Row, right: seq<Row>, fs: seq<Filter>, nulls: Row)
    requires forall j :: 0 <= j < |right| ==> l.Keys !! right[j].Keys
    ensures |OuterRowAsWritten(l, right, fs, nulls)| == |OuterRow(l, right, HashRight(fs), nulls)|
    ensures OuterRowAsWritten(l, right, fs, nulls) == OuterRow(l, right, HashRight(fs), nulls)
       <==> RowFlagsFollow(l, right, fs)
  {
    var b := BucketOf(l, right, fs);
    WalkBucketLeftIsMatches(l, right, fs);
    WalkIff(l, right, b, |b|);
  }

  /** The outer join emits the specified rows exactly when, in every bucket that
      is probed, the flags of row i agree with those of the i-th bucketed row. */
  lemma {:induction false} OuterJoinIff(left: seq<Row>, right: seq<Row>, fs: seq<Filter>, nulls: Row)
    requires forall k, j :: 0 <= k < |left| && 0 <= j < |right| ==> left[k].Keys !! right[j].Keys
    ensures |OuterAsWritten(left, right, fs, nulls)| == |OuterJoin(left, right, HashRight(fs), nulls)|
    ensures OuterAsWritten(left, right, fs, nulls) == OuterJoin(left, right, HashRight(fs), nulls)
       <==> AllFlagsFollow(left, right, fs)
  {
    if left != [] {
      var n := |left| - 1;
      OuterJoinIff(left[..n], right, fs, nulls);
      OuterRowIff(left[n], right, fs, nulls);
      AppendsAgree(OuterAsWritten(left[..n], right, fs, nulls), OuterRowAsWritten(left[n], right, fs, nulls),
                   OuterJoin(left[..n], right, HashRight(fs), nulls), OuterRow(left[n], right, HashRight(fs), nulls));
    }
  }

  ghost predicate NullFree(rows: seq<Row>) {
    forall j, c :: 0 <= j < |rows| && c in rows[j] ==> !rows[j][c].isnull
  }

  lemma {:induction false} NullFreeFollows(left: seq<Row>, right: seq<Row>, fs: seq<Filter>)
    requires NullFree(right)
    ensures AllFlagsFollow(left, right, fs)
  {
    if left != [] {
      NullFreeFollows(left[..|left| - 1], right, fs);
      var b := BucketOf(left[|left| - 1], right, fs);
      assert forall i :: 0 <= i < |b| ==> FlagsFollow(right, b, i);
    }
  }

  /** On a right table without nulls the hash form is the specified left outer
      join on the equality filters, floats compared as they are printed. */
  lemma {:induction false} OuterJoinCorrect(left: seq<Row>, right: seq<Row>, fs: seq<Filter>, nulls: Row)
    requires forall k, j :: 0 <= k < |left| && 0 <= j < |right| ==> left[k].Keys !! right[j].Keys
    requires NullFree(right)
    requires AllEqTyped(fs, left, right)
    requires AllSafe(left, EqLeft(fs), false) || AllSafe(right, EqRight(fs), true)
    ensures OuterAsWritten(left, right, fs, nulls) == OuterJoin(left, right, ByPrinted(fs), nulls)
  {
    OuterJoinIff(left, right, fs, nulls);
    NullFreeFollows(left, right, fs);
    forall k, j | 0 <= k < |left| && 0 <= j < |right|
      ensures HashRight(fs)(left[k], right[j]) == ByPrinted(fs)(left[k], right[j])
    {
      assert EqTyped(fs, left[k], right[j]);
      KeysAgree(fs, left[k], right[j], false, true);
    }
    OuterJoinSame(left, right, HashRight(fs), ByPrinted(fs), nulls);
  }

  // ------------------------------------------------ the filters it leaves out

  lemma {:induction false} CountOrder(l: Row, right: seq<Row>, t: Test, u: Test)
    requires forall j :: 0 <= j < |right| ==> u(l, right[j]) ==> t(l, right[j])
    ensures MatchCount(l, right, u) <= MatchCount(l, right, t)
    ensures MatchCount(l, right, u) == MatchCount(l, right, t)
       <==> forall j :: 0 <= j < |right| ==> t(l, right[j]) == u(l, right[j])
  {
    if right != [] {
      var n := |right| - 1;
      CountOrder(l, right[..n], t, u);
      assert forall j :: 0 <= j < n ==> right[..n][j] == right[j];
    }
  }

  /** The rows of one left row tell two tests apart, one implying the other. */
  lemma {:induction false} OuterRowTells(l: Row, right: seq<Row>, t: Test, u: Test, nulls: Row, c: string)
    requires c in nulls && nulls[c].isnull
    requires forall j :: 0 <= j < |right| ==> c in right[j] && !right[j][c].isnull
    requires forall j :: 0 <= j < |right| ==> u(l, right[j]) ==> t(l, right[j])
    ensures |OuterRow(l, right, u, nulls)| <= |OuterRow(l, right, t, nulls)|
    ensures OuterRow(l, right, t, nulls) == OuterRow(l, right, u, nulls)
       <==> forall j :: 0 <= j < |right| ==> t(l, right[j]) == u(l, right[j])
  {
    CountOrder(l, right, t, u);
    OuterRowShape(l, right, t, nulls, c);
    OuterRowShape(l, right, u, nulls, c);
    if forall j :: 0 <= j < |right| ==> t(l, right[j]) == u(l, right[j]) {
      MatchesOfLeftSame(l, right, t, u);
    } else {
      var a, b := OuterRow(l, right, t, nulls), OuterRow(l, right, u, nulls);
      assert a[0] in a && b[0] in b;
    }
  }

  /** Outer joins on two tests, one implying the other, are equal exactly when
      the tests agree on all pairs. */
  lemma {:induction false} OuterJoinTells(left: seq<Row>, right: seq<Row>, t: Test, u: Test, nulls: Row, c: string)
    requires c in nulls && nulls[c].isnull
    requires forall j :: 0 <= j < |right| ==> c in right[j] && !right[j][c].isnull
    requires forall i, j :: 0 <= i < |left| && 0 <= j < |right| ==> u(left[i], right[j]) ==> t(left[i], right[j])
    ensures |OuterJoin(left, right, u, nulls)| <= |OuterJoin(left, right, t, nulls)|
    ensures OuterJoin(left, right, t, nulls) == OuterJoin(left, right, u, nulls) <==> SameTest(t, u, left, right)
  {
    if left != [] {
      var n := |left| - 1;
      var init, l := left[..n], left[n];
      assert forall i :: 0 <= i < n ==> init[i] == left[i];
      OuterJoinTells(init, right, t, u, nulls, c);
      OuterRowTells(l, right, t, u, nulls, c);
      if |OuterJoin(init, right, t, nulls)| == |OuterJoin(init, right, u, nulls)| {
        AppendsAgree(OuterJoin(init, right, t, nulls), OuterRow(l, right, t, nulls),
                     OuterJoin(init, right, u, nulls), OuterRow(l, right, u, nulls));
      }
      SameTestSplit(left, right, t, u);
    }
  }

  lemma {:induction false} SameTestSplit(left: seq<Row>, right: seq<Row>, t: Test, u: Test)
    requires left != []
    ensures var n := |left| - 1;
      SameTest(t, u, left, right)
      <==> SameTest(t, u, left[..n], right) && forall j :: 0 <= j < |right| ==>
        t(left[n], right[j]) == u(left[n], right[j])
  {
    var n := |left| - 1;
    assert forall i :: 0 <= i < n ==> left[..n][i] == left[i];
  }

  /** The conditions of a filter list stand at its even positions. */
  predicate Alternates(fs: seq<Filter>) {
    forall k :: 0 <= k < |fs| && k % 2 == 1 ==> !fs[k].op.EQ?
  }

  /** The code emits the outer join on the whole filter list exactly when every
      pair that passes the printed equality filters passes the list; and that of
      SQL, where no condition holds of NULL, if it also has no NULL there. */
  lemma {:induction false} OuterByFiltersIff(left: seq<Row>, right: seq<Row>, fs: seq<Filter>, nulls: Row, c: string)
    requires forall k, j :: 0 <= k < |left| && 0 <= j < |right| ==> left[k].Keys !! right[j].Keys
    requires NullFree(right) && c in nulls && nulls[c].isnull && forall j :: 0 <= j < |right| ==> c in right[j]
    requires Alternates(fs) && AllEqTyped(fs, left, right)
    requires AllSafe(left, EqLeft(fs), false) || AllSafe(right, EqRight(fs), true)
    ensures OuterAsWritten(left, right, fs, nulls) == OuterJoin(left, right, ByFilters(fs), nulls)
       <==> forall i, j :: 0 <= i < |left| && 0 <= j < |right| ==>
              PassesPrinted(fs, left[i], right[j]) ==> PassesAll(fs, left[i], right[j])
    ensures OuterAsWritten(left, right, fs, nulls) == OuterJoin(left, right, ByKnown(fs), nulls)
       <==> forall i, j :: 0 <= i < |left| && 0 <= j < |right| ==>
              PassesPrinted(fs, left[i], right[j]) ==>
                PassesAll(fs, left[i], right[j]) && NoNulls(fs, left[i], right[j])
  {
    OuterJoinCorrect(left, right, fs, nulls);
    forall i, j | 0 <= i < |left| && 0 <= j < |right|
      ensures PassesAll(fs, left[i], right[j]) ==> PassesPrinted(fs, left[i], right[j])
    {
      assert forall k :: 0 <= k < |fs| && fs[k].op.EQ? ==> k % 2 == 0;
      RoundedIff(fs, left[i], right[j]);
    }
    OuterJoinTells(left, right, ByPrinted(fs), ByFilters(fs), nulls, c);
    OuterJoinTells(left, right, ByPrinted(fs), ByKnown(fs), nulls, c);
  }

  // ----------------------------------------------------------- DATE equalities

  /** Every left row beside nulls. */
  function Unmatched(left: seq<Row>, nulls: Row): seq<Row> {
    if left == [] then [] else Unmatched(left[..|left| - 1], nulls) + [left[|left| - 1] + nulls]
  }

  lemma {:induction false} NoMatchOfLeft(l: Row, right: seq<Row>, t: Test)
    requires forall j :: 0 <= j < |right| ==> !t(l, right[j])
    ensures MatchesOfLeft(l, right, t) == []
  {
    if right != [] {
      NoMatchOfLeft(l, right[..|right| - 1], t);
    }
  }

  lemma {:induction false} NothingMatches(left: seq<Row>, right: seq<Row>, t: Test, nulls: Row)
    requires forall i, j :: 0 <= i < |left| && 0 <= j < |right| ==> !t(left[i], right[j])
    ensures OuterJoin(left, right, t, nulls) == Unmatched(left, nulls)
  {
    if left != [] {
      NothingMatches(left[..|left| - 1], right, t, nulls);
      NoMatchOfLeft(left[|left| - 1], right, t);
    }
  }

  /** With a DATE equality and probe keys free of the separator, every left row is
      emitted beside nulls; so this is the outer join on the filter list exactly
      when no pair passes it. */
  lemma {:induction false} OuterDatesIff(left: seq<Row>, right: seq<Row>, fs: seq<Filter>, nulls: Row, c: string)
    requires forall k, j :: 0 <= k < |left| && 0 <= j < |right| ==> left[k].Keys !! right[j].Keys
    requires NullFree(right) && c in nulls && nulls[c].isnull && forall j :: 0 <= j < |right| ==> c in right[j]
    requires forall i, j :: 0 <= i < |left| && 0 <= j < |right| ==> SameEqKinds(fs, left[i], right[j])
    requires forall i :: 0 <= i < |left| ==> exists k :: 0 <= k < |fs| && DateEquality(fs[k], left[i])
    requires forall i :: 0 <= i < |left| ==> BarFree(KeyParts(left[i], EqLeft(fs), false))
    ensures OuterAsWritten(left, right, fs, nulls) == Unmatched(left, nulls)
    ensures OuterAsWritten(left, right, fs, nulls) == OuterJoin(left, right, ByFilters(fs), nulls)
       <==> forall i, j :: 0 <= i < |left| && 0 <= j < |right| ==> !PassesAll(fs, left[i], right[j])
  {
    var never: Test := (l: Row, r: Row) => false;
    forall i, j | 0 <= i < |left| && 0 <= j < |right| ensures !HashRight(fs)(left[i], right[j]) {
      DateKeysDiffer(fs, left[i], right[j]);
    }
    OuterJoinIff(left, right, fs, nulls);
    NullFreeFollows(left, right, fs);
    NothingMatches(left, right, HashRight(fs), nulls);
    NothingMatches(left, right, never, nulls);
    OuterJoinTells(left, right, ByFilters(fs), never, nulls, c);
  }

  /** A pair that the join on the whole list keeps apart: equal keys, but the
      second filter fails. */
  lemma {:induction false} OuterIgnoresFilter(l: Row, r: Row, nulls: Row, x: int, a: int, b: int)
    requires l.Keys !! r.Keys && NullFree([r]) && "b" in nulls && nulls["b"].isnull && "b" in r
    requires Get(l, "k") == Int(x) && Get(r, "m") == Int(x) && Get(l, "a") == Int(a) && Get(r, "b") == Int(b) && a <= b
    ensures var fs := [Filter("k", EQ, "m"), Filter("", AND, ""), Filter("a", GT, "b")];
      OuterAsWritten([l], [r], fs, nulls) != OuterJoin([l], [r], ByFilters(fs), nulls)
  {
    var fs := [Filter("k", EQ, "m"), Filter("", AND, ""), Filter("a", GT, "b")];
    assert fs[..2] == [Filter("k", EQ, "m"), Filter("", AND, "")] && fs[..2][..1] == [Filter("k", EQ, "m")];
    SingleColumn(fs[..2][..1]);
    assert EqLeft(fs) == ["k"] && EqRight(fs) == ["m"];
    assert [l][0] == l && [r][0] == r;
    assert !Condition(fs[2], l, r);
    assert PassesEqualities(fs, l, r) && !PassesAll(fs, l, r);
    RoundedIff(fs, l, r);
    OuterByFiltersIff([l], [r], fs, nulls, "b");
  }

  lemma {:induction false} SameIntKey(a: Row, ca: string, x: int, ba: bool, b: Row, cb: string, y: int, bb: bool)
    requires Get(a, ca) == Int(x) && Get(b, cb) == Int(y)
    ensures JoinKey(KeyParts(a, [ca], ba)) == JoinKey(KeyParts(b, [cb], bb)) <==> x == y
  {
    OneKeyColumn(a, ca, ba);
    OneKeyColumn(b, cb, bb);
    SingleKeyInjective(ToString(x), ToString(y));
    ToStringInjective(x, y);
  }

  lemma {:induction false} SecondRowBucket(l: Row, r0: Row, r1: Row, f: Filter, x: int, y: int)
    requires f.op.EQ? && x != y
    requires Get(l, f.lv) == Int(x) && Get(r0, f.rv) == Int(y) && Get(r1, f.rv) == Int(x)
    ensures BucketOf(l, [r0, r1], [f]) == [1]
  {
    SingleColumn([f]);
    SameIntKey(r0, f.rv, y, true, l, f.lv, x, false);
    SameIntKey(r1, f.rv, x, true, l, f.lv, x, false);
    var key := ProbeKey(l, [f.lv]);
    assert [r0, r1] == [] + [r0] + [r1];
    BucketStep([], r0, [f.rv], key);
    BucketStep([] + [r0], r1, [f.rv], key);
    assert Bucket([], [f.rv], key) == [];
  }

  /** A right table where the flags do not follow: whenever the only match of a
      left row is the second right row, the match is emitted with the first
      row's null flag. */
  lemma {:induction false} OuterJoinTakesWrongFlag(l: Row, r0: Row, r1: Row, f: Filter, x: int, y: int, nulls: Row,
                                                   c: string)
    requires f.op.EQ? && x != y
    requires Get(l, f.lv) == Int(x) && Get(r0, f.rv) == Int(y) && Get(r1, f.rv) == Int(x)
    requires c in r0 && c in r1 && r0[c].isnull != r1[c].isnull
    requires l.Keys !! r0.Keys && l.Keys !! r1.Keys
    ensures OuterAsWritten([l], [r0, r1], [f], nulls) != OuterJoin([l], [r0, r1], HashRight([f]), nulls)
  {
    var right := [r0, r1];
    SecondRowBucket(l, r0, r1, f, x, y);
    assert !FlagsFollow(right, [1], 0) by {
      assert right[0] == r0 && right[1] == r1;
    }
    assert [l][0] == l;
    OuterJoinIff([l], right, [f], nulls);
  }
}
