/** A join that starts again at the first row of the streamed table with every
    snapshot: what it emits, and when that is the join. */
module Restarts {
  import opened Tables
  import opened Joins
  import opened Streams

  /** No snapshot shows more than `n` rows. */
  ghost predicate Within(feed: seq<Snapshot>, n: nat) {
    forall k {:trigger Seen(feed, k)} :: 0 <= k <= |feed| ==> 0 <= Seen(feed, k) <= n
  }

  /** The output after `k` snapshots: each one that brought rows is joined whole. */
  ghost function Restarted(left: seq<Row>, right: seq<Row>, feed: seq<Snapshot>, k: nat, t: Test): seq<Row>
    requires k <= |feed| && Within(feed, |right|)
  {
    if k == 0 then []
    else
      Restarted(left, right, feed, k - 1, t)
      + if NewRows(feed, k - 1) then JoinLeftMajor(left, right[..Seen(feed, k)], t) else []
  }

  lemma {:induction false} FeedIsWithin(feed: seq<Snapshot>, full: TableData)
    requires GrowingFeed(feed, full)
    ensures Within(feed, full.rowCount)
  {
    forall k {:trigger Seen(feed, k)} | 0 <= k <= |feed| ensures 0 <= Seen(feed, k) <= full.rowCount {
      assert k > 0 ==> Index(feed, k - 1);
    }
  }

  lemma {:induction false} SkippedAddNothing(left: seq<Row>, right: seq<Row>, feed: seq<Snapshot>, k: nat, n: nat,
                                             t: Test)
    requires k <= n <= |feed| && Within(feed, |right|)
    requires forall j :: k <= j < n ==> !NewRows(feed, j)
    ensures Restarted(left, right, feed, n, t) == Restarted(left, right, feed, k, t)
  {
    if k < n {
      SkippedAddNothing(left, right, feed, k, n - 1, t);
      assert !NewRows(feed, n - 1);
    }
  }

  // ------------------------------------------------------- when it is the join

  /** The rows seen before the last snapshot that brought any. */
  function Before(feed: seq<Snapshot>, k: nat): int
    requires k <= |feed|
  {
    if k == 0 then 0 else if NewRows(feed, k - 1) then Seen(feed, k - 1) else Before(feed, k - 1)
  }

  /** The output before that snapshot. */
  ghost function Prior(left: seq<Row>, right: seq<Row>, feed: seq<Snapshot>, k: nat, t: Test): seq<Row>
    requires k <= |feed| && Within(feed, |right|)
  {
    if k == 0 then []
    else if NewRows(feed, k - 1) then Restarted(left, right, feed, k - 1, t)
    else Prior(left, right, feed, k - 1, t)
  }

  lemma {:induction false} NothingOnRight(left: seq<Row>, t: Test)
    ensures JoinLeftMajor(left, [], t) == []
  {
    if left != [] {
      NothingOnRight(left[..|left| - 1], t);
    }
  }

  lemma {:induction false} Growing(feed: seq<Snapshot>, full: TableData, k: nat)
    requires GrowingFeed(feed, full) && 0 < k <= |feed|
    ensures Seen(feed, k - 1) <= Seen(feed, k)
  {
    assert Index(feed, k - 1) && (k > 1 ==> Index(feed, k - 2));
    assert IsPrefix(feed[k - 1].table, full);
  }

  lemma {:induction false} LastIsWhole(left: seq<Row>, right: seq<Row>, feed: seq<Snapshot>, full: TableData, k: nat,
                                       t: Test)
    requires GrowingFeed(feed, full) && k <= |feed| && full.rowCount == |right| && Within(feed, |right|)
    ensures Restarted(left, right, feed, k, t)
         == Prior(left, right, feed, k, t) + JoinLeftMajor(left, right[..Seen(feed, k)], t)
  {
    if k == 0 {
      NothingOnRight(left, t);
      assert right[..0] == [];
    } else {
      Growing(feed, full, k);
      var so := Restarted(left, right, feed, k - 1, t);
      if NewRows(feed, k - 1) {
        assert Prior(left, right, feed, k, t) == so;
      } else {
        LastIsWhole(left, right, feed, full, k - 1, t);
        assert so + [] == so;
        assert Seen(feed, k) == Seen(feed, k - 1);
      }
    }
  }

  lemma {:induction false} NoMatchOfLeft(l: Row, right: seq<Row>, t: Test)
    ensures MatchesOfLeft(l, right, t) == [] <==> forall j :: 0 <= j < |right| ==> !t(l, right[j])
  {
    if right != [] {
      var n := |right| - 1;
      NoMatchOfLeft(l, right[..n], t);
      assert forall j :: 0 <= j < n ==> right[..n][j] == right[j];
    }
  }

  lemma {:induction false} LeftMajorEmptyIff(left: seq<Row>, right: seq<Row>, t: Test)
    ensures JoinLeftMajor(left, right, t) == []
       <==> forall i, j :: 0 <= i < |left| && 0 <= j < |right| ==> !t(left[i], right[j])
  {
    if left != [] {
      var n := |left| - 1;
      LeftMajorEmptyIff(left[..n], right, t);
      NoMatchOfLeft(left[n], right, t);
      assert forall i :: 0 <= i < n ==> left[..n][i] == left[i];
    }
  }

  /** No pair of a left row and one of the first `n` right rows passes. */
  ghost predicate NonePass(left: seq<Row>, right: seq<Row>, n: int, t: Test) {
    forall i, j :: 0 <= i < |left| && 0 <= j < |right| && j < n ==> !t(left[i], right[j])
  }

  lemma {:induction false} PrefixEmptyIff(left: seq<Row>, right: seq<Row>, n: nat, t: Test)
    requires n <= |right|
    ensures JoinLeftMajor(left, right[..n], t) == [] <==> NonePass(left, right, n, t)
  {
    LeftMajorEmptyIff(left, right[..n], t);
    assert forall j :: 0 <= j < n ==> right[..n][j] == right[j];
  }

  lemma {:induction false} FewerPass(left: seq<Row>, right: seq<Row>, m: int, n: int, t: Test)
    requires m <= n
    ensures NonePass(left, right, n, t) ==> NonePass(left, right, m, t)
  {
  }

  lemma {:induction false} PriorEmptyIff(left: seq<Row>, right: seq<Row>, feed: seq<Snapshot>, full: TableData, k: nat,
                                         t: Test)
    requires GrowingFeed(feed, full) && k <= |feed| && full.rowCount == |right| && Within(feed, |right|)
    ensures Before(feed, k) <= Seen(feed, k)
    ensures Prior(left, right, feed, k, t) == [] <==> NonePass(left, right, Before(feed, k), t)
  {
    if k > 0 {
      Growing(feed, full, k);
      PriorEmptyIff(left, right, feed, full, k - 1, t);
      if NewRows(feed, k - 1) {
        LastIsWhole(left, right, feed, full, k - 1, t);
        PrefixEmptyIff(left, right, Seen(feed, k - 1), t);
        assert Prior(left, right, feed, k, t) == Restarted(left, right, feed, k - 1, t);
        FewerPass(left, right, Before(feed, k - 1), Seen(feed, k - 1), t);
      }
    }
  }

  /** Starting again with every snapshot emits the join exactly when no row seen
      before the last snapshot that brought rows joins anything. */
  lemma {:induction false} RestartedIff(left: seq<Row>, right: seq<Row>, feed: seq<Snapshot>, full: TableData, t: Test)
    requires GrowingFeed(feed, full) && full.rowCount == |right| && Within(feed, |right|)
    ensures multiset(Restarted(left, right, feed, |feed|, t)) == multiset(JoinLeftMajor(left, right, t))
       <==> NonePass(left, right, Before(feed, |feed|), t)
    ensures NonePass(left, right, Before(feed, |feed|), t) ==>
      Restarted(left, right, feed, |feed|, t) == JoinLeftMajor(left, right, t)
  {
    var a, b := Restarted(left, right, feed, |feed|, t), JoinLeftMajor(left, right, t);
    LastIsWhole(left, right, feed, full, |feed|, t);
    PriorEmptyIff(left, right, feed, full, |feed|, t);
    assert right[..Seen(feed, |feed|)] == right;
    assert a == Prior(left, right, feed, |feed|, t) + b;
    assert |multiset(a)| == |a| && |multiset(b)| == |b|;
  }
}
