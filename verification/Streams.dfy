/** What a reader of a growing work buffer sees: a sequence of snapshots, each
    a row prefix of the next, the last one with status WorkDone. */
module Streams {
  import opened Tables

  datatype Snapshot = Snapshot(table: TableData, status: WorkStatus)

  /** `getTableData` returns early only with this many unread rows. */
  const BATCH_ROWS := 1000000

  ghost predicate Index(feed: seq<Snapshot>, k: int) {
    0 <= k < |feed|
  }

  /** `feed` is some way of reading the table `full` while it grows. Snapshots
      without new rows are allowed. */
  ghost predicate GrowingFeed(feed: seq<Snapshot>, full: TableData) {
    && WellFormed(full)
    && feed != []
    && (forall k {:trigger Index(feed, k)} :: Index(feed, k) ==>
          (feed[k].status.WorkDone? <==> k == |feed| - 1) && IsPrefix(feed[k].table, full))
    && (forall j, k {:trigger Index(feed, j), Index(feed, k)} :: Index(feed, j) && Index(feed, k) && j <= k ==>
          feed[j].table.rowCount <= feed[k].table.rowCount)
    && feed[|feed| - 1].table.rowCount == full.rowCount
  }

  ghost predicate IsPrefix(t: TableData, full: TableData)
    requires WellFormed(full)
  {
    0 <= t.rowCount <= full.rowCount && t == TakeRows(full, t.rowCount)
  }

  /** The number of rows in the first `k` snapshots, that is, in the last of them. */
  function Seen(feed: seq<Snapshot>, k: nat): int
    requires k <= |feed|
  {
    if k == 0 then 0 else feed[k - 1].table.rowCount
  }

  /** The wait condition of `getTableData` for a reader that has consumed the
      previous snapshot. */
  ghost predicate Throttled(feed: seq<Snapshot>) {
    forall k {:trigger Index(feed, k)} :: Index(feed, k) && !feed[k].status.WorkDone? ==>
      feed[k].table.rowCount - Seen(feed, k) >= BATCH_ROWS
  }

  lemma {:induction false} ThrottledGrowth(feed: seq<Snapshot>, full: TableData, k: nat)
    requires GrowingFeed(feed, full) && Throttled(feed)
    requires k < |feed|
    ensures Seen(feed, k) >= k * BATCH_ROWS
  {
    if k > 0 {
      ThrottledGrowth(feed, full, k - 1);
      assert Index(feed, k - 1);
    }
  }

  /** A reader processes at most floor(N / 1000000) + 1 snapshots. */
  lemma {:induction false} FeedIsShort(feed: seq<Snapshot>, full: TableData)
    requires GrowingFeed(feed, full) && Throttled(feed)
    ensures |feed| <= full.rowCount / 1000000 + 1
  {
    var n := |feed| - 1;
    ThrottledGrowth(feed, full, n);
    assert Index(feed, n - 1) ==> IsPrefix(feed[n - 1].table, full);
  }

  /** What every operator needs to know about a snapshot of `full`. */
  ghost predicate Delivers(t: TableData, full: TableData) {
    && WellFormed(t) && WellFormed(full)
    && t.rowCount <= full.rowCount
    && SchemaOf(t) == SchemaOf(full)
    && t.columns.Keys == full.columns.Keys
    && forall r :: 0 <= r < t.rowCount ==> RowAt(t, r) == RowAt(full, r)
  }

  predicate NewRows(feed: seq<Snapshot>, k: nat)
    requires k < |feed|
  {
    feed[k].table.rowCount > Seen(feed, k)
  }

  /** The row counts of the snapshots among the first `k` that brought rows. */
  function CountsAdded(feed: seq<Snapshot>, k: nat): int
    requires k <= |feed|
  {
    if k == 0 then 0
    else CountsAdded(feed, k - 1) + if NewRows(feed, k - 1) then feed[k - 1].table.rowCount else 0
  }

  /** The polling part of every streaming loop: snapshots without new rows are
      skipped until rows arrive or the work is done. Nothing is skipped that
      had rows, and a finished table has been seen in full. */
  method NextBatch(feed: seq<Snapshot>, ghost full: TableData, k: nat, rowIndex: nat)
    returns (t: TableData, done: bool, next: nat)
    requires GrowingFeed(feed, full)
    requires k < |feed| && rowIndex == Seen(feed, k)
    ensures Delivers(t, full) && rowIndex <= t.rowCount
    ensures t.rowCount == rowIndex ==> done
    ensures k < next <= |feed| && t == feed[next - 1].table
    ensures t.rowCount == Seen(feed, next)
    ensures forall j :: k <= j < next - 1 ==> !NewRows(feed, j)
    ensures NewRows(feed, next - 1) <==> t.rowCount > rowIndex
    ensures done <==> next == |feed|
    ensures done ==> t.rowCount == full.rowCount
    ensures CountsAdded(feed, next) == CountsAdded(feed, k) + if t.rowCount > rowIndex then t.rowCount else 0
  {
    next := k;
    while true
      invariant k <= next < |feed| && rowIndex == Seen(feed, next)
      invariant forall j :: k <= j < next ==> !NewRows(feed, j)
      invariant CountsAdded(feed, next) == CountsAdded(feed, k)
      decreases |feed| - next
    {
      t := feed[next].table;
      assert Index(feed, next) && (next > 0 ==> Index(feed, next - 1));
      TakeRowsIsPrefix(full, t.rowCount);
      done := feed[next].status.WorkDone?;
      next := next + 1;
      if rowIndex == t.rowCount && !done {
        continue;
      }
      break;
    }
  }
}
