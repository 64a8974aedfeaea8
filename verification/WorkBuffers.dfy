/** The work buffer that collects the blocks of the CSDs: a queue, one merging
    thread, and readers. Every method body below is one region under the
    buffer's (or the queue's) lock. */
module WorkBuffers {
  import opened Bytes
  import opened Tables
  import opened RowCodec
  import opened Streams
  import opened Permutations
  import opened Wrappers

  /** A result block: the bytes of its rows, where they start, and how many
      storage blocks of how many it stands for. */
  datatype Block = Block(data: seq<Byte>, offsets: seq<int>, rowCount: int, count: int, total: int,
                         names: seq<string>, cols: seq<Column>)

  // -------------------------------------------------------------------- blocks

  function RowEnd(b: Block, i: nat): int {
    if i + 1 < |b.offsets| then b.offsets[i + 1] else |b.data|
  }

  /** A block is laid out as its sender promises: rows one after the other,
      each decodable; an empty block has no rows. */
  ghost predicate BlockOk(b: Block, cols: seq<Column>) {
    && b.cols == cols
    && 0 <= b.rowCount <= |b.offsets|
    && (b.data == [] ==> b.rowCount == 0)
    && forall i :: 0 <= i < b.rowCount ==> RowOk(b, i)
  }

  ghost predicate RowOk(b: Block, i: nat) {
    i < |b.offsets| && 0 <= b.offsets[i] <= RowEnd(b, i) <= |b.data|
    && Decodable(b.data[b.offsets[i]..RowEnd(b, i)], b.cols)
  }

  function RowBytes(b: Block, i: nat): seq<Byte>
    requires i < |b.offsets| && 0 <= b.offsets[i] <= RowEnd(b, i) <= |b.data|
  {
    b.data[b.offsets[i]..RowEnd(b, i)]
  }

  ghost predicate NamesOk(names: seq<string>, cols: seq<Column>) {
    |names| == |cols| && forall i, j :: 0 <= i < j < |names| ==> names[i] != names[j]
  }

  function IndexOf(names: seq<string>, c: string): (k: nat)
    requires c in names
    ensures k < |names| && names[k] == c
  {
    if names[0] == c then 0 else 1 + IndexOf(names[1..], c)
  }

  /** `save_table_column_type`. */
  function TypeInfo(c: Column): ColInfo {
    match c.ty
    case Float32Field => ColInfo(TypeFloat, 0)
    case DoubleField => ColInfo(TypeFloat, 0)
    case DecimalField => ColInfo(TypeFloat, (c.length - 6) * 2)
    case DateField => ColInfo(TypeDate, 0)
    case TextField => ColInfo(TypeString, 0)
    case VarTextField => ColInfo(TypeString, 0)
    case _ => ColInfo(TypeInt, 0)
  }

  /** The scale of a decimal column is the number of its digits behind the point: so
      many times ten times the value is an integer number of units. */
  lemma {:induction false} ScaleFits(c: Column, slot: seq<Byte>)
    requires c.ty.DecimalField? && |slot| == c.length && DecimalSlot(slot)
    ensures TypeInfo(c).realSize == if c.length == 7 then 2 else if c.length == 8 then 4 else 6
    ensures var v := DecodeSlot(DecimalField, slot).f;
      v * (if c.length == 7 then 100.0 else if c.length == 8 then 10000.0 else 1000000.0)
      == DecimalUnits(slot) as real
  {
  }

  function BlockSchema(names: seq<string>, cols: seq<Column>): Schema
    requires |names| == |cols|
  {
    map c | c in names :: TypeInfo(cols[IndexOf(names, c)])
  }

  function NamedRow(names: seq<string>, vs: seq<Value>): Row
    requires |names| == |vs|
  {
    map c | c in names :: Cell(vs[IndexOf(names, c)], false)
  }

  /** The rows of a block under the column names of the buffer. */
  ghost function BlockRows(b: Block, names: seq<string>): (rows: seq<Row>)
    requires NamesOk(names, b.cols) && BlockOk(b, b.cols)
    ensures |rows| == b.rowCount
  {
    seq(b.rowCount, i requires 0 <= i < b.rowCount => BlockRow(b, names, i))
  }

  ghost function BlockRow(b: Block, names: seq<string>, i: nat): Row
    requires |names| == |b.cols| && RowOk(b, i)
  {
    NamedRow(names, DecodeRow(RowBytes(b, i), b.cols))
  }

  /** Rows one after the other, with the offsets at which they start. */
  ghost predicate Laid(b: Block, rows: seq<seq<Byte>>) {
    && b.data == Flatten(rows) && b.rowCount == |rows| && |b.offsets| == |rows|
    && forall i :: 0 <= i < |rows| ==> b.offsets[i] == |Flatten(rows[..i])|
  }

  /** They are cut out again. */
  lemma {:induction false} RowCutOut(b: Block, rows: seq<seq<Byte>>, i: nat)
    requires Laid(b, rows) && i < |rows|
    ensures 0 <= b.offsets[i] <= RowEnd(b, i) <= |b.data| && RowBytes(b, i) == rows[i]
  {
    var rest := ConcatSplit(rows, i);
    assert rows[..i + 1][..i] == rows[..i];
    assert Flatten(rows[..i + 1]) == Flatten(rows[..i]) + rows[i];
    assert i + 1 == |rows| ==> rows[..i + 1] == rows;
  }

  /** Every row of a block of encoded rows comes back, its values under the names of
      the columns, if none of its columns is lost. */
  lemma {:induction false} BlockRoundTrip(b: Block, names: seq<string>, rows: seq<seq<Byte>>, fs: seq<Field>,
                                          s: Sender, i: nat, k: nat)
    requires NamesOk(names, b.cols) && Laid(b, rows) && i < |rows| && k < |names|
    requires AllEncodable(b.cols, fs) && rows[i] == EncodeRow(b.cols, fs, s)
    requires forall j :: 0 <= j < |b.cols| ==> !Lost(b.cols[j], fs[j], s)
    ensures RowOk(b, i)
    ensures forall c :: c in BlockRow(b, names, i) <==> c in names
    ensures names[k] in BlockRow(b, names, i)
         && BlockRow(b, names, i)[names[k]] == Cell(Meanings(b.cols, fs)[k], false)
  {
    RowCutOut(b, rows, i);
    RowRoundTripIff(b.cols, fs, s);
    assert IndexOf(names, names[k]) == k;
  }

  ghost predicate BlocksOk(blocks: seq<Block>, cols: seq<Column>) {
    forall k :: 0 <= k < |blocks| ==> BlockOk(blocks[k], cols)
  }

  ghost function RowsOfBlocks(blocks: seq<Block>, names: seq<string>, cols: seq<Column>): seq<Row>
    requires NamesOk(names, cols) && BlocksOk(blocks, cols)
  {
    if blocks == [] then []
    else
      var n := |blocks| - 1;
      assert BlockOk(blocks[n], cols);
      RowsOfBlocks(blocks[..n], names, cols) + BlockRows(blocks[n], names)
  }

  // --------------------------------------------------------------- transitions

  /** A work buffer without its locks. `pushed` and `merged` are its history. */
  datatype Buffer = Buffer(status: WorkStatus, names: seq<string>, cols: seq<Column>, total: int, mergedCount: int,
                           queue: seq<Block>, current: Option<Block>, pushed: seq<Block>, merged: seq<Block>)

  const NEW_BUFFER := Buffer(Initialized, [], [], 0, 0, [], None, [], [])

  datatype Step = Push(b: Block) | Pop | Merge

  /** When a step can be taken: blocks can be pushed at any time; the merging
      thread runs from the first push until the count is reached. */
  ghost predicate Enabled(s: Buffer, step: Step) {
    match step
    case Push(b) => if s.status.Initialized? then NamesOk(b.names, b.cols) && BlockOk(b, b.cols) else BlockOk(b, s.cols)
    case Pop => s.status.NotFinished? && s.current.None? && s.queue != []
    case Merge => s.current.Some?
  }

  function Next(s: Buffer, step: Step): Buffer
    requires step.Pop? ==> s.queue != []
    requires step.Merge? ==> s.current.Some?
  {
    match step
    case Push(b) =>
      var t :=
        if !s.status.Initialized? then s
        else s.(names := b.names, cols := b.cols, total := b.total, status := NotFinished);
      t.(queue := t.queue + [b], pushed := t.pushed + [b])
    case Pop => s.(current := Some(s.queue[0]), queue := s.queue[1..])
    case Merge =>
      var n := s.mergedCount + s.current.value.count;
      s.(mergedCount := n, merged := s.merged + [s.current.value], current := None,
         status := if n == s.total then WorkDone else s.status)
  }

  function CountIn(b: Block): int {
    b.count
  }

  function CountOf(blocks: seq<Block>): int {
    Sum(blocks, CountIn)
  }

  function InFlight(s: Buffer): seq<Block> {
    if s.current.Some? then [s.current.value] else []
  }

  /** What every reachable state satisfies: each pushed block is merged, in the
      merger's hands or queued, exactly once and in push order; the count is
      the merged blocks' count; WorkDone means the total was reached. */
  ghost predicate Inv(s: Buffer) {
    && s.pushed == s.merged + InFlight(s) + s.queue
    && s.mergedCount == CountOf(s.merged)
    && (s.status.Initialized? <==> s.pushed == [])
    && (s.pushed != [] ==> s.names == s.pushed[0].names && s.cols == s.pushed[0].cols && s.total == s.pushed[0].total)
    && NamesOk(s.names, s.cols)
    && BlocksOk(s.pushed, s.cols)
    && (s.status.WorkDone? ==> s.current.None? && s.merged != [] && s.mergedCount == s.total)
    && (s.status.NotFinished? && s.merged != [] ==> s.mergedCount != s.total)
  }

  lemma {:induction false} MergeKeepsOrder(m: seq<Block>, b: Block, q: seq<Block>)
    ensures m + [b] + q == (m + [b]) + [] + q
    ensures CountOf(m + [b]) == CountOf(m) + b.count
  {
    assert (m + [b])[..|m|] == m;
  }

  lemma {:induction false} PushKeepsInv(s: Buffer, b: Block)
    requires Inv(s) && Enabled(s, Push(b))
    ensures Inv(Next(s, Push(b)))
  {
    assert s.merged + InFlight(s) + (s.queue + [b]) == s.pushed + [b];
  }

  lemma {:induction false} InvStep(s: Buffer, step: Step)
    requires Inv(s) && Enabled(s, step)
    ensures Inv(Next(s, step))
  {
    match step
    case Push(b) => PushKeepsInv(s, b);
    case Pop => assert s.merged + [s.queue[0]] + s.queue[1..] == s.merged + [] + s.queue;
    case Merge => MergeKeepsOrder(s.merged, s.current.value, s.queue);
  }

  predicate StatusUp(a: WorkStatus, b: WorkStatus) {
    a == b || a.Initialized? || (a.NotFinished? && b.WorkDone?)
  }

  /** Later states extend earlier ones: no block is taken back, the status only
      rises, and a finished buffer does not merge any more. */
  ghost predicate Extends(s: Buffer, t: Buffer) {
    && StatusUp(s.status, t.status)
    && s.merged <= t.merged
    && s.pushed <= t.pushed
    && (s.pushed != [] ==> s.names == t.names && s.cols == t.cols && s.total == t.total)
    && (s.status.WorkDone? ==> t.merged == s.merged)
  }

  lemma {:induction false} StepExtends(s: Buffer, step: Step)
    requires Inv(s) && Enabled(s, step)
    ensures Extends(s, Next(s, step))
  {
  }

  lemma {:induction false} ExtendsTransitive(s: Buffer, t: Buffer, u: Buffer)
    requires Extends(s, t) && Extends(t, u)
    ensures Extends(s, u)
  {
  }

  // ----------------------------------------------------------------------- runs

  ghost predicate StepsTo(s: Buffer, t: Buffer) {
    exists step :: Enabled(s, step) && t == Next(s, step)
  }

  /** Any interleaving of pushes, pops and merges. */
  ghost predicate IsRun(trace: seq<Buffer>) {
    && trace != [] && trace[0] == NEW_BUFFER
    && forall i :: 0 <= i < |trace| - 1 ==> StepsTo(trace[i], trace[i + 1])
  }

  lemma {:induction false} StepAt(trace: seq<Buffer>, i: nat) returns (step: Step)
    requires IsRun(trace) && i + 1 < |trace|
    ensures Enabled(trace[i], step) && trace[i + 1] == Next(trace[i], step)
  {
    assert StepsTo(trace[i], trace[i + 1]);
    step :| Enabled(trace[i], step) && trace[i + 1] == Next(trace[i], step);
  }

  lemma {:induction false} RunInv(trace: seq<Buffer>, i: nat)
    requires IsRun(trace) && i < |trace|
    ensures Inv(trace[i])
  {
    if i > 0 {
      RunInv(trace, i - 1);
      var step := StepAt(trace, i - 1);
      InvStep(trace[i - 1], step);
    }
  }

  lemma {:induction false} RunStepExtends(trace: seq<Buffer>, i: nat)
    requires IsRun(trace) && i + 1 < |trace|
    ensures Extends(trace[i], trace[i + 1])
  {
    RunInv(trace, i);
    var step := StepAt(trace, i);
    StepExtends(trace[i], step);
  }

  lemma {:induction false} RunExtends(trace: seq<Buffer>, i: nat, j: nat)
    requires IsRun(trace) && i <= j < |trace|
    ensures Extends(trace[i], trace[j])
  {
    if i < j {
      RunExtends(trace, i, j - 1);
      RunStepExtends(trace, j - 1);
      ExtendsTransitive(trace[i], trace[j - 1], trace[j]);
    }
  }

  // ------------------------------------------------------------------- no loss

  /** The blocks of a work item as their senders promise them: counts that are
      not negative and add up to the total the first one announces. */
  ghost predicate Promised(all: seq<Block>) {
    && all != [] && NamesOk(all[0].names, all[0].cols)
    && BlocksOk(all, all[0].cols) && (forall k :: 0 <= k < |all| ==> all[k].count >= 0)
    && CountOf(all) == all[0].total
  }

  /** A run in which nothing but `all`, in this order, is pushed. */
  ghost predicate RunOf(trace: seq<Buffer>, all: seq<Block>) {
    IsRun(trace) && trace[|trace| - 1].pushed <= all
  }

  /** No run declares the work done before everything has been merged. */
  ghost predicate Lossless(all: seq<Block>) {
    forall trace: seq<Buffer> :: RunOf(trace, all) && trace[|trace| - 1].status.WorkDone? ==>
      trace[|trace| - 1].merged == all
  }

  lemma {:induction false} CountGrows(all: seq<Block>, k: nat, m: nat)
    requires k <= m <= |all| && forall i :: 0 <= i < |all| ==> all[i].count >= 0
    ensures CountOf(all[..k]) <= CountOf(all[..m])
    ensures k < m && all[m - 1].count > 0 ==> CountOf(all[..k]) < CountOf(all[..m])
  {
    if k < m {
      CountGrows(all, k, m - 1);
      assert all[..m][..m - 1] == all[..m - 1];
    }
  }

  lemma {:induction false} DoneMeansAll(trace: seq<Buffer>, all: seq<Block>)
    requires Promised(all) && RunOf(trace, all) && trace[|trace| - 1].status.WorkDone?
    requires |all| == 1 || all[|all| - 1].count > 0
    ensures trace[|trace| - 1].merged == all
    ensures trace[|trace| - 1].queue == []
  {
    var s := trace[|trace| - 1];
    RunInv(trace, |trace| - 1);
    var k := |s.merged|;
    assert s.merged == all[..k];
    assert s.total == all[0].total;
    assert all[..|all|] == all;
    CountGrows(all, k, |all|);
  }

  lemma {:induction false} RunSnoc(trace: seq<Buffer>, step: Step)
    requires IsRun(trace) && Enabled(trace[|trace| - 1], step)
    ensures IsRun(trace + [Next(trace[|trace| - 1], step)])
  {
    var n := |trace|;
    var more := trace + [Next(trace[n - 1], step)];
    forall i | 0 <= i < |more| - 1 ensures StepsTo(more[i], more[i + 1]) {
      if i < n - 1 {
        assert StepsTo(trace[i], trace[i + 1]);
      } else {
        assert more[i] == trace[n - 1];
      }
    }
  }

  /** What holds after the first `k` blocks have been pushed, popped and merged
      one by one. */
  ghost predicate InTurn(s: Buffer, all: seq<Block>, k: nat)
    requires all != [] && k <= |all|
  {
    && s.queue == [] && s.current.None? && s.pushed == s.merged == all[..k]
    && s.mergedCount == CountOf(all[..k])
    && (k > 0 ==> s.total == all[0].total && s.cols == all[0].cols)
    && s.status == if k == 0 then Initialized else if CountOf(all[..k]) == all[0].total then WorkDone else NotFinished
  }

  lemma {:induction false} OneTurn(s: Buffer, all: seq<Block>, k: nat) returns (s1: Buffer, s2: Buffer, s3: Buffer)
    requires Promised(all) && k < |all| && InTurn(s, all, k) && !s.status.WorkDone?
    ensures var b := all[k];
      && Enabled(s, Push(b)) && s1 == Next(s, Push(b))
      && Enabled(s1, Pop) && s2 == Next(s1, Pop)
      && Enabled(s2, Merge) && s3 == Next(s2, Merge)
    ensures InTurn(s3, all, k + 1)
  {
    var b := all[k];
    assert all[..k + 1] == all[..k] + [b];
    SumSnoc(all[..k], b, CountIn);
    s1 := Next(s, Push(b));
    s2 := Next(s1, Pop);
    s3 := Next(s2, Merge);
  }

  /** Pushing, popping and merging one block at a time, as long as no prefix
      already reaches the total. */
  lemma {:induction false} TakeTurns(all: seq<Block>, k: nat) returns (trace: seq<Buffer>)
    requires Promised(all) && k <= |all|
    requires forall j :: 0 < j < k ==> CountOf(all[..j]) != all[0].total
    ensures IsRun(trace) && InTurn(trace[|trace| - 1], all, k)
  {
    if k == 0 {
      trace := [NEW_BUFFER];
    } else {
      trace := TakeTurns(all, k - 1);
      var s1, s2, s3 := OneTurn(trace[|trace| - 1], all, k - 1);
      RunSnoc(trace, Push(all[k - 1]));
      trace := trace + [s1];
      RunSnoc(trace, Pop);
      trace := trace + [s2];
      RunSnoc(trace, Merge);
      trace := trace + [s3];
    }
  }

  lemma {:induction false} FirstFull(all: seq<Block>, m: nat) returns (k: nat)
    requires 0 < m <= |all| && all != [] && CountOf(all[..m]) == all[0].total
    ensures 0 < k <= m && CountOf(all[..k]) == all[0].total
    ensures forall j :: 0 < j < k ==> CountOf(all[..j]) != all[0].total
  {
    if j :| 0 < j < m && CountOf(all[..j]) == all[0].total {
      k := FirstFull(all, j);
    } else {
      k := m;
    }
  }

  /** Nothing is lost in any run exactly when there is one block only or the
      last block counts for something. */
  lemma {:induction false} LosslessIff(all: seq<Block>)
    requires Promised(all)
    ensures Lossless(all) <==> |all| == 1 || all[|all| - 1].count > 0
  {
    if |all| == 1 || all[|all| - 1].count > 0 {
      forall trace: seq<Buffer> | RunOf(trace, all) && trace[|trace| - 1].status.WorkDone?
        ensures trace[|trace| - 1].merged == all
      {
        DoneMeansAll(trace, all);
      }
    } else {
      var n := |all| - 1;
      assert all[..n + 1] == all;
      assert CountOf(all[..n]) == all[0].total;
      var k := FirstFull(all, n);
      var trace := TakeTurns(all, k);
      assert RunOf(trace, all);
      assert |trace[|trace| - 1].merged| < |all|;
    }
  }

  // ------------------------------------------------------------------- readers

  /** The table holds exactly the rows, with the buffer's types and scales. */
  ghost predicate Exactly(t: TableData, schema: Schema, rows: seq<Row>) {
    && Represents(t, schema, rows)
    && forall c :: c in schema ==> c in t.columns && t.columns[c].realSize == schema[c].realSize
  }

  lemma {:induction false} MergedAreOk(s: Buffer)
    requires Inv(s)
    ensures BlocksOk(s.merged, s.cols)
  {
    forall k | 0 <= k < |s.merged| ensures BlockOk(s.merged[k], s.cols) {
      assert s.merged[k] == s.pushed[k];
    }
  }

  ghost function RowsIn(s: Buffer): seq<Row>
    requires Inv(s)
  {
    MergedAreOk(s);
    RowsOfBlocks(s.merged, s.names, s.cols)
  }

  lemma {:induction false} RowsExtend(blocks: seq<Block>, more: seq<Block>, names: seq<string>, cols: seq<Column>)
    requires NamesOk(names, cols) && blocks <= more && BlocksOk(more, cols)
    ensures RowsOfBlocks(blocks, names, cols) <= RowsOfBlocks(more, names, cols)
  {
    if |blocks| < |more| {
      RowsExtend(blocks, more[..|more| - 1], names, cols);
    } else {
      assert blocks == more;
    }
  }

  lemma {:induction false} ColumnPrefix(a: ColData, b: ColData, info: ColInfo, xs: seq<Row>, ys: seq<Row>, c: string)
    requires HoldsColumn(a, info, xs, c) && HoldsColumn(b, info, ys, c) && xs <= ys
    requires a.realSize == b.realSize
    ensures a == TakeColumn(b, |xs|)
  {
    var t := TakeColumn(b, |xs|);
    forall r | 0 <= r < |xs| ensures CellAt(a, r) == CellAt(b, r) {
      assert xs[r] == ys[r];
    }
    assert a.isnull == t.isnull by {
      forall r | 0 <= r < |xs| ensures a.isnull[r] == t.isnull[r] {
        assert CellAt(a, r) == CellAt(b, r);
      }
    }
    ColumnVectors(a, b, |xs|);
  }

  lemma {:induction false} ColumnVectors(a: ColData, b: ColData, n: nat)
    requires Storable(b.colType) && Aligned(b, b.rowCount) && n <= b.rowCount
    requires Aligned(a, n) && a.colType == b.colType
    requires forall r :: 0 <= r < n ==> CellAt(a, r) == CellAt(b, r)
    ensures a.strvec == TakeColumn(b, n).strvec && a.intvec == TakeColumn(b, n).intvec
      && a.floatvec == TakeColumn(b, n).floatvec
  {
    var t := TakeColumn(b, n);
    if b.colType.TypeString? {
      forall r | 0 <= r < n ensures a.strvec[r] == t.strvec[r] { assert CellAt(a, r) == CellAt(b, r); }
    }
    if b.colType.TypeFloat? {
      forall r | 0 <= r < n ensures a.floatvec[r] == t.floatvec[r] { assert CellAt(a, r) == CellAt(b, r); }
    }
    if b.colType.TypeInt? || b.colType.TypeDate? {
      forall r | 0 <= r < n ensures a.intvec[r] == t.intvec[r] { assert CellAt(a, r) == CellAt(b, r); }
    }
  }

  /** A table with fewer of the rows is the prefix of the table with all. */
  lemma {:induction false} ExactPrefix(a: TableData, b: TableData, schema: Schema, xs: seq<Row>, ys: seq<Row>)
    requires Exactly(a, schema, xs) && Exactly(b, schema, ys) && xs <= ys
    ensures WellFormed(b) && IsPrefix(a, b)
  {
    RepresentsRows(b, schema, ys);
    var p := TakeRows(b, |xs|);
    forall c | c in schema ensures a.columns[c] == p.columns[c] {
      assert HoldsColumn(a.columns[c], schema[c], xs, c);
      assert HoldsColumn(b.columns[c], schema[c], ys, c);
      ColumnPrefix(a.columns[c], b.columns[c], schema[c], xs, ys, c);
    }
    assert a.columns == p.columns;
  }

  /** `getTableData` returning in state `s` to a reader that has `seen` rows. */
  ghost predicate ReadsAt(s: Buffer, snap: Snapshot, seen: int) {
    && Inv(s) && s.pushed != []
    && snap.status == s.status
    && Exactly(snap.table, BlockSchema(s.names, s.cols), RowsIn(s))
    && (snap.table.rowCount - seen >= BATCH_ROWS || s.status.WorkDone?)
  }

  /** A reader that polls until the work is done, at any moments of any run. */
  ghost predicate Polls(trace: seq<Buffer>, at: seq<nat>, feed: seq<Snapshot>) {
    && IsRun(trace) && |at| == |feed| && feed != []
    && (forall k :: 0 <= k < |at| ==> at[k] < |trace|)
    && (forall j, k :: 0 <= j <= k < |at| ==> at[j] <= at[k])
    && (forall k {:trigger Index(feed, k)} :: Index(feed, k) ==> ReadsAt(trace[at[k]], feed[k], Seen(feed, k)))
    && (forall k {:trigger Index(feed, k)} :: Index(feed, k) ==> (feed[k].status.WorkDone? <==> k == |feed| - 1))
  }

  lemma {:induction false} LaterReadIsLarger(trace: seq<Buffer>, at: seq<nat>, feed: seq<Snapshot>, j: nat, k: nat)
    requires Polls(trace, at, feed) && j <= k < |feed|
    ensures WellFormed(feed[k].table) && IsPrefix(feed[j].table, feed[k].table)
  {
    assert Index(feed, j) && Index(feed, k);
    var s, t := trace[at[j]], trace[at[k]];
    RunExtends(trace, at[j], at[k]);
    RunInv(trace, at[k]);
    MergedAreOk(t);
    RowsExtend(s.merged, t.merged, t.names, t.cols);
    ExactPrefix(feed[j].table, feed[k].table, BlockSchema(t.names, t.cols), RowsIn(s), RowsIn(t));
  }

  /** What a polling reader sees is a growing, throttled feed of the finished
      table, which is what the streaming operators rely on. */
  lemma {:induction false} ReaderSeesFeed(trace: seq<Buffer>, at: seq<nat>, feed: seq<Snapshot>)
    requires Polls(trace, at, feed)
    ensures GrowingFeed(feed, feed[|feed| - 1].table)
    ensures Throttled(feed)
  {
    var n := |feed| - 1;
    LaterReadIsLarger(trace, at, feed, n, n);
    forall k {:trigger Index(feed, k)} | Index(feed, k)
      ensures IsPrefix(feed[k].table, feed[n].table)
    {
      LaterReadIsLarger(trace, at, feed, k, n);
    }
    forall j, k {:trigger Index(feed, j), Index(feed, k)} | Index(feed, j) && Index(feed, k) && j <= k
      ensures feed[j].table.rowCount <= feed[k].table.rowCount
    {
      LaterReadIsLarger(trace, at, feed, j, k);
    }
  }
}
