/** From the blocks of the CSDs to the ordered result of a grouped query: the
    order in which the blocks arrive is not visible in the result. */
module EndToEnd {
  import opened Tables
  import opened RowCodec
  import opened Aggregates
  import opened Ordering
  import opened Permutations
  import opened OrderIndependence
  import opened ResultPipeline
  import opened WorkBuffers

  /** All blocks belong to one work item: same columns, same announced total. */
  ghost predicate OneWork(blocks: seq<Block>, names: seq<string>, cols: seq<Column>, total: int) {
    NamesOk(names, cols)
    && forall k :: 0 <= k < |blocks| ==>
         blocks[k].names == names && blocks[k].total == total && BlockOk(blocks[k], cols)
  }

  ghost function RowsOf(names: seq<string>, cols: seq<Column>): Block -> seq<Row> {
    (b: Block) => if NamesOk(names, cols) && BlockOk(b, cols) then BlockRows(b, names) else []
  }

  lemma {:induction false} RowsAreFlattened(blocks: seq<Block>, names: seq<string>, cols: seq<Column>)
    requires NamesOk(names, cols) && BlocksOk(blocks, cols)
    ensures RowsOfBlocks(blocks, names, cols) == FlatMap(blocks, RowsOf(names, cols))
  {
    if blocks != [] {
      var n := |blocks| - 1;
      RowsAreFlattened(blocks[..n], names, cols);
      assert BlockOk(blocks[n], cols);
      FlatMapOneMore(blocks, RowsOf(names, cols), n);
      assert blocks[..n + 1] == blocks;
    }
  }

  lemma {:induction false} RowsPermuted(a: seq<Block>, b: seq<Block>, names: seq<string>, cols: seq<Column>)
    requires multiset(a) == multiset(b) && NamesOk(names, cols) && BlocksOk(a, cols) && BlocksOk(b, cols)
    ensures multiset(RowsOfBlocks(a, names, cols)) == multiset(RowsOfBlocks(b, names, cols))
  {
    RowsAreFlattened(a, names, cols);
    RowsAreFlattened(b, names, cols);
    FlatMapPermuted(a, b, RowsOf(names, cols));
  }

  /** In this order no run of the work buffer loses a block. */
  predicate LastCounts(all: seq<Block>) {
    |all| == 1 || (all != [] && all[|all| - 1].count > 0)
  }

  lemma {:induction false} PromisedPermuted(a: seq<Block>, b: seq<Block>, names: seq<string>, cols: seq<Column>,
                                            total: int)
    requires multiset(a) == multiset(b) && OneWork(a, names, cols, total) && Promised(a)
    ensures OneWork(b, names, cols, total) && Promised(b)
  {
    NothingPermuted(a, b);
    SumPermuted(a, b, CountIn);
    forall k | 0 <= k < |b|
      ensures b[k].names == names && b[k].total == total && BlockOk(b[k], cols) && b[k].count >= 0
    {
      Permuted(a, b, b[k]);
    }
  }

  /** A finished run over promised blocks has all their rows, in push order. */
  lemma {:induction false} FinishedRows(trace: seq<Buffer>, all: seq<Block>, names: seq<string>, cols: seq<Column>,
                                        total: int)
    requires OneWork(all, names, cols, total) && Promised(all) && LastCounts(all) && RunOf(trace, all)
    requires trace[|trace| - 1].status.WorkDone?
    ensures Inv(trace[|trace| - 1])
    ensures trace[|trace| - 1].names == names && trace[|trace| - 1].cols == cols
    ensures RowsIn(trace[|trace| - 1]) == RowsOfBlocks(all, names, cols)
  {
    DoneMeansAll(trace, all);
    RunInv(trace, |trace| - 1);
  }

  lemma {:induction false} ExactSchema(t: TableData, schema: Schema, rows: seq<Row>)
    requires Exactly(t, schema, rows)
    ensures SchemaOf(t) == schema
  {
    forall c | c in schema ensures SchemaOf(t)[c] == schema[c] {
      assert HoldsColumn(t.columns[c], schema[c], rows, c);
    }
  }

  /** Take any two runs of the work buffer in which the same blocks arrive in
      any two orders, their counts adding up to the announced total and the last
      block of each order counting for something (the only runs that lose
      nothing). Run the same grouped and fully ordered query on the two finished
      tables: the two results are equal, row by row. */
  lemma {:induction false} SameBlocksSameResult(x: seq<Buffer>, a: seq<Block>, y: seq<Buffer>, b: seq<Block>,
                             names: seq<string>, cols: seq<Column>, total: int, t: TableData, u: TableData,
                             groups: seq<string>, ps: seq<Projection>, alias: seq<string>,
                             infos: seq<ColInfo>, orders: seq<OrderKey>, p: seq<Row>, q: seq<Row>)
    requires RunOf(x, a) && RunOf(y, b) && multiset(a) == multiset(b)
    requires OneWork(a, names, cols, total) && Promised(a) && LastCounts(a) && LastCounts(b)
    requires x[|x| - 1].status.WorkDone? && y[|y| - 1].status.WorkDone?
    requires Inv(x[|x| - 1]) && Inv(y[|y| - 1])
    requires Exactly(t, BlockSchema(names, cols), RowsIn(x[|x| - 1]))
    requires Exactly(u, BlockSchema(names, cols), RowsIn(y[|y| - 1]))
    requires WellFormed(t) && WellFormed(u)
    requires OrderedQuery(t, groups, ps, alias, infos, orders)
    requires OrderedResult(p, t, groups, ps, alias, orders)
    requires OrderedResult(q, u, groups, ps, alias, orders)
    ensures p == q
  {
    PromisedPermuted(a, b, names, cols, total);
    FinishedRows(x, a, names, cols, total);
    FinishedRows(y, b, names, cols, total);
    RowsPermuted(a, b, names, cols);
    RepresentsRows(t, BlockSchema(names, cols), RowsIn(x[|x| - 1]));
    RepresentsRows(u, BlockSchema(names, cols), RowsIn(y[|y| - 1]));
    ExactSchema(t, BlockSchema(names, cols), RowsIn(x[|x| - 1]));
    ExactSchema(u, BlockSchema(names, cols), RowsIn(y[|y| - 1]));
    ArrivalOrderIsImmaterial(t, u, groups, ps, alias, infos, orders, p, q);
  }
}
