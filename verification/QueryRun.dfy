/** The second half of a snippet: projection with or without GROUP BY, then
    HAVING, ORDER BY and LIMIT in whatever combination the snippet has them. */
module QueryRun {
  import opened Tables
  import opened Aggregates
  import opened Ordering
  import opened Projections
  import opened ResultPipeline
  import opened Having
  import opened Ungrouped
  import opened Wrappers

  datatype Limit = Limit(offset: nat, length: nat)

  /** What follows the projection. */
  datatype Tail = Tail(having: Option<seq<Clause>>, orders: Option<seq<OrderKey>>, limit: Option<Limit>)

  // ------------------------------------------------------------ specification

  function AfterHaving(tail: Tail, rows: seq<Row>): seq<Row> {
    if tail.having.Some? then Kept(rows, tail.having.value) else rows
  }

  /** The rows before LIMIT: those that pass HAVING, in sorted order if there is
      one, else in the order they had. */
  ghost predicate Arranged(mid: seq<Row>, tail: Tail, rows: seq<Row>) {
    var kept := AfterHaving(tail, rows);
    if tail.orders.Some? then multiset(mid) == multiset(kept) && SortedRows(tail.orders.value, mid) else mid == kept
  }

  /** A LIMIT of length 0 is taken for none. */
  predicate HasLimit(tail: Tail) {
    tail.limit.Some? && tail.limit.value.length != 0
  }

  /** What is saved of them. */
  function Limited(tail: Tail, mid: seq<Row>): Saving<seq<Row>> {
    if HasLimit(tail) then SavedRows(mid, tail.limit.value.offset, tail.limit.value.length) else Saved(mid)
  }

  /** `out` is the saved table for result rows `rows`, by way of the rows before
      LIMIT. */
  ghost predicate Answers(out: Saving<TableData>, tail: Tail, rows: seq<Row>) {
    exists mid :: AnswersBy(out, mid, tail, rows)
  }

  /** What is saved of a snippet over no rows. */
  ghost predicate AnswersNothing(out: Saving<TableData>, alias: seq<string>) {
    out.Saved? && out.value.rowCount == 0 && out.value.columns == map c | c in alias :: EMPTY_COLUMN
  }

  ghost predicate AnswersBy(out: Saving<TableData>, mid: seq<Row>, tail: Tail, rows: seq<Row>) {
    && Arranged(mid, tail, rows)
    && if out.Saved? then WellFormed(out.value) && Limited(tail, mid) == Saved(Rows(out.value))
       else Limited(tail, mid) == Undefined
  }

  /** The tail names columns that the result has. */
  ghost predicate TailFits(tail: Tail, t: TableData) {
    && (tail.having.Some? ==> Testable(tail.having.value, t))
    && (tail.orders.Some? ==> OrderColumns(tail.orders.value, t))
  }

  /** ... said of the announced columns. */
  ghost predicate TailOn(tail: Tail, schema: Schema) {
    && (tail.having.Some? ==>
          && Alternates(tail.having.value) && ConstantsFit(tail.having.value)
          && forall k :: 0 <= k < |tail.having.value| && tail.having.value[k].Test? ==>
            var c := tail.having.value[k];
            c.column in schema && TypedAs(c.constant, schema[c.column].colType))
    && (tail.orders.Some? ==> forall k :: 0 <= k < |tail.orders.value| ==> tail.orders.value[k].name in schema)
  }

  lemma {:induction false} TailOnTable(tail: Tail, t: TableData, schema: Schema, rows: seq<Row>)
    requires TailOn(tail, schema) && Represents(t, schema, rows)
    ensures TailFits(tail, t)
  {
    if tail.having.Some? {
      var cs := tail.having.value;
      forall k | 0 <= k < |cs| && cs[k].Test?
        ensures cs[k].column in t.columns && TypedAs(cs[k].constant, t.columns[cs[k].column].colType)
      {
        assert HoldsColumn(t.columns[cs[k].column], schema[cs[k].column], rows, cs[k].column);
      }
    }
  }

  // -------------------------------------------------------------- the methods

  /** Lines 84-133: HAVING, ORDER BY, LIMIT. */
  method Finish(result: TableData, tail: Tail) returns (out: Saving<TableData>)
    requires WellFormed(result) && TailFits(tail, result)
    ensures Answers(out, tail, Rows(result))
  {
    var t := result;
    if tail.having.Some? {
      t := Filtering(result, tail.having.value);
      assert t.columns.Keys == result.columns.Keys;
    }
    ghost var kept := Rows(t);
    if tail.orders.Some? {
      t := OrderBy(t, tail.orders.value);
    }
    ghost var mid := Rows(t);
    assert Arranged(mid, tail, Rows(result));
    if HasLimit(tail) {
      out := SaveRows(t, tail.limit.value.offset, tail.limit.value.length);
    } else {
      out := SaveRows(t, 0, t.rowCount);
      assert mid[0..|mid|] == mid;
    }
    assert AnswersBy(out, mid, tail, Rows(result));
  }

  /** The same tail on a result without rows, whose columns have no type: the loops
      of HAVING visit nothing, ORDER BY copies the table. */
  method FinishNothing(result: TableData, tail: Tail, ghost alias: seq<string>) returns (out: TableData)
    requires Bare(result, alias)
    ensures out == result
  {
    var t := result;
    if tail.having.Some? {
      var cols := CopyTypes(map[], result);
      t := TableData(cols, 0);
      assert t.columns == result.columns;
    }
    if HasLimit(tail) {
      out := SaveNothing(t, tail.limit.value.offset, tail.limit.value.length, alias);
    } else {
      out := SaveNothing(t, 0, t.rowCount, alias);
    }
  }

  /** `saveTableData` on columns without a type, of which it slices nothing. */
  method SaveNothing(t: TableData, offset: nat, length: nat, ghost alias: seq<string>) returns (out: TableData)
    requires Bare(t, alias) && (length == 0 ==> offset == 0)
    ensures out == t
  {
    if length <= t.rowCount {
      var cols := CopyTypes(map[], t);
      assert cols == t.columns;
      out := TableData(cols, length - offset);
    } else {
      out := t;
    }
  }

  /** A grouped snippet: saved are the rows of the ordered, filtered and
      limited result of the groups. */
  method RunGrouped(p: ResultPipeline, groups: seq<string>, ps: seq<Projection>, alias: seq<string>,
                    ghost infos: seq<ColInfo>, tail: Tail)
    returns (out: Saving<TableData>)
    requires WellFormed(p.targetTable) && p.groupByKey == map[] && p.groupByTable == [] && p.resultTable == EMPTY_TABLE
    requires forall k :: 0 <= k < |groups| ==> groups[k] in p.targetTable.columns
    requires |alias| == |ps| == |infos| && ps != [] && DistinctNames(alias)
    requires AllFit(ps, infos, p.targetTable, groups)
    requires TailOn(tail, ResultSchema(alias, infos, |ps|))
    modifies p
    ensures old(p.targetTable.rowCount) > 0 ==> Answers(out, tail, ResultRows(old(p.targetTable), groups, ps, alias))
    ensures old(p.targetTable.rowCount) == 0 ==> AnswersNothing(out, alias)
  {
    ghost var t := p.targetTable;
    var empty := p.targetTable.rowCount == 0;
    p.GroupAndAggregate(groups, ps, alias, infos);
    if empty {
      var nothing := FinishNothing(p.resultTable, tail, alias);
      return Saved(nothing);
    }
    TailOnTable(tail, p.resultTable, ResultSchema(alias, infos, |ps|), ResultRows(t, groups, ps, alias));
    out := Finish(p.resultTable, tail);
  }

  /** With no HAVING and no LIMIT this is the ordered result of the groups. */
  lemma {:induction false} OrderedAnswer(out: Saving<TableData>, t: TableData, groups: seq<string>,
                                         ps: seq<Projection>, alias: seq<string>, orders: seq<OrderKey>)
    requires WellFormed(t) && |ps| == |alias|
    requires Answers(out, Tail(None, Some(orders), None), ResultRows(t, groups, ps, alias))
    ensures out.Saved? && OrderedResult(Rows(out.value), t, groups, ps, alias, orders)
  {
    var mid :| AnswersBy(out, mid, Tail(None, Some(orders), None), ResultRows(t, groups, ps, alias));
  }

  ghost predicate SameYield(ps: seq<Projection>, n: nat) {
    ps != [] && (n > 0 ==> forall k :: 0 <= k < |ps| ==> Yield(ps[k], n) == Yield(ps[0], n))
  }

  /** The result rows without GROUP BY. */
  function WholeRows(ps: seq<Projection>, alias: seq<string>, schema: Schema, rows: seq<Row>): (out: seq<Row>)
    requires rows != [] && |ps| == |alias| && ps != [] && forall k :: 0 <= k < |ps| ==>
      Yield(ps[k], |rows|) == Yield(ps[0], |rows|)
  {
    seq(Yield(ps[0], |rows|), r requires 0 <= r < Yield(ps[0], |rows|) =>
      NamedCells(alias, ResultCells(ps, schema, rows, r)))
  }

  /** A snippet without GROUP BY whose projections yield equally many rows, which
      is what makes its result a table. */
  method RunWhole(t: TableData, ps: seq<Projection>, alias: seq<string>, ghost infos: seq<ColInfo>, tail: Tail)
    returns (out: Saving<TableData>)
    requires WellFormed(t) && |ps| == |alias| == |infos| && DistinctNames(alias) && SameYield(ps, t.rowCount)
    requires AllProjectionsFit(ps, infos, t)
    requires TailOn(tail, ResultSchema(alias, infos, |ps|))
    ensures t.rowCount > 0 ==> Answers(out, tail, WholeRows(ps, alias, SchemaOf(t), Rows(t)))
    ensures t.rowCount == 0 ==> AnswersNothing(out, alias)
  {
    var result := AggregateWhole(t, ps, alias, infos);
    if t.rowCount == 0 {
      var nothing := FinishNothing(result, tail, alias);
      return Saved(nothing);
    }
    WholeResult(result, ps, alias, infos, SchemaOf(t), Rows(t));
    WholeTail(tail, result, ps, alias, infos, SchemaOf(t), Rows(t));
    out := Finish(result, tail);
  }

  lemma {:induction false} WholeResult(result: TableData, ps: seq<Projection>, alias: seq<string>, infos: seq<ColInfo>,
                                       schema: Schema, rows: seq<Row>)
    requires rows != [] && |ps| == |alias| == |infos| && DistinctNames(alias) && SameYield(ps, |rows|)
    requires Projected(result, ps, alias, infos, schema, rows)
    ensures WellFormed(result) && Rows(result) == WholeRows(ps, alias, schema, rows)
  {
    WellFormedIff(result, ps, alias, infos, schema, rows);
    forall r | 0 <= r < result.rowCount ensures Rows(result)[r] == WholeRows(ps, alias, schema, rows)[r] {
      ProjectedRow(result, ps, alias, infos, schema, rows, r);
    }
  }

  lemma {:induction false} WholeTail(tail: Tail, result: TableData, ps: seq<Projection>, alias: seq<string>,
                                     infos: seq<ColInfo>, schema: Schema, rows: seq<Row>)
    requires rows != [] && |ps| == |alias| == |infos| && DistinctNames(alias) && ps != []
    requires Projected(result, ps, alias, infos, schema, rows)
    requires TailOn(tail, ResultSchema(alias, infos, |ps|))
    ensures TailFits(tail, result)
  {
    SchemaNames(alias, infos, |ps|);
    assert alias[..|ps|] == alias;
    if tail.having.Some? {
      var cs := tail.having.value;
      forall k | 0 <= k < |cs| && cs[k].Test?
        ensures cs[k].column in result.columns && TypedAs(cs[k].constant, result.columns[cs[k].column].colType)
      {
        var a :| 0 <= a < |alias| && alias[a] == cs[k].column;
        ResultSchemaAt(alias, infos, |ps|, a);
        assert ColumnIs(result.columns[alias[a]], infos[a], ColumnCells(ps[a], schema, rows));
      }
    }
  }

  // ------------------------------------------------------ what the query asks for

  /** The rows that HAVING asks for, in sorted order if there is one. */
  ghost predicate ArrangedAsAsked(mid: seq<Row>, tail: Tail, rows: seq<Row>) {
    var asked := AskedOf(tail, rows);
    if tail.orders.Some? then multiset(mid) == multiset(asked) && SortedRows(tail.orders.value, mid) else mid == asked
  }

  ghost function AskedOf(tail: Tail, rows: seq<Row>): seq<Row> {
    if tail.having.Some? then AskedRows(rows, tail.having.value) else rows
  }

  /** An answer to HAVING, ORDER BY and LIMIT on the rows. */
  ghost predicate AsAsked(ans: seq<Row>, tail: Tail, rows: seq<Row>) {
    exists mid :: ArrangedAsAsked(mid, tail, rows) && ans == LimitOf(tail, mid)
  }

  function LimitOf(tail: Tail, mid: seq<Row>): seq<Row> {
    if tail.limit.Some? then LimitRows(mid, tail.limit.value.offset, tail.limit.value.length) else mid
  }

  ghost predicate HavingRight(tail: Tail, rows: seq<Row>) {
    tail.having.Some? ==> forall k :: 0 <= k < |rows| ==> RowRight(tail.having.value, rows[k])
  }

  /** The condition on LIMIT for so many rows: of length 0 it asks for no row, and saves
      all of them. */
  predicate LimitRight(tail: Tail, n: nat) {
    tail.limit.Some? ==>
      var offset, length := tail.limit.value.offset, tail.limit.value.length;
      if length == 0 then n == 0
      else (length <= n ==> offset <= length) && (offset == 0 || length == n || n == 0)
  }

  /** The rows before LIMIT are the ones asked for exactly when HAVING is right on
      every row. */
  lemma {:induction false} ArrangedIff(mid: seq<Row>, tail: Tail, rows: seq<Row>)
    requires Arranged(mid, tail, rows)
    ensures ArrangedAsAsked(mid, tail, rows) <==> HavingRight(tail, rows)
  {
    if tail.having.Some? {
      HavingRightIff(rows, tail.having.value);
    }
  }

  /** LIMIT is right already if it saves the right number of rows. */
  lemma {:induction false} LimitTells(mid: seq<Row>, other: seq<Row>, tail: Tail, rows: seq<Row>)
    requires |mid| == |other| == |AskedOf(tail, rows)|
    ensures Limited(tail, mid) == Saved(LimitOf(tail, mid)) <==> LimitRight(tail, |AskedOf(tail, rows)|)
    ensures Limited(tail, mid) == Saved(LimitOf(tail, other)) ==> LimitRight(tail, |AskedOf(tail, rows)|)
  {
    if HasLimit(tail) {
      SavedIsLimitIff(mid, tail.limit.value.offset, tail.limit.value.length);
      assert |LimitOf(tail, mid)| == |LimitOf(tail, other)|;
    }
  }

  lemma {:induction false} AskedCount(mid: seq<Row>, tail: Tail, rows: seq<Row>)
    requires ArrangedAsAsked(mid, tail, rows)
    ensures |mid| == |AskedOf(tail, rows)|
  {
    assert |multiset(mid)| == |mid| && |multiset(AskedOf(tail, rows))| == |AskedOf(tail, rows)|;
  }

  /** Without LIMIT the saved rows answer the query exactly when HAVING is right on
      every row; and where it is, exactly when LIMIT fits the number of rows that pass. */
  lemma {:induction false} SavedIsAskedIff(out: Saving<TableData>, tail: Tail, rows: seq<Row>)
    requires Answers(out, tail, rows)
    ensures out.Saved? ==> WellFormed(out.value)
    ensures tail.limit.None? ==> out.Saved? && (AsAsked(Rows(out.value), tail, rows) <==> HavingRight(tail, rows))
    ensures HavingRight(tail, rows) ==>
      (out.Saved? && AsAsked(Rows(out.value), tail, rows) <==> LimitRight(tail, |AskedOf(tail, rows)|))
  {
    var mid :| AnswersBy(out, mid, tail, rows);
    ArrangedIff(mid, tail, rows);
    if HavingRight(tail, rows) {
      AskedCount(mid, tail, rows);
      LimitTells(mid, mid, tail, rows);
      if out.Saved? && AsAsked(Rows(out.value), tail, rows) {
        var other :| ArrangedAsAsked(other, tail, rows) && Rows(out.value) == LimitOf(tail, other);
        AskedCount(other, tail, rows);
        LimitTells(mid, other, tail, rows);
      }
    }
  }

  // ------------------------------------------------------------------ over no rows

  /** The one row that aggregates without GROUP BY have over no rows: counts are 0,
      everything else is NULL. */
  function EmptyRow(ps: seq<Projection>, alias: seq<string>): Row
    requires |ps| == |alias|
  {
    NamedCells(alias, seq(|ps|, k requires 0 <= k < |ps| =>
      if ps[k].select.Count? || ps[k].select.CountStar? || ps[k].select.DistinctCount? then Cell(Int(0), false)
      else Cell(NoValue, true)))
  }

  predicate AllPlain(ps: seq<Projection>) {
    forall k :: 0 <= k < |ps| ==> ps[k].select.ColumnName?
  }

  /** The result rows of a query over no rows. */
  function RowsOfNothing(grouped: bool, ps: seq<Projection>, alias: seq<string>): seq<Row>
    requires |ps| == |alias|
  {
    if grouped || AllPlain(ps) then [] else [EmptyRow(ps, alias)]
  }

  lemma {:induction false} AskedOfNothing(grouped: bool, ps: seq<Projection>, alias: seq<string>, tail: Tail)
    requires |ps| == |alias|
    ensures |AskedOf(tail, RowsOfNothing(grouped, ps, alias))| ==
      if grouped || AllPlain(ps) || (tail.having.Some? && !AllMeant(tail.having.value, EmptyRow(ps, alias))) then 0
      else 1
  {
    var rows := RowsOfNothing(grouped, ps, alias);
    if rows != [] && tail.having.Some? {
      assert rows[..0] == [] && rows[0] == EmptyRow(ps, alias);
      assert AskedRows(rows[..0], tail.having.value) == [];
    }
  }

  /** Over no rows what is saved has the number of rows that the query asks for
      exactly when it is grouped, or has no aggregate, or HAVING or LIMIT rejects the
      row of the aggregates. */
  lemma {:induction false} NothingIff(out: Saving<TableData>, grouped: bool, ps: seq<Projection>, alias: seq<string>,
                                      tail: Tail, ans: seq<Row>)
    requires |ps| == |alias| && AnswersNothing(out, alias)
    requires AsAsked(ans, tail, RowsOfNothing(grouped, ps, alias))
    ensures out.value.rowCount == |ans|
       <==> || grouped || AllPlain(ps)
            || (tail.having.Some? && !AllMeant(tail.having.value, EmptyRow(ps, alias)))
            || (tail.limit.Some? && (tail.limit.value.length == 0 || tail.limit.value.offset > 0))
  {
    var rows := RowsOfNothing(grouped, ps, alias);
    var mid :| ArrangedAsAsked(mid, tail, rows) && ans == LimitOf(tail, mid);
    var asked := AskedOf(tail, rows);
    assert |mid| == |asked| by {
      assert |multiset(mid)| == |mid| && |multiset(asked)| == |asked|;
    }
    AskedOfNothing(grouped, ps, alias, tail);
  }

  /** COUNT(*) over no rows: nothing is saved, and one row is asked for. */
  lemma {:induction false} CountOfNothing(out: Saving<TableData>, alias: string, ans: seq<Row>)
    requires AnswersNothing(out, [alias])
    requires AsAsked(ans, Tail(None, None, None), RowsOfNothing(false, [Projection(CountStar, Terms([]))], [alias]))
    ensures out.value.rowCount == 0 && ans == [map[alias := Cell(Int(0), false)]]
  {
    var ps := [Projection(CountStar, Terms([]))];
    assert !AllPlain(ps) by { assert !ps[0].select.ColumnName?; }
    var row := EmptyRow(ps, [alias]);
    CellNames([alias], [Cell(Int(0), false)]);
    NamedCellAt([alias], [Cell(Int(0), false)], 0);
    assert row == map[alias := Cell(Int(0), false)];
  }
}
