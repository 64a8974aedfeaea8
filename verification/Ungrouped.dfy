/** Aggregation without GROUP BY: plain projections copy or compute whole
    columns, aggregates yield one value. */
module Ungrouped {
  import opened Tables
  import opened Expressions
  import opened Projections
  import opened Aggregates

  // ------------------------------------------------------------ specification

  /** The only token of the projection is a column: the column is copied. */
  predicate Copies(p: Projection) {
    p.select.ColumnName? && p.form.Terms? && |p.form.tokens| == 1 && p.form.tokens[0].Column?
  }

  /** What a plain projection shows of one row; a copied column keeps its NULLs. */
  function Shown(p: Projection, schema: Schema): Row -> Cell {
    (row: Row) =>
      if Copies(p) && p.form.tokens[0].name in row then row[p.form.tokens[0].name]
      else CellOf(EvalOn(p.form, schema)(row))
  }

  /** The cells of the result column of a projection. */
  function ColumnCells(p: Projection, schema: Schema, rows: seq<Row>): (cells: seq<Cell>)
    requires rows != []
    ensures |cells| == Yield(p, |rows|)
  {
    if p.select.ColumnName? then seq(|rows|, r requires 0 <= r < |rows| => Shown(p, schema)(rows[r]))
    else [CellOf(AggT(p, schema, rows))]
  }

  function Yield(p: Projection, n: nat): nat {
    if p.select.ColumnName? then n else 1
  }

  /** A column of type and scale `info` with exactly these cells. */
  ghost predicate ColumnIs(col: ColData, info: ColInfo, cells: seq<Cell>) {
    && col.colType == info.colType && Storable(col.colType) && Aligned(col, |cells|)
    && (info.colType.TypeFloat? ==> col.realSize == info.realSize)
    && forall r :: 0 <= r < |cells| ==> CellAt(col, r) == cells[r]
  }

  /** The projection can be computed on the table and fits its column. */
  ghost predicate ProjectionFits(p: Projection, info: ColInfo, schema: Schema, rows: seq<Row>)
    requires rows != []
  {
    if Copies(p) then p.form.tokens[0].name in schema && info == schema[p.form.tokens[0].name]
    else if p.select.ColumnName? then
      forall r :: 0 <= r < |rows| ==>
        Compute(p.form, schema, rows[r]).Done? && Fits(EvalOn(p.form, schema)(rows[r]), info)
    else
      && Computable(p, schema, rows) && Fits(AggT(p, schema, rows), info)
      && (p.select.MinOfAll? ==> !info.colType.TypeDate?)
  }

  // -------------------------------------------------------------- the methods

  /** The result column inserted into the absent column of the destination. */
  method InsertInto(colData: ColData, ghost info: ColInfo, ghost cells: seq<Cell>) returns (col: ColData)
    requires ColumnIs(colData, info, cells)
    ensures ColumnIs(col, info, cells)
  {
    col := EMPTY_COLUMN;
    match colData.colType {
      case TypeInt => col := col.(intvec := col.intvec + colData.intvec);
      case TypeDate => col := col.(intvec := col.intvec + colData.intvec);
      case TypeFloat =>
        col := col.(floatvec := col.floatvec + colData.floatvec);
        col := col.(realSize := colData.realSize);
      case TypeString => col := col.(strvec := col.strvec + colData.strvec);
      case _ =>
    }
    col := col.(isnull := col.isnull + colData.isnull);
    col := col.(rowCount := col.rowCount + colData.rowCount);
    col := col.(colType := colData.colType);
    assert forall r :: 0 <= r < |cells| ==> CellAt(col, r) == CellAt(colData, r);
  }

  /** One computed value pushed onto a result column. */
  method PushResult(colData: ColData, v: T, ghost info: ColInfo, ghost cells: seq<Cell>) returns (col: ColData)
    requires Fits(v, info) && ColumnIs(colData, info, cells)
    ensures ColumnIs(col, info, cells + [CellOf(v)])
  {
    col := colData;
    match v.vtype {
      case TypeString => col := col.(strvec := col.strvec + [v.varString]);
      case TypeInt => col := col.(intvec := col.intvec + [v.varInt]);
      case TypeDate => col := col.(intvec := col.intvec + [v.varInt]);
      case TypeFloat => col := col.(floatvec := col.floatvec + [v.varFloat]);
      case _ =>
    }
    col := col.(isnull := col.isnull + [false]);
    col := col.(rowCount := col.rowCount + 1);
    forall r | 0 <= r < |cells| + 1 ensures CellAt(col, r) == (cells + [CellOf(v)])[r] {
      if r < |cells| {
        assert CellAt(colData, r) == cells[r];
      }
    }
  }

  /** The values of an expression on all rows. */
  ghost predicate AreValues(vals: seq<T>, t: TableData, form: Formula)
    requires WellFormed(t)
  {
    |vals| == t.rowCount && forall r {:trigger RowAt(t, r)} :: 0 <= r < t.rowCount ==>
      vals[r] == EvalOn(form, SchemaOf(t))(RowAt(t, r))
  }

  /** The loop over all rows; the column takes the type of the last value, which
      is that of all of them. */
  method ComputeColumn(t: TableData, form: Formula, ghost info: ColInfo, ghost vals: seq<T>,
                       ghost cells: seq<Cell>)
    returns (col: ColData)
    requires WellFormed(t) && t.rowCount > 0 && AreValues(vals, t, form) && |cells| == |vals|
    requires forall r :: 0 <= r < |vals| ==> Fits(vals[r], info) && cells[r] == CellOf(vals[r])
    ensures ColumnIs(col, info, cells)
  {
    var v := EvalAt(t, form, 0, vals);
    var empty := EMPTY_COLUMN.(colType := v.vtype, realSize := v.realSize);
    col := PushResult(empty, v, info, []);
    ghost var so := [cells[0]];
    assert [] + [cells[0]] == so;
    for r := 1 to t.rowCount
      invariant so == cells[..r] && ColumnIs(col, info, so)
    {
      v := EvalAt(t, form, r, vals);
      col := PushResult(col, v, info, so);
      so := so + [cells[r]];
    }
    assert so == cells;
  }

  method EvalAt(t: TableData, form: Formula, r: nat, ghost vals: seq<T>) returns (v: T)
    requires WellFormed(t) && r < t.rowCount && AreValues(vals, t, form)
    ensures v == vals[r]
  {
    v := EvalRow(t, form, r);
  }

  /** One result column. */
  method ProjectColumn(t: TableData, p: Projection, ghost info: ColInfo) returns (col: ColData)
    requires WellFormed(t) && t.rowCount > 0 && ProjectionFits(p, info, SchemaOf(t), Rows(t))
    ensures ColumnIs(col, info, ColumnCells(p, SchemaOf(t), Rows(t)))
  {
    ghost var cells := ColumnCells(p, SchemaOf(t), Rows(t));
    if p.select.ColumnName? {
      if p.form.Terms? && |p.form.tokens| == 1 && p.form.tokens[0].Column? {
        CopiedCells(t, p);
        col := InsertInto(t.columns[p.form.tokens[0].name], info, cells);
      } else {
        ghost var vals := ComputedCells(t, p, info);
        col := ComputeColumn(t, p.form, info, vals, cells);
      }
    } else {
      var v := Select(t, p);
      var empty := EMPTY_COLUMN.(colType := v.vtype, realSize := v.realSize);
      assert ColumnIs(empty, info, []);
      col := PushResult(empty, v, info, []);
      assert [] + [CellOf(v)] == cells;
    }
  }

  lemma {:induction false} CopiedCells(t: TableData, p: Projection)
    requires WellFormed(t) && t.rowCount > 0 && Copies(p) && p.form.tokens[0].name in t.columns
    ensures var c := p.form.tokens[0].name;
      ColumnIs(t.columns[c], SchemaOf(t)[c], ColumnCells(p, SchemaOf(t), Rows(t)))
  {
    var c, cells := p.form.tokens[0].name, ColumnCells(p, SchemaOf(t), Rows(t));
    forall r | 0 <= r < |cells| ensures CellAt(t.columns[c], r) == cells[r] {
      assert cells[r] == Shown(p, SchemaOf(t))(Rows(t)[r]);
      assert Rows(t)[r] == RowAt(t, r);
    }
  }

  lemma {:induction false} ComputedCells(t: TableData, p: Projection, info: ColInfo) returns (vals: seq<T>)
    requires WellFormed(t) && t.rowCount > 0 && p.select.ColumnName? && !Copies(p)
    requires ProjectionFits(p, info, SchemaOf(t), Rows(t))
    ensures AreValues(vals, t, p.form)
    ensures forall r :: 0 <= r < |vals| ==>
      Fits(vals[r], info) && ColumnCells(p, SchemaOf(t), Rows(t))[r] == CellOf(vals[r])
  {
    var f := EvalOn(p.form, SchemaOf(t));
    vals := seq(t.rowCount, r requires 0 <= r < t.rowCount => f(RowAt(t, r)));
    forall r | 0 <= r < t.rowCount
      ensures Fits(vals[r], info) && ColumnCells(p, SchemaOf(t), Rows(t))[r] == CellOf(vals[r])
    {
      assert Rows(t)[r] == RowAt(t, r);
      assert ColumnCells(p, SchemaOf(t), Rows(t))[r] == Shown(p, SchemaOf(t))(Rows(t)[r]);
    }
  }

  /** All result columns, each with its own length; the table takes the length of
      the first. */
  ghost predicate Projected(out: TableData, ps: seq<Projection>, alias: seq<string>, infos: seq<ColInfo>,
                            schema: Schema, rows: seq<Row>)
    requires rows != [] && |ps| == |alias| == |infos| && ps != []
  {
    && out.rowCount == Yield(ps[0], |rows|)
    && (forall c :: c in out.columns <==> c in alias)
    && forall k :: 0 <= k < |ps| ==>
      alias[k] in out.columns && ColumnIs(out.columns[alias[k]], infos[k], ColumnCells(ps[k], schema, rows))
  }

  /** `all[k]` are the cells of column `k`. */
  ghost predicate AreCells(all: seq<seq<Cell>>, ps: seq<Projection>, schema: Schema, rows: seq<Row>)
    requires rows != []
  {
    |all| == |ps| && forall k {:trigger ColumnCells(ps[k], schema, rows)} :: 0 <= k < |ps| ==>
      all[k] == ColumnCells(ps[k], schema, rows)
  }

  /** Every projection can be computed on the table, if it has a row. */
  ghost predicate AllProjectionsFit(ps: seq<Projection>, infos: seq<ColInfo>, t: TableData)
    requires WellFormed(t) && |ps| == |infos|
  {
    t.rowCount > 0 ==> forall k :: 0 <= k < |ps| ==> ProjectionFits(ps[k], infos[k], SchemaOf(t), Rows(t))
  }

  /** `Aggregation` of a whole table. */
  method AggregateWhole(t: TableData, ps: seq<Projection>, alias: seq<string>, ghost infos: seq<ColInfo>)
    returns (out: TableData)
    requires WellFormed(t) && |ps| == |alias| == |infos| && ps != [] && DistinctNames(alias)
    requires AllProjectionsFit(ps, infos, t)
    ensures t.rowCount == 0 ==> Bare(out, alias)
    ensures t.rowCount > 0 ==> Projected(out, ps, alias, infos, SchemaOf(t), Rows(t))
  {
    if t.rowCount == 0 {
      out := AggregateNothing(alias, EMPTY_TABLE);
      return;
    }
    ghost var schema, rows := SchemaOf(t), Rows(t);
    ghost var all := seq(|ps|, k requires 0 <= k < |ps| => ColumnCells(ps[k], schema, rows));
    out := ProjectAll(t, ps, alias, infos, all);
    assert alias[..|alias|] == alias;
    forall k | 0 <= k < |ps|
      ensures alias[k] in out.columns && ColumnIs(out.columns[alias[k]], infos[k], ColumnCells(ps[k], schema, rows))
    {
      assert all[k] == ColumnCells(ps[k], schema, rows);
    }
  }

  /** The first `p` result columns are there. */
  ghost predicate ColumnsSoFar(cols: map<string, ColData>, alias: seq<string>, infos: seq<ColInfo>, all: seq<seq<Cell>>,
                               p: nat)
    requires |all| == |alias| == |infos| && p <= |alias|
  {
    && (forall c :: c in cols <==> c in alias[..p])
    && forall k :: 0 <= k < p ==> alias[k] in cols && ColumnIs(cols[alias[k]], infos[k], all[k])
  }

  lemma {:induction false} ColumnsStep(cols: map<string, ColData>, alias: seq<string>, infos: seq<ColInfo>,
                                       all: seq<seq<Cell>>, p: nat, col: ColData)
    requires |all| == |alias| == |infos| && p < |alias| && DistinctNames(alias)
    requires ColumnsSoFar(cols, alias, infos, all, p) && ColumnIs(col, infos[p], all[p])
    ensures ColumnsSoFar(cols[alias[p] := col], alias, infos, all, p + 1)
  {
    assert alias[..p + 1] == alias[..p] + [alias[p]];
  }

  /** The loop over the projections. */
  method ProjectAll(t: TableData, ps: seq<Projection>, alias: seq<string>, ghost infos: seq<ColInfo>,
                    ghost all: seq<seq<Cell>>)
    returns (out: TableData)
    requires WellFormed(t) && t.rowCount > 0 && AreCells(all, ps, SchemaOf(t), Rows(t))
    requires |ps| == |alias| == |infos| && ps != [] && DistinctNames(alias)
    requires forall k :: 0 <= k < |ps| ==> ProjectionFits(ps[k], infos[k], SchemaOf(t), Rows(t))
    ensures out.rowCount == |all[0]| && ColumnsSoFar(out.columns, alias, infos, all, |alias|)
  {
    var cols: map<string, ColData> := map[];
    var resultRows := 0;
    for p := 0 to |ps|
      invariant p > 0 ==> resultRows == |all[0]|
      invariant ColumnsSoFar(cols, alias, infos, all, p)
    {
      var col := ProjectOne(t, ps, p, infos[p], all);
      ColumnsStep(cols, alias, infos, all, p, col);
      cols := cols[alias[p] := col];
      if p == 0 {
        resultRows := col.rowCount;
      }
    }
    out := TableData(cols, resultRows);
  }

  method ProjectOne(t: TableData, ps: seq<Projection>, k: nat, ghost info: ColInfo, ghost all: seq<seq<Cell>>)
    returns (col: ColData)
    requires WellFormed(t) && t.rowCount > 0 && k < |ps| && AreCells(all, ps, SchemaOf(t), Rows(t))
    requires ProjectionFits(ps[k], info, SchemaOf(t), Rows(t))
    ensures ColumnIs(col, info, all[k]) && col.rowCount == |all[k]|
  {
    col := ProjectColumn(t, ps[k], info);
    assert all[k] == ColumnCells(ps[k], SchemaOf(t), Rows(t));
  }

  // ------------------------------------------------------- when it is a table

  /** Mixing plain columns with aggregates gives columns of different lengths: the
      result is a table exactly if all projections yield equally many rows. */
  lemma {:induction false} WellFormedIff(out: TableData, ps: seq<Projection>, alias: seq<string>, infos: seq<ColInfo>,
                                         schema: Schema, rows: seq<Row>)
    requires rows != [] && |ps| == |alias| == |infos| && ps != []
    requires Projected(out, ps, alias, infos, schema, rows)
    ensures WellFormed(out) <==> forall k :: 0 <= k < |ps| ==> Yield(ps[k], |rows|) == Yield(ps[0], |rows|)
  {
    forall k | 0 <= k < |ps|
      ensures Aligned(out.columns[alias[k]], out.rowCount) <==> Yield(ps[k], |rows|) == Yield(ps[0], |rows|)
    {
      assert ColumnIs(out.columns[alias[k]], infos[k], ColumnCells(ps[k], schema, rows));
    }
    if WellFormed(out) {
      forall k | 0 <= k < |ps| ensures Yield(ps[k], |rows|) == Yield(ps[0], |rows|) {
        assert alias[k] in out.columns;
      }
    } else {
      var c :| c in out.columns && !(Storable(out.columns[c].colType) && Aligned(out.columns[c], out.rowCount));
      var k :| 0 <= k < |alias| && alias[k] == c;
    }
  }

  /** The cells that all projections show in result row `r`. */
  function ResultCells(ps: seq<Projection>, schema: Schema, rows: seq<Row>, r: nat): (cells: seq<Cell>)
    requires rows != [] && forall k :: 0 <= k < |ps| ==> r < Yield(ps[k], |rows|)
    ensures |cells| == |ps|
  {
    seq(|ps|, k requires 0 <= k < |ps| => ColumnCells(ps[k], schema, rows)[r])
  }

  lemma {:induction false} ProjectedCell(out: TableData, ps: seq<Projection>, alias: seq<string>, infos: seq<ColInfo>,
                                         schema: Schema, rows: seq<Row>, r: nat, k: nat)
    requires rows != [] && |ps| == |alias| == |infos| && k < |ps|
    requires Projected(out, ps, alias, infos, schema, rows) && WellFormed(out) && r < out.rowCount
    ensures r < Yield(ps[k], |rows|)
    ensures alias[k] in out.columns && RowAt(out, r)[alias[k]] == ColumnCells(ps[k], schema, rows)[r]
  {
    assert ColumnIs(out.columns[alias[k]], infos[k], ColumnCells(ps[k], schema, rows));
  }

  /** A row is told by its names and its cells. */
  lemma {:induction false} NamedRowIs(row: Row, alias: seq<string>, cells: seq<Cell>)
    requires |alias| == |cells| && DistinctNames(alias) && forall c :: c in row <==> c in alias
    requires forall k :: 0 <= k < |alias| ==> row[alias[k]] == cells[k]
    ensures row == NamedCells(alias, cells)
  {
    var want := NamedCells(alias, cells);
    CellNames(alias, cells);
    assert row.Keys == want.Keys;
    forall c | c in row ensures row[c] == want[c] {
      var k :| 0 <= k < |alias| && alias[k] == c;
      NamedCellAt(alias, cells, k);
    }
  }

  /** Then row `r` of the result has cell `r` of every projection under its alias. */
  lemma {:induction false} ProjectedRow(out: TableData, ps: seq<Projection>, alias: seq<string>, infos: seq<ColInfo>,
                                        schema: Schema, rows: seq<Row>, r: nat)
    requires rows != [] && |ps| == |alias| == |infos| && ps != [] && DistinctNames(alias)
    requires Projected(out, ps, alias, infos, schema, rows) && WellFormed(out) && r < out.rowCount
    ensures forall k :: 0 <= k < |ps| ==> r < Yield(ps[k], |rows|)
    ensures Rows(out)[r] == NamedCells(alias, ResultCells(ps, schema, rows, r))
  {
    forall k | 0 <= k < |ps|
      ensures r < Yield(ps[k], |rows|) && RowAt(out, r)[alias[k]] == ColumnCells(ps[k], schema, rows)[r]
    {
      ProjectedCell(out, ps, alias, infos, schema, rows, r, k);
    }
    NamedRowIs(RowAt(out, r), alias, ResultCells(ps, schema, rows, r));
  }

  /** Aggregates only: the one result row of the table taken as a single group. */
  lemma {:induction false} WholeIsOneGroup(out: TableData, ps: seq<Projection>, alias: seq<string>, infos: seq<ColInfo>,
                                           schema: Schema, rows: seq<Row>)
    requires rows != [] && |ps| == |alias| == |infos| && ps != [] && DistinctNames(alias)
    requires Projected(out, ps, alias, infos, schema, rows)
    requires forall k :: 0 <= k < |ps| ==> !ps[k].select.ColumnName?
    ensures WellFormed(out) && Rows(out) == [AggRow(ps, alias, schema, rows)]
  {
    WellFormedIff(out, ps, alias, infos, schema, rows);
    ProjectedRow(out, ps, alias, infos, schema, rows, 0);
    assert ResultCells(ps, schema, rows, 0) == AggCells(ps, schema, rows);
  }
}
