/** Aggregation of one group into one result row. */
module Aggregates {
  import opened Tables
  import opened Filters
  import opened Expressions
  import opened Projections
  import Rounding
  import opened Grouping
  import opened Permutations

  datatype SelectType = ColumnName | SumOf | AvgOf | Count | CountStar | DistinctCount | MinOfAll | MaxOfAll

  datatype Projection = Projection(select: SelectType, form: Formula)

  // ---------------------------------------------------------- specification

  /** The expression of a projection on one row, as a function value. */
  function EvalOn(form: Formula, schema: Schema): Row -> T {
    (row: Row) => match Compute(form, schema, row) case Done(t) => t case Fault => EMPTY_T
  }

  function Max(a: int, b: int): (m: int)
    ensures m >= a && m >= b && (m == a || m == b)
  {
    if a > b then a else b
  }

  /** SUM: one accumulator record; integers and floats are added in their own
      fields, and the result has the type of the last row. */
  function SumT(rows: seq<Row>, f: Row -> T): T {
    if rows == [] then EMPTY_T
    else
      var acc, x := SumT(rows[..|rows| - 1], f), f(rows[|rows| - 1]);
      if x.vtype.TypeInt? then acc.(varInt := acc.varInt + x.varInt, vtype := x.vtype)
      else if x.vtype.TypeFloat? then
        acc.(varFloat := acc.varFloat + x.varFloat, realSize := Max(acc.realSize, x.realSize), vtype := x.vtype)
      else acc.(vtype := x.vtype)
  }

  /** MIN: starts from the first row, compares in the field of its type. */
  function MinT(rows: seq<Row>, f: Row -> T): T
    requires rows != []
  {
    var x := f(rows[|rows| - 1]);
    if |rows| == 1 then x else Lesser(MinT(rows[..|rows| - 1], f), x)
  }

  function Lesser(m: T, x: T): T {
    match m.vtype
    case TypeInt => if m.varInt < x.varInt then m else m.(varInt := x.varInt)
    case TypeFloat => if m.varFloat < x.varFloat then m else m.(varFloat := x.varFloat)
    case TypeString => if StrLess(m.varString, x.varString) then m else m.(varString := x.varString)
    case _ => m
  }

  /** MAX: starts from the number of the first row, without its scale. */
  function MaxT(rows: seq<Row>, f: Row -> T): T
    requires rows != []
  {
    var x := f(rows[|rows| - 1]);
    if |rows| == 1 then MaxStart(x) else Greater(MaxT(rows[..|rows| - 1], f), x)
  }

  function Greater(m: T, x: T): T {
    match m.vtype
    case TypeInt => if m.varInt > x.varInt then m else m.(varInt := x.varInt)
    case TypeFloat => if m.varFloat > x.varFloat then m else m.(varFloat := x.varFloat)
    case _ => m
  }

  function MaxStart(x: T): T {
    match x.vtype
    case TypeInt => EMPTY_T.(varInt := x.varInt, vtype := TypeInt)
    case TypeFloat => EMPTY_T.(varFloat := x.varFloat, vtype := TypeFloat)
    case _ => EMPTY_T
  }

  /** AVG: the sum over the row count, by integer division for integers, rounded to a
      32-bit float. */
  function AvgT(rows: seq<Row>, f: Row -> T): T
    requires rows != []
  {
    Average(SumT(rows, f), |rows|)
  }

  function Average(s: T, n: nat): T
    requires n > 0
  {
    var q := if s.vtype.TypeInt? then TruncDiv(s.varInt, n) as real else s.varFloat / n as real;
    EMPTY_T.(vtype := TypeFloat, realSize := 6, varFloat := Rounding.ToFloat32(q))
  }

  /** The values that COUNT DISTINCT tells apart: those of all rows, integers
      narrowed to 32 bits; dates have no case. */
  function Told(rows: seq<Row>, c: string): set<Value> {
    set k | 0 <= k < |rows| && !Get(rows[k], c).Date? :: Narrow(Get(rows[k], c))
  }

  function NotNull(c: string): Row -> int {
    (row: Row) => if c in row && !row[c].isnull then 1 else 0
  }

  /** The first token of the projection is a column. */
  predicate CountsColumn(p: Projection) {
    p.form.Terms? && p.form.tokens != [] && p.form.tokens[0].Column?
  }

  function CountedColumn(p: Projection): string {
    if CountsColumn(p) then p.form.tokens[0].name else ""
  }

  /** The value a projection yields for a group. */
  function AggT(p: Projection, schema: Schema, rows: seq<Row>): T
    requires rows != []
  {
    match p.select
    case ColumnName => EvalOn(p.form, schema)(rows[0])
    case SumOf => SumT(rows, EvalOn(p.form, schema))
    case AvgOf => AvgT(rows, EvalOn(p.form, schema))
    case Count => EMPTY_T.(varInt := Sum(rows, NotNull(CountedColumn(p))), vtype := TypeInt)
    case CountStar => EMPTY_T.(varInt := |rows|, vtype := TypeInt)
    case DistinctCount => EMPTY_T.(varInt := |Told(rows, CountedColumn(p))|, vtype := TypeInt)
    case MinOfAll => MinT(rows, EvalOn(p.form, schema))
    case MaxOfAll => MaxT(rows, EvalOn(p.form, schema))
  }

  /** What is counted, and what a plain column shows: of the first row of the group. */
  lemma {:induction false} CountsMean(p: Projection, schema: Schema, rows: seq<Row>)
    requires rows != []
    ensures p.select.CountStar? ==> AggT(p, schema, rows).varInt == |rows|
    ensures p.select.DistinctCount? ==> AggT(p, schema, rows).varInt == |Told(rows, CountedColumn(p))|
    ensures p.select.ColumnName? && Compute(p.form, schema, rows[0]).Done? ==>
      AggT(p, schema, rows) == Compute(p.form, schema, rows[0]).t
  {
  }

  function CellOf(t: T): Cell {
    Cell(match t.vtype
         case TypeString => Str(t.varString)
         case TypeInt => Int(t.varInt)
         case TypeDate => Date(t.varInt)
         case TypeFloat => Float(t.varFloat)
         case _ => NoValue,
         false)
  }

  function AggCells(ps: seq<Projection>, schema: Schema, rows: seq<Row>): (cells: seq<Cell>)
    requires rows != []
    ensures |cells| == |ps|
  {
    seq(|ps|, k requires 0 <= k < |ps| => CellOf(AggT(ps[k], schema, rows)))
  }

  function NamedCells(alias: seq<string>, cells: seq<Cell>): Row
    requires |alias| == |cells|
  {
    if cells == [] then map[]
    else NamedCells(alias[..|cells| - 1], cells[..|cells| - 1])[alias[|cells| - 1] := cells[|cells| - 1]]
  }

  /** The result row of a group: the projections' values under their aliases. */
  function AggRow(ps: seq<Projection>, alias: seq<string>, schema: Schema, rows: seq<Row>): Row
    requires rows != [] && |ps| == |alias|
  {
    NamedCells(alias, AggCells(ps, schema, rows))
  }

  ghost predicate DistinctNames(alias: seq<string>) {
    forall i, j :: 0 <= i < j < |alias| ==> alias[i] != alias[j]
  }

  lemma {:induction false} NamedCellAt(alias: seq<string>, cells: seq<Cell>, k: nat)
    requires k < |alias| == |cells| && DistinctNames(alias)
    ensures alias[k] in NamedCells(alias, cells) && NamedCells(alias, cells)[alias[k]] == cells[k]
  {
    var n := |cells| - 1;
    if k < n {
      NamedCellAt(alias[..n], cells[..n], k);
    }
  }

  lemma {:induction false} CellNames(alias: seq<string>, cells: seq<Cell>)
    requires |alias| == |cells|
    ensures forall c :: c in NamedCells(alias, cells) <==> c in alias
  {
    if cells != [] {
      CellNames(alias[..|cells| - 1], cells[..|cells| - 1]);
    }
  }

  lemma {:induction false} AggRowCell(ps: seq<Projection>, alias: seq<string>, schema: Schema, rows: seq<Row>, k: nat)
    requires rows != [] && k < |ps| == |alias| && DistinctNames(alias)
    ensures alias[k] in AggRow(ps, alias, schema, rows)
    ensures AggRow(ps, alias, schema, rows)[alias[k]] == CellOf(AggT(ps[k], schema, rows))
  {
    NamedCellAt(alias, AggCells(ps, schema, rows), k);
  }

  lemma {:induction false} EvalColumn(c: string, schema: Schema, row: Row)
    ensures EvalOn(Terms([Column(c)]), schema)(row) == LoadValue(Get(row, c), ScaleOf(schema, c))
  {
    assert [Column(c)][..0] == [];
    assert Expressions.Run(Stack([]), [Column(c)], schema, row) == Stack([LoadValue(Get(row, c), ScaleOf(schema, c))]);
  }

  // ------------------------------------------------------------ preconditions

  ghost predicate NumberAt(p: Projection, schema: Schema, row: Row) {
    && Compute(p.form, schema, row).Done?
    && (Compute(p.form, schema, row).t.vtype.TypeInt? || Compute(p.form, schema, row).t.vtype.TypeFloat?)
  }

  /** The projection can be computed on the group: no row faults, and the switch
      over the value type has a case. */
  ghost predicate Computable(p: Projection, schema: Schema, rows: seq<Row>) {
    match p.select
    case CountStar => true
    case Count => CountsColumn(p) && CountedColumn(p) in schema
    case DistinctCount => CountsColumn(p) && CountedColumn(p) in schema
    case ColumnName => rows != [] && Compute(p.form, schema, rows[0]).Done?
    case SumOf => forall r :: 0 <= r < |rows| ==> NumberAt(p, schema, rows[r])
    case AvgOf => forall r :: 0 <= r < |rows| ==> NumberAt(p, schema, rows[r])
    case MinOfAll => forall r :: 0 <= r < |rows| ==> Compute(p.form, schema, rows[r]).Done?
    case MaxOfAll => forall r :: 0 <= r < |rows| ==> NumberAt(p, schema, rows[r])
  }

  /** The result fits the column announced for it. */
  ghost predicate Fits(t: T, info: ColInfo) {
    && t.vtype == info.colType && Storable(t.vtype)
    && (t.vtype.TypeFloat? ==> t.realSize == info.realSize && 0 <= t.realSize)
  }

  ghost predicate GroupFits(ps: seq<Projection>, infos: seq<ColInfo>, schema: Schema, rows: seq<Row>) {
    && rows != [] && |infos| == |ps|
    && forall k :: 0 <= k < |ps| ==>
         Computable(ps[k], schema, rows) && Fits(AggT(ps[k], schema, rows), infos[k])
         && (ps[k].select.MinOfAll? ==> !infos[k].colType.TypeDate?)
  }

  function ResultSchema(alias: seq<string>, infos: seq<ColInfo>, n: nat): Schema
    requires n <= |alias| && n <= |infos|
  {
    if n == 0 then map[] else ResultSchema(alias, infos, n - 1)[alias[n - 1] := infos[n - 1]]
  }

  lemma {:induction false} ResultSchemaAt(alias: seq<string>, infos: seq<ColInfo>, n: nat, k: nat)
    requires k < n <= |alias| && n <= |infos| && DistinctNames(alias)
    ensures alias[k] in ResultSchema(alias, infos, n) && ResultSchema(alias, infos, n)[alias[k]] == infos[k]
  {
    if k < n - 1 {
      ResultSchemaAt(alias, infos, n - 1, k);
    }
  }

  // -------------------------------------------------------------- the methods

  method EvalRow(t: TableData, form: Formula, r: nat) returns (v: T)
    requires WellFormed(t) && r < t.rowCount
    ensures v == EvalOn(form, SchemaOf(t))(RowAt(t, r))
  {
    var out := Project(t, form, r);
    v := match out case Done(x) => x case Fault => EMPTY_T;
  }

  method SumRows(t: TableData, form: Formula) returns (acc: T)
    requires WellFormed(t)
    ensures acc == SumT(Rows(t), EvalOn(form, SchemaOf(t)))
  {
    acc := EMPTY_T;
    ghost var rows, f := Rows(t), EvalOn(form, SchemaOf(t));
    for r := 0 to t.rowCount
      invariant acc == SumT(rows[..r], f)
    {
      var x := EvalRow(t, form, r);
      assert rows[..r + 1][..r] == rows[..r];
      if x.vtype.TypeInt? {
        acc := acc.(varInt := acc.varInt + x.varInt);
      } else if x.vtype.TypeFloat? {
        acc := acc.(varFloat := acc.varFloat + x.varFloat);
        acc := acc.(realSize := Max(acc.realSize, x.realSize));
      }
      acc := acc.(vtype := x.vtype);
    }
    assert rows[..t.rowCount] == rows;
  }

  method MinRows(t: TableData, form: Formula) returns (m: T)
    requires WellFormed(t) && t.rowCount > 0
    ensures m == MinT(Rows(t), EvalOn(form, SchemaOf(t)))
  {
    m := EvalRow(t, form, 0);
    ghost var rows, f := Rows(t), EvalOn(form, SchemaOf(t));
    for r := 1 to t.rowCount
      invariant m == MinT(rows[..r], f)
    {
      var x := EvalRow(t, form, r);
      assert rows[..r + 1][..r] == rows[..r];
      m := Lesser(m, x);
    }
    assert rows[..t.rowCount] == rows;
  }

  method MaxRows(t: TableData, form: Formula) returns (m: T)
    requires WellFormed(t) && t.rowCount > 0
    ensures m == MaxT(Rows(t), EvalOn(form, SchemaOf(t)))
  {
    ghost var rows, f := Rows(t), EvalOn(form, SchemaOf(t));
    var x := EvalRow(t, form, 0);
    m := MaxStart(x);
    for r := 1 to t.rowCount
      invariant m == MaxT(rows[..r], f)
    {
      x := EvalRow(t, form, r);
      assert rows[..r + 1][..r] == rows[..r];
      m := Greater(m, x);
    }
    assert rows[..t.rowCount] == rows;
  }

  /** The value set of a column. */
  method TellApart(t: TableData, c: string) returns (seen: set<Value>)
    requires WellFormed(t) && c in t.columns
    ensures seen == Told(Rows(t), c)
  {
    seen := {};
    ghost var rows := Rows(t);
    var col := t.columns[c];
    if col.colType.TypeDate? {
      return;
    }
    for r := 0 to t.rowCount
      invariant seen == Told(rows[..r], c)
    {
      assert Get(rows[r], c) == ValueAt(col, r);
      ToldStep(rows, c, r);
      seen := seen + {Narrow(ValueAt(col, r))};
    }
    assert rows[..t.rowCount] == rows;
  }

  lemma {:induction false} ToldStep(rows: seq<Row>, c: string, r: nat)
    requires r < |rows| && !Get(rows[r], c).Date?
    ensures Told(rows[..r + 1], c) == Told(rows[..r], c) + {Narrow(Get(rows[r], c))}
  {
    var more, less := rows[..r + 1], rows[..r];
    forall v | v in Told(more, c) ensures v in Told(less, c) + {Narrow(Get(rows[r], c))} {
      var k :| 0 <= k < |more| && !Get(more[k], c).Date? && Narrow(Get(more[k], c)) == v;
      if k < r {
        assert less[k] == more[k];
      }
    }
    forall v | v in Told(less, c) ensures v in Told(more, c) {
      var k :| 0 <= k < |less| && !Get(less[k], c).Date? && Narrow(Get(less[k], c)) == v;
      assert more[k] == less[k];
    }
    assert more[r] == rows[r];
  }

  method CountRows(t: TableData, c: string) returns (n: int)
    requires WellFormed(t) && c in t.columns
    ensures n == Sum(Rows(t), NotNull(c))
  {
    n := 0;
    ghost var rows := Rows(t);
    var flags := t.columns[c].isnull;
    for r := 0 to t.rowCount
      invariant n == Sum(rows[..r], NotNull(c))
    {
      assert rows[..r + 1][..r] == rows[..r];
      assert rows[r][c].isnull == flags[r];
      if !flags[r] {
        n := n + 1;
      }
    }
    assert rows[..t.rowCount] == rows;
  }

  /** No rows, and columns without a type under the aliases. */
  ghost predicate Bare(t: TableData, alias: seq<string>) {
    t.rowCount == 0 && t.columns == map c | c in alias :: EMPTY_COLUMN
  }

  /** `Aggregation` of an empty table. */
  method AggregateNothing(alias: seq<string>, dest: TableData) returns (out: TableData)
    requires dest == EMPTY_TABLE
    ensures Bare(out, alias)
  {
    var cols := dest.columns;
    for a := 0 to |alias|
      invariant cols == map c | c in alias[..a] :: EMPTY_COLUMN
    {
      assert alias[..a + 1] == alias[..a] + [alias[a]];
      if alias[a] !in cols {
        cols := cols[alias[a] := EMPTY_COLUMN];
      }
    }
    assert alias[..|alias|] == alias;
    out := TableData(cols, 0);
  }

  /** One projection on one group: the switch over the select type. */
  method Select(t: TableData, p: Projection) returns (v: T)
    requires WellFormed(t) && t.rowCount > 0
    requires Computable(p, SchemaOf(t), Rows(t))
    ensures v == AggT(p, SchemaOf(t), Rows(t))
  {
    match p.select
    case ColumnName => v := EvalRow(t, p.form, 0);
    case SumOf => v := SumRows(t, p.form);
    case AvgOf =>
      var acc := SumRows(t, p.form);
      v := Quotient(acc, t.rowCount);
    case Count =>
      var n := CountRows(t, p.form.tokens[0].name);
      v := EMPTY_T.(varInt := n, vtype := TypeInt);
    case CountStar => v := EMPTY_T.(varInt := t.rowCount, vtype := TypeInt);
    case DistinctCount =>
      var seen := TellApart(t, p.form.tokens[0].name);
      v := EMPTY_T.(varInt := |seen|, vtype := TypeInt);
    case MinOfAll => v := MinRows(t, p.form);
    case MaxOfAll => v := MaxRows(t, p.form);
  }

  /** The division of AVG. */
  method Quotient(acc: T, n: nat) returns (v: T)
    requires n > 0
    ensures v == Average(acc, n)
  {
    var avg := 0.0;
    if acc.vtype.TypeInt? {
      avg := Rounding.ToFloat32(TruncDiv(acc.varInt, n) as real);
    } else {
      avg := Rounding.ToFloat32(acc.varFloat / n as real);
    }
    v := EMPTY_T.(varFloat := avg, vtype := TypeFloat, realSize := 6);
  }

  /** The one-row result column appended to the destination column. */
  method AppendResult(col: ColData, v: T) returns (out: ColData)
    requires Storable(v.vtype) && (v.vtype.TypeFloat? ==> 0 <= v.realSize)
    ensures out == PushTyped(col, ColInfo(v.vtype, v.realSize), CellOf(v)).(colType := v.vtype)
  {
    out := col;
    match v.vtype {
      case TypeInt => out := out.(intvec := out.intvec + [v.varInt]);
      case TypeDate => out := out.(intvec := out.intvec + [v.varInt]);
      case TypeFloat =>
        out := out.(floatvec := out.floatvec + [v.varFloat]);
        out := out.(realSize := Max(0, v.realSize));
      case TypeString => out := out.(strvec := out.strvec + [v.varString]);
      case _ =>
    }
    out := out.(isnull := out.isnull + [false]);
    out := out.(rowCount := out.rowCount + 1);
    out := out.(colType := v.vtype);
  }

  /** The result table so far: no columns before the first group. */
  ghost predicate ResultHolds(dest: TableData, schema: Schema, rows: seq<Row>) {
    if rows == [] then dest == EMPTY_TABLE else Represents(dest, schema, rows)
  }

  /** A result column before its next value: absent, or holding the rows so far. */
  ghost predicate ColumnReady(cols: map<string, ColData>, info: ColInfo, rows: seq<Row>, c: string) {
    if c in cols then HoldsColumn(cols[c], info, rows, c) else rows == []
  }

  lemma {:induction false} AppendHolds(cols: map<string, ColData>, info: ColInfo, rows: seq<Row>, c: string, v: T,
                                       row: Row)
    requires ColumnReady(cols, info, rows, c) && Fits(v, info)
    requires c in row && row[c] == CellOf(v)
    ensures HoldsColumn(PushTyped(ColumnOr(cols, c), ColInfo(v.vtype, v.realSize), CellOf(v)).(colType := v.vtype),
                        info, rows + [row], c)
  {
    var typed := ColumnOr(cols, c).(colType := v.vtype);
    assert HoldsColumn(typed, info, rows, c);
    PushTypedHolds(typed, info, rows, c, row);
    var a := PushTyped(ColumnOr(cols, c), ColInfo(v.vtype, v.realSize), CellOf(v)).(colType := v.vtype);
    var b := PushTyped(typed, info, CellOf(v));
    assert v.vtype.TypeFloat? ==> a == b;
    assert !v.vtype.TypeFloat? ==> a == b;
  }

  /** The first `p` result columns have their new value, the others wait for it. */
  ghost predicate PartlyDone(cols: map<string, ColData>, alias: seq<string>, infos: seq<ColInfo>,
                             done: seq<Row>, row: Row, p: nat)
    requires |alias| == |infos| && p <= |alias|
  {
    && (forall c :: c in cols ==> c in alias)
    && (forall k :: 0 <= k < p ==> alias[k] in cols && HoldsColumn(cols[alias[k]], infos[k], done + [row], alias[k]))
    && (forall k :: p <= k < |alias| ==> ColumnReady(cols, infos[k], done, alias[k]))
  }

  lemma {:induction false} SchemaNames(alias: seq<string>, infos: seq<ColInfo>, n: nat)
    requires n <= |alias| && n <= |infos|
    ensures forall c :: c in ResultSchema(alias, infos, n) <==> c in alias[..n]
  {
    if n > 0 {
      SchemaNames(alias, infos, n - 1);
      assert alias[..n] == alias[..n - 1] + [alias[n - 1]];
    }
  }

  lemma {:induction false} RowFitsSchema(ps: seq<Projection>, alias: seq<string>, infos: seq<ColInfo>, schema: Schema,
                                         rows: seq<Row>)
    requires rows != [] && |ps| == |alias| == |infos|
    ensures AggRow(ps, alias, schema, rows).Keys == ResultSchema(alias, infos, |ps|).Keys
  {
    CellNames(alias, AggCells(ps, schema, rows));
    SchemaNames(alias, infos, |ps|);
    assert alias[..|alias|] == alias;
  }

  lemma {:induction false} PartlyStart(dest: TableData, alias: seq<string>, infos: seq<ColInfo>, done: seq<Row>,
                                       row: Row)
    requires |alias| == |infos| && DistinctNames(alias)
    requires ResultHolds(dest, ResultSchema(alias, infos, |alias|), done)
    ensures PartlyDone(dest.columns, alias, infos, done, row, 0)
  {
    var schema := ResultSchema(alias, infos, |alias|);
    SchemaNames(alias, infos, |alias|);
    assert alias[..|alias|] == alias;
    forall k | 0 <= k < |alias| ensures ColumnReady(dest.columns, infos[k], done, alias[k]) {
      ResultSchemaAt(alias, infos, |alias|, k);
      assert done != [] ==> HoldsColumn(dest.columns[alias[k]], schema[alias[k]], done, alias[k]);
    }
  }

  lemma {:induction false} PartlyStep(cols: map<string, ColData>, alias: seq<string>, infos: seq<ColInfo>,
                                      done: seq<Row>, row: Row, p: nat, col: ColData)
    requires |alias| == |infos| && p < |alias| && DistinctNames(alias)
    requires PartlyDone(cols, alias, infos, done, row, p)
    requires HoldsColumn(col, infos[p], done + [row], alias[p])
    ensures PartlyDone(cols[alias[p] := col], alias, infos, done, row, p + 1)
  {
  }

  lemma {:induction false} PartlyEnd(cols: map<string, ColData>, alias: seq<string>, infos: seq<ColInfo>,
                                     done: seq<Row>, row: Row, n: int)
    requires |alias| == |infos| && DistinctNames(alias) && n == |done| + 1
    requires PartlyDone(cols, alias, infos, done, row, |alias|)
    requires HaveKeys(done + [row], ResultSchema(alias, infos, |alias|).Keys)
    ensures Represents(TableData(cols, n), ResultSchema(alias, infos, |alias|), done + [row])
  {
    var schema := ResultSchema(alias, infos, |alias|);
    SchemaNames(alias, infos, |alias|);
    assert alias[..|alias|] == alias;
    forall c | c in schema ensures c in cols && HoldsColumn(cols[c], schema[c], done + [row], c) {
      var k :| 0 <= k < |alias| && alias[k] == c;
      ResultSchemaAt(alias, infos, |alias|, k);
    }
    assert cols.Keys == schema.Keys;
  }

  /** One result column: select, append. */
  method AggregateColumn(t: TableData, p: Projection, c: string, ghost info: ColInfo,
                         cols: map<string, ColData>, ghost done: seq<Row>, ghost row: Row) returns (col: ColData)
    requires WellFormed(t) && t.rowCount > 0
    requires Computable(p, SchemaOf(t), Rows(t)) && Fits(AggT(p, SchemaOf(t), Rows(t)), info)
    requires ColumnReady(cols, info, done, c)
    requires c in row && row[c] == CellOf(AggT(p, SchemaOf(t), Rows(t)))
    ensures HoldsColumn(col, info, done + [row], c)
  {
    var v := Select(t, p);
    col := AppendResult(ColumnOr(cols, c), v);
    AppendHolds(cols, info, done, c, v, row);
  }

  /** The result table so far is well-formed: empty, or holding its rows. */
  lemma {:induction false} ResultIsWellFormed(dest: TableData, schema: Schema, rows: seq<Row>)
    requires ResultHolds(dest, schema, rows)
    ensures WellFormed(dest) && Rows(dest) == rows
  {
    if rows != [] {
      RepresentsRows(dest, schema, rows);
    }
  }

  /** `Aggregation` of one non-empty group: one more result row. */
  method Aggregate(t: TableData, ps: seq<Projection>, alias: seq<string>, ghost infos: seq<ColInfo>, dest: TableData)
    returns (out: TableData)
    requires WellFormed(t) && t.rowCount > 0
    requires |alias| == |ps| && ps != [] && DistinctNames(alias)
    requires GroupFits(ps, infos, SchemaOf(t), Rows(t))
    requires WellFormed(dest) && ResultHolds(dest, ResultSchema(alias, infos, |ps|), Rows(dest))
    ensures ResultHolds(out, ResultSchema(alias, infos, |ps|), Rows(dest) + [AggRow(ps, alias, SchemaOf(t), Rows(t))])
    ensures WellFormed(out) && Rows(out) == Rows(dest) + [AggRow(ps, alias, SchemaOf(t), Rows(t))]
  {
    ghost var row, done := AggRow(ps, alias, SchemaOf(t), Rows(t)), Rows(dest);
    var cols := AggregateColumns(t, ps, alias, infos, dest, done, row);
    out := TableData(cols, dest.rowCount + 1);
    RowFitsSchema(ps, alias, infos, SchemaOf(t), Rows(t));
    PartlyEnd(cols, alias, infos, done, row, dest.rowCount + 1);
    ResultIsWellFormed(out, ResultSchema(alias, infos, |ps|), done + [row]);
  }

  /** The loop over the projections. */
  method AggregateColumns(t: TableData, ps: seq<Projection>, alias: seq<string>, ghost infos: seq<ColInfo>,
                          dest: TableData, ghost done: seq<Row>, ghost row: Row) returns (cols: map<string, ColData>)
    requires WellFormed(t) && t.rowCount > 0
    requires |alias| == |ps| && DistinctNames(alias)
    requires GroupFits(ps, infos, SchemaOf(t), Rows(t)) && row == AggRow(ps, alias, SchemaOf(t), Rows(t))
    requires ResultHolds(dest, ResultSchema(alias, infos, |ps|), done)
    ensures PartlyDone(cols, alias, infos, done, row, |alias|)
  {
    cols := dest.columns;
    PartlyStart(dest, alias, infos, done, row);
    for p := 0 to |ps|
      invariant PartlyDone(cols, alias, infos, done, row, p)
    {
      AggRowCell(ps, alias, SchemaOf(t), Rows(t), p);
      var col := AggregateColumn(t, ps[p], alias[p], infos[p], cols, done, row);
      PartlyStep(cols, alias, infos, done, row, p, col);
      cols := cols[alias[p] := col];
    }
  }

  // ------------------------------------------------- only float scales matter

  lemma {:induction false} SumSame(rows: seq<Row>, f: Row -> T, g: Row -> T)
    requires forall r :: 0 <= r < |rows| ==> f(rows[r]) == g(rows[r])
    ensures SumT(rows, f) == SumT(rows, g)
  {
    if rows != [] {
      SumSame(rows[..|rows| - 1], f, g);
    }
  }

  lemma {:induction false} MinSame(rows: seq<Row>, f: Row -> T, g: Row -> T)
    requires rows != []
    requires forall r :: 0 <= r < |rows| ==> f(rows[r]) == g(rows[r])
    ensures MinT(rows, f) == MinT(rows, g)
  {
    if |rows| > 1 {
      MinSame(rows[..|rows| - 1], f, g);
    }
  }

  lemma {:induction false} MaxSame(rows: seq<Row>, f: Row -> T, g: Row -> T)
    requires rows != []
    requires forall r :: 0 <= r < |rows| ==> f(rows[r]) == g(rows[r])
    ensures MaxT(rows, f) == MaxT(rows, g)
  {
    if |rows| > 1 {
      MaxSame(rows[..|rows| - 1], f, g);
    }
  }

  lemma {:induction false} AggSame(p: Projection, s: Schema, u: Schema, rows: seq<Row>)
    requires rows != []
    requires forall r :: 0 <= r < |rows| ==> SameScales(s, u, rows[r])
    ensures AggT(p, s, rows) == AggT(p, u, rows)
  {
    var f, g := EvalOn(p.form, s), EvalOn(p.form, u);
    forall r | 0 <= r < |rows| ensures f(rows[r]) == g(rows[r]) {
      ComputeSame(p.form, s, u, rows[r]);
    }
    match p.select
    case SumOf => SumSame(rows, f, g);
    case AvgOf => SumSame(rows, f, g);
    case MinOfAll => MinSame(rows, f, g);
    case MaxOfAll => MaxSame(rows, f, g);
    case _ =>
  }

  lemma {:induction false} ComputableSame(p: Projection, s: Schema, u: Schema, rows: seq<Row>)
    requires forall r :: 0 <= r < |rows| ==> SameScales(s, u, rows[r])
    requires s.Keys == u.Keys
    ensures Computable(p, s, rows) <==> Computable(p, u, rows)
  {
    forall r | 0 <= r < |rows| ensures Compute(p.form, s, rows[r]) == Compute(p.form, u, rows[r]) {
      ComputeSame(p.form, s, u, rows[r]);
    }
  }

  lemma {:induction false} AggRowSame(ps: seq<Projection>, alias: seq<string>, s: Schema, u: Schema, rows: seq<Row>)
    requires rows != [] && |ps| == |alias|
    requires forall r :: 0 <= r < |rows| ==> SameScales(s, u, rows[r])
    requires s.Keys == u.Keys
    ensures AggRow(ps, alias, s, rows) == AggRow(ps, alias, u, rows)
  {
    forall k | 0 <= k < |ps| ensures AggCells(ps, s, rows)[k] == AggCells(ps, u, rows)[k] {
      AggSame(ps[k], s, u, rows);
    }
    assert AggCells(ps, s, rows) == AggCells(ps, u, rows);
  }

  lemma {:induction false} GroupFitsSame(ps: seq<Projection>, infos: seq<ColInfo>, s: Schema, u: Schema, rows: seq<Row>)
    requires GroupFits(ps, infos, s, rows)
    requires forall r :: 0 <= r < |rows| ==> SameScales(s, u, rows[r])
    requires s.Keys == u.Keys
    ensures GroupFits(ps, infos, u, rows)
  {
    forall k | 0 <= k < |ps|
      ensures Computable(ps[k], u, rows) && Fits(AggT(ps[k], u, rows), infos[k])
    {
      AggSame(ps[k], s, u, rows);
      ComputableSame(ps[k], s, u, rows);
    }
  }

  lemma {:induction false} RepresentedScales(t: TableData, schema: Schema, rows: seq<Row>, r: nat)
    requires Represents(t, schema, rows) && r < |rows|
    ensures SameScales(schema, SchemaOf(t), rows[r])
    ensures SchemaOf(t).Keys == schema.Keys
  {
    forall c | c in rows[r] && rows[r][c].value.Float? ensures ScaleOf(schema, c) == ScaleOf(SchemaOf(t), c) {
      assert HoldsColumn(t.columns[c], schema[c], rows, c);
      assert CellAt(t.columns[c], r) == rows[r][c];
    }
  }

  // ----------------------------------------------- integers, in any row order

  /** The integer a projection reads from a row. */
  function IntOn(form: Formula, schema: Schema): Row -> int {
    (row: Row) => EvalOn(form, schema)(row).varInt
  }

  ghost predicate AllInt(rows: seq<Row>, f: Row -> T) {
    forall r :: 0 <= r < |rows| ==>
      f(rows[r]).vtype.TypeInt? && f(rows[r]) == EMPTY_T.(varInt := f(rows[r]).varInt, vtype := TypeInt)
  }

  lemma {:induction false} SumOfInts(rows: seq<Row>, f: Row -> T, val: Row -> int)
    requires AllInt(rows, f)
    requires forall r :: 0 <= r < |rows| ==> val(rows[r]) == f(rows[r]).varInt
    ensures rows != [] ==> SumT(rows, f) == EMPTY_T.(varInt := Sum(rows, val), vtype := TypeInt)
  {
    if |rows| > 1 {
      SumOfInts(rows[..|rows| - 1], f, val);
    } else if |rows| == 1 {
      assert rows[..0] == [];
      assert Sum(rows[..0], val) == 0;
    }
  }

  lemma {:induction false} MinOfInts(rows: seq<Row>, f: Row -> T, val: Row -> int)
    requires rows != [] && AllInt(rows, f)
    requires forall r :: 0 <= r < |rows| ==> val(rows[r]) == f(rows[r]).varInt
    ensures MinT(rows, f) == EMPTY_T.(varInt := MinOf(rows, val), vtype := TypeInt)
  {
    if |rows| > 1 {
      MinOfInts(rows[..|rows| - 1], f, val);
    }
  }

  function Negative(val: Row -> int): Row -> int {
    (row: Row) => -val(row)
  }

  lemma {:induction false} MaxOfInts(rows: seq<Row>, f: Row -> T, val: Row -> int)
    requires rows != [] && AllInt(rows, f)
    requires forall r :: 0 <= r < |rows| ==> val(rows[r]) == f(rows[r]).varInt
    ensures MaxT(rows, f) == EMPTY_T.(varInt := -MinOf(rows, Negative(val)), vtype := TypeInt)
  {
    if |rows| > 1 {
      MaxOfInts(rows[..|rows| - 1], f, val);
    }
  }

  function Distance(a: int): nat {
    if a < 0 then -a else a
  }

  lemma {:induction false} TruncatesIff(a: int, n: nat)
    requires n > 0
    ensures TruncDiv(a, n) * n == a <==> Distance(a) % n == 0
  {
    var b := Distance(a);
    assert b == n * (b / n) + b % n;
    assert TruncDiv(a, n) == if a < 0 then -(b / n) else b / n;
  }

  /** The average of integers is their mean exactly if the row count divides
      their sum and the mean is a 32-bit float: so always with 24 bits. */
  lemma {:induction false} AvgIsMeanIff(rows: seq<Row>, f: Row -> T, val: Row -> int)
    requires rows != [] && AllInt(rows, f)
    requires forall r :: 0 <= r < |rows| ==> val(rows[r]) == f(rows[r]).varInt
    ensures var mean := Sum(rows, val) as real / |rows| as real;
      AvgT(rows, f).varFloat == mean
      <==> Distance(Sum(rows, val)) % |rows| == 0 && Rounding.ToFloat32(mean) == mean
    ensures Distance(Sum(rows, val)) < |rows| * Rounding.DIGITS ==>
      (AvgT(rows, f).varFloat == Sum(rows, val) as real / |rows| as real
       <==> Distance(Sum(rows, val)) % |rows| == 0)
  {
    SumOfInts(rows, f, val);
    RoundedQuotient(Sum(rows, val), |rows|, TruncDiv(Sum(rows, val), |rows|), Sum(rows, val) as real / |rows| as real);
  }

  lemma {:induction false} RoundedQuotient(s: int, n: nat, q: int, mean: real)
    requires n > 0 && q == TruncDiv(s, n) && mean == s as real / n as real
    ensures Rounding.ToFloat32(q as real) == mean <==> Distance(s) % n == 0 && Rounding.ToFloat32(mean) == mean
    ensures Distance(s) < n * Rounding.DIGITS ==> (Rounding.ToFloat32(q as real) == mean <==> Distance(s) % n == 0)
  {
    TruncatesIff(s, n);
    WholeQuotient(q, s, n);
    Rounding.IntegersStayWhole(q);
    var w := Rounding.ToFloat32(q as real).Floor;
    WholeQuotient(w, s, n);
    if w * n == s {
      ExactMultiple(s, n, w);
    }
    if Distance(s) < n * Rounding.DIGITS {
      FewBits(s, n, q);
      Rounding.IntegersStay(q);
    }
  }

  /** What a quotient `q` by `n` truncates away. */
  predicate Truncated(rest: int, q: int, n: int) {
    if q > 0 then 0 <= rest < n else if q < 0 then -n < rest <= 0 else -n < rest < n
  }

  lemma {:induction false} Steps(a: int, b: int, n: nat)
    requires n > 0 && a < b
    ensures a * n + n <= b * n
  {
    NotNegative(b - a - 1, n);
    Split(a, b - a - 1, n);
  }

  lemma {:induction false} NotNegative(a: int, n: nat)
    requires a >= 0
    ensures a * n >= 0
  {
  }

  lemma {:induction false} Split(a: int, d: int, n: nat)
    ensures (a + 1 + d) * n == a * n + n + d * n
  {
  }

  lemma {:induction false} SameQuotient(b: nat, n: nat, p: nat, q: nat)
    requires n > 0 && p * n <= b < p * n + n && q * n <= b < q * n + n
    ensures p == q
  {
    if p < q {
      Steps(p, q, n);
    } else if q < p {
      Steps(q, p, n);
    }
  }

  /** A division of distances, with the rest. */
  lemma {:induction false} DivisionIs(b: nat, n: nat) returns (p: nat)
    requires n > 0
    ensures p == b / n && p * n <= b < p * n + n
  {
    p := b / n;
    assert b == n * p + b % n;
    assert n * p == p * n;
  }

  lemma {:induction false} Mirrored(q: int, n: nat)
    ensures (-q) * n == -(q * n)
  {
  }

  lemma {:induction false} TruncDivIff(s: int, n: nat, q: int)
    requires n > 0
    ensures TruncDiv(s, n) == q <==> Truncated(s - q * n, q, n)
  {
    var p: int := DivisionIs(Distance(s), n);
    assert TruncDiv(s, n) == if s < 0 then -p else p;
    Mirrored(p, n);
    Mirrored(q, n);
    if Truncated(s - q * n, q, n) {
      RightSign(s, n, q);
      SameQuotient(Distance(s), n, p, Distance(q));
    }
  }

  lemma {:induction false} RightSign(s: int, n: nat, q: int)
    requires n > 0 && Truncated(s - q * n, q, n)
    ensures (q > 0 ==> s > 0) && (q < 0 ==> s < 0)
  {
    if q > 0 {
      Steps(0, q, n);
    } else if q < 0 {
      Steps(q, 0, n);
    }
  }

  lemma {:induction false} ExactMultiple(s: int, n: nat, w: int)
    requires n > 0 && w * n == s
    ensures TruncDiv(s, n) == w
  {
    TruncDivIff(s, n, w);
  }

  lemma {:induction false} FewBits(s: int, n: nat, q: int)
    requires n > 0 && q == TruncDiv(s, n) && Distance(s) < n * Rounding.DIGITS
    ensures -Rounding.DIGITS < q < Rounding.DIGITS
  {
    var d := DivisionIs(Distance(s), n);
    if d >= Rounding.DIGITS {
      Steps(Rounding.DIGITS - 1, d, n);
    }
  }

  lemma {:induction false} WholeQuotient(q: int, s: int, n: nat)
    requires n > 0
    ensures q as real == s as real / n as real <==> q * n == s
  {
    assert q as real == s as real / n as real <==> q as real * n as real == s as real;
    assert q as real * n as real == (q * n) as real;
  }

  // -------------------------------------------------------- distinct values

  /** The distinct values of a column. */
  function Values(rows: seq<Row>, c: string): set<Value> {
    set k | 0 <= k < |rows| :: Get(rows[k], c)
  }

  function Image(s: set<Value>): set<Value> {
    set v | v in s :: Narrow(v)
  }

  function ImageBy(s: set<Value>, f: Value -> Value): set<Value> {
    set v | v in s :: f(v)
  }

  lemma {:induction false} ImageBySize(s: set<Value>, f: Value -> Value)
    ensures |ImageBy(s, f)| <= |s|
    ensures |ImageBy(s, f)| == |s| <==> forall v, w :: v in s && w in s && f(v) == f(w) ==> v == w
  {
    if s == {} {
      assert ImageBy(s, f) == {};
    } else {
      var v :| v in s;
      var rest := s - {v};
      ImageBySize(rest, f);
      assert ImageBy(s, f) == ImageBy(rest, f) + {f(v)};
      assert s == rest + {v};
      if f(v) in ImageBy(rest, f) {
        var w :| w in rest && f(w) == f(v);
        assert ImageBy(s, f) == ImageBy(rest, f);
      }
    }
  }

  lemma {:induction false} ImageSize(s: set<Value>)
    ensures |Image(s)| <= |s|
    ensures |Image(s)| == |s| <==> forall v, w :: v in s && w in s && Narrow(v) == Narrow(w) ==> v == w
  {
    ImageBySize(s, Narrow);
    assert Image(s) == ImageBy(s, Narrow);
  }

  /** On a column without dates and NULLs, COUNT DISTINCT is the number of
      distinct values exactly if no two of them become one in 32 bits. */
  lemma {:induction false} CountDistinctIff(rows: seq<Row>, c: string)
    requires forall k :: 0 <= k < |rows| ==> !Get(rows[k], c).Date?
    ensures |Told(rows, c)| == |Values(rows, c)|
       <==> forall i, j :: 0 <= i < |rows| && 0 <= j < |rows| && Narrow(Get(rows[i], c)) == Narrow(Get(rows[j], c)) ==>
              Get(rows[i], c) == Get(rows[j], c)
  {
    ToldIsImage(rows, c);
    ImageSize(Values(rows, c));
  }

  lemma {:induction false} ToldIsImage(rows: seq<Row>, c: string)
    requires forall k :: 0 <= k < |rows| ==> !Get(rows[k], c).Date?
    ensures Told(rows, c) == Image(Values(rows, c))
  {
    forall v | v in Told(rows, c) ensures v in Image(Values(rows, c)) {
      var k :| 0 <= k < |rows| && !Get(rows[k], c).Date? && Narrow(Get(rows[k], c)) == v;
      assert Get(rows[k], c) in Values(rows, c);
    }
    forall v | v in Image(Values(rows, c)) ensures v in Told(rows, c) {
      var w :| w in Values(rows, c) && Narrow(w) == v;
      var k :| 0 <= k < |rows| && Get(rows[k], c) == w;
    }
  }

  lemma {:induction false} ToldPermuted(a: seq<Row>, b: seq<Row>, c: string)
    requires multiset(a) == multiset(b)
    ensures Told(a, c) <= Told(b, c)
  {
    forall v | v in Told(a, c) ensures v in Told(b, c) {
      var k :| 0 <= k < |a| && !Get(a[k], c).Date? && Narrow(Get(a[k], c)) == v;
      assert a[k] in multiset(a);
      assert a[k] in multiset(b);
      var j :| 0 <= j < |b| && b[j] == a[k];
    }
  }

  // ------------------------------------------------------------ any row order

  /** A projection whose value does not depend on the order of the group's rows:
      counts, integer sums, averages, minima and maxima, and columns that are
      constant in the group. */
  ghost predicate OrderFree(p: Projection, schema: Schema, rows: seq<Row>) {
    match p.select
    case CountStar => true
    case Count => true
    case DistinctCount => true
    case SumOf => AllInt(rows, EvalOn(p.form, schema))
    case AvgOf => AllInt(rows, EvalOn(p.form, schema))
    case MinOfAll => AllInt(rows, EvalOn(p.form, schema))
    case MaxOfAll => AllInt(rows, EvalOn(p.form, schema))
    case ColumnName => forall i, j :: 0 <= i < |rows| && 0 <= j < |rows| ==>
      EvalOn(p.form, schema)(rows[i]) == EvalOn(p.form, schema)(rows[j])
  }

  lemma {:induction false} SumTPermuted(a: seq<Row>, b: seq<Row>, f: Row -> T, val: Row -> int)
    requires a != [] && multiset(a) == multiset(b) && AllInt(a, f)
    requires forall row :: val(row) == f(row).varInt
    ensures |a| == |b| && SumT(a, f) == SumT(b, f)
  {
    NothingPermuted(a, b);
    AllIntPermuted(a, b, f);
    SumOfInts(a, f, val);
    SumOfInts(b, f, val);
    SumPermuted(a, b, val);
  }

  lemma {:induction false} MinTPermuted(a: seq<Row>, b: seq<Row>, f: Row -> T, val: Row -> int)
    requires a != [] && multiset(a) == multiset(b) && AllInt(a, f)
    requires forall row :: val(row) == f(row).varInt
    ensures b != [] && MinT(a, f) == MinT(b, f)
  {
    AllIntPermuted(a, b, f);
    MinPermuted(a, b, val);
    MinOfInts(a, f, val);
    MinOfInts(b, f, val);
  }

  lemma {:induction false} MaxTPermuted(a: seq<Row>, b: seq<Row>, f: Row -> T, val: Row -> int)
    requires a != [] && multiset(a) == multiset(b) && AllInt(a, f)
    requires forall row :: val(row) == f(row).varInt
    ensures b != [] && MaxT(a, f) == MaxT(b, f)
  {
    AllIntPermuted(a, b, f);
    MinPermuted(a, b, Negative(val));
    MaxOfInts(a, f, val);
    MaxOfInts(b, f, val);
  }

  lemma {:induction false} AggPermuted(p: Projection, schema: Schema, a: seq<Row>, b: seq<Row>)
    requires a != [] && multiset(a) == multiset(b)
    requires OrderFree(p, schema, a)
    ensures b != [] && AggT(p, schema, a) == AggT(p, schema, b)
  {
    NothingPermuted(a, b);
    var f, val := EvalOn(p.form, schema), IntOn(p.form, schema);
    match p.select
    case CountStar =>
    case Count => SumPermuted(a, b, NotNull(CountedColumn(p)));
    case DistinctCount =>
      ToldPermuted(a, b, CountedColumn(p));
      ToldPermuted(b, a, CountedColumn(p));
      assert Told(a, CountedColumn(p)) == Told(b, CountedColumn(p));
    case SumOf => SumTPermuted(a, b, f, val);
    case AvgOf => SumTPermuted(a, b, f, val);
    case MinOfAll => MinTPermuted(a, b, f, val);
    case MaxOfAll => MaxTPermuted(a, b, f, val);
    case ColumnName =>
      Permuted(a, b, b[0]);
      var i :| 0 <= i < |a| && a[i] == b[0];
      assert f(a[i]) == f(a[0]);
  }

  lemma {:induction false} AllIntPermuted(a: seq<Row>, b: seq<Row>, f: Row -> T)
    requires multiset(a) == multiset(b) && AllInt(a, f)
    ensures AllInt(b, f)
  {
    forall r | 0 <= r < |b|
      ensures f(b[r]).vtype.TypeInt? && f(b[r]) == EMPTY_T.(varInt := f(b[r]).varInt, vtype := TypeInt)
    {
      Permuted(a, b, b[r]);
      var i :| 0 <= i < |a| && a[i] == b[r];
    }
  }

  lemma {:induction false} AggRowPermuted(ps: seq<Projection>, alias: seq<string>, schema: Schema, a: seq<Row>,
                                          b: seq<Row>)
    requires a != [] && multiset(a) == multiset(b) && b != []
    requires |ps| == |alias|
    requires forall k :: 0 <= k < |ps| ==> OrderFree(ps[k], schema, a)
    ensures AggRow(ps, alias, schema, a) == AggRow(ps, alias, schema, b)
  {
    forall k | 0 <= k < |ps| ensures AggCells(ps, schema, a)[k] == AggCells(ps, schema, b)[k] {
      AggPermuted(ps[k], schema, a, b);
    }
    assert AggCells(ps, schema, a) == AggCells(ps, schema, b);
  }
}
