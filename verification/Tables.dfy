/** Columnar tables of the merging module (`ColData`, `TableData`) and the
    view of such a table as a sequence of rows.

    Both are plain structs that the source copies by value, so they are
    datatypes here; the objects that hold and update them are classes. */
module Tables {

  datatype VectorType = TypeEmpty | TypeString | TypeInt | TypeFloat | TypeBoolean | TypeDate

  datatype WorkStatus = Initialized | NotFinished | WorkDone

  /** One column: one value vector per storage class, the null flags and the
      bookkeeping fields. Dates live in `intvec`. */
  datatype ColData = ColData(
    strvec: seq<string>,
    intvec: seq<int>,
    floatvec: seq<real>,
    isnull: seq<bool>,
    colType: VectorType,
    rowCount: int,
    realSize: int)

  const EMPTY_COLUMN := ColData([], [], [], [], TypeEmpty, 0, 0)

  datatype TableData = TableData(columns: map<string, ColData>, rowCount: int)

  const EMPTY_TABLE := TableData(map[], 0)

  datatype Value = Str(s: string) | Int(i: int) | Float(f: real) | Date(d: int) | NoValue

  datatype Cell = Cell(value: Value, isnull: bool)

  type Row = map<string, Cell>

  /** What a column announces about itself apart from its cells. */
  datatype ColInfo = ColInfo(colType: VectorType, realSize: int)

  type Schema = map<string, ColInfo>

  // ---------------------------------------------------------------- alignment

  /** Exactly the vector of the column's own type is filled, the null flags
      are as long, and `rowCount` says so. */
  predicate Aligned(c: ColData, n: int) {
    && 0 <= n
    && |c.isnull| == n
    && c.rowCount == n
    && |c.strvec| == (if c.colType.TypeString? then n else 0)
    && |c.intvec| == (if c.colType.TypeInt? || c.colType.TypeDate? then n else 0)
    && |c.floatvec| == (if c.colType.TypeFloat? then n else 0)
  }

  predicate Storable(t: VectorType) {
    t.TypeString? || t.TypeInt? || t.TypeFloat? || t.TypeDate?
  }

  predicate WellFormed(t: TableData) {
    && 0 <= t.rowCount
    && forall c :: c in t.columns ==> Storable(t.columns[c].colType) && Aligned(t.columns[c], t.rowCount)
  }

  // ----------------------------------------------------------------- row view

  function ValueAt(c: ColData, r: nat): Value
    requires r < c.rowCount && Aligned(c, c.rowCount)
  {
    match c.colType
    case TypeString => Str(c.strvec[r])
    case TypeInt => Int(c.intvec[r])
    case TypeDate => Date(c.intvec[r])
    case TypeFloat => Float(c.floatvec[r])
    case _ => NoValue
  }

  function CellAt(c: ColData, r: nat): Cell
    requires r < c.rowCount && Aligned(c, c.rowCount)
  {
    Cell(ValueAt(c, r), c.isnull[r])
  }

  function RowAt(t: TableData, r: nat): Row
    requires WellFormed(t) && r < t.rowCount
  {
    map c | c in t.columns :: CellAt(t.columns[c], r)
  }

  function Rows(t: TableData): (rows: seq<Row>)
    requires WellFormed(t)
    ensures |rows| == t.rowCount
  {
    seq(t.rowCount, r requires 0 <= r < t.rowCount => RowAt(t, r))
  }

  function SchemaOf(t: TableData): Schema {
    map c | c in t.columns :: ColInfo(t.columns[c].colType, t.columns[c].realSize)
  }

  /** The value of column `c` in a row; `NoValue` when there is none. */
  function Get(row: Row, c: string): Value {
    if c in row then row[c].value else NoValue
  }

  predicate IsNull(row: Row, c: string) {
    c in row && row[c].isnull
  }

  predicate TypedAs(v: Value, t: VectorType) {
    match t
    case TypeString => v.Str?
    case TypeInt => v.Int?
    case TypeFloat => v.Float?
    case TypeDate => v.Date?
    case _ => v.NoValue?
  }

  lemma {:induction false} RowIsTyped(t: TableData, r: nat)
    requires WellFormed(t) && r < t.rowCount
    ensures Rows(t)[r] == RowAt(t, r)
    ensures RowAt(t, r).Keys == t.columns.Keys
    ensures forall c :: c in t.columns ==> Get(RowAt(t, r), c) == ValueAt(t.columns[c], r)
    ensures forall c :: c in t.columns ==> TypedAs(Get(RowAt(t, r), c), t.columns[c].colType)
  {
  }

  // ------------------------------------------------------------------ growing

  predicate TypedRow(row: Row, schema: Schema) {
    forall c :: c in schema ==> Storable(schema[c].colType) && c in row && TypedAs(row[c].value, schema[c].colType)
  }

  /** `push_back` of one cell: the vector is chosen by the source column's
      type; `real_size` travels with floats only; the destination's own type
      is not touched. */
  function PushTyped(dst: ColData, info: ColInfo, cell: Cell): ColData
    requires Storable(info.colType) && TypedAs(cell.value, info.colType)
  {
    var d := match info.colType
      case TypeInt => dst.(intvec := dst.intvec + [cell.value.i])
      case TypeDate => dst.(intvec := dst.intvec + [cell.value.d])
      case TypeString => dst.(strvec := dst.strvec + [cell.value.s])
      case TypeFloat => dst.(floatvec := dst.floatvec + [cell.value.f], realSize := info.realSize)
      case _ => dst;
    d.(isnull := d.isnull + [cell.isnull], rowCount := d.rowCount + 1)
  }

  function ColumnOr(cols: map<string, ColData>, c: string): ColData {
    if c in cols then cols[c] else EMPTY_COLUMN
  }

  /** A row pushed onto the columns of its names. */
  function PushCells(dst: map<string, ColData>, schema: Schema, row: Row): map<string, ColData>
    requires TypedRow(row, schema)
  {
    PushSome(dst, schema, row, schema.Keys)
  }

  /** The columns `names` of a row pushed, in whatever order the map is walked. */
  function PushSome(dst: map<string, ColData>, schema: Schema, row: Row, names: set<string>): map<string, ColData>
    requires TypedRow(row, schema) && names <= schema.Keys
  {
    map c | c in dst.Keys + names ::
      if c in names then PushTyped(ColumnOr(dst, c), schema[c], row[c]) else dst[c]
  }

  lemma {:induction false} PushOneMore(dst: map<string, ColData>, schema: Schema, row: Row, todo: set<string>,
                                       c: string)
    requires TypedRow(row, schema) && todo <= schema.Keys && c in todo
    ensures var out := PushSome(dst, schema, row, schema.Keys - todo);
      && ColumnOr(out, c) == ColumnOr(dst, c)
      && out[c := PushTyped(ColumnOr(dst, c), schema[c], row[c])]
        == PushSome(dst, schema, row, schema.Keys - (todo - {c}))
  {
    assert schema.Keys - (todo - {c}) == schema.Keys - todo + {c};
  }

  lemma {:induction false} PushNone(dst: map<string, ColData>, schema: Schema, row: Row, todo: set<string>)
    requires TypedRow(row, schema) && todo == schema.Keys
    ensures dst == PushSome(dst, schema, row, schema.Keys - todo)
  {
    assert schema.Keys - todo == {};
  }

  lemma {:induction false} PushAll(dst: map<string, ColData>, schema: Schema, row: Row, todo: set<string>)
    requires TypedRow(row, schema) && todo == {}
    ensures PushSome(dst, schema, row, schema.Keys - todo) == PushCells(dst, schema, row)
  {
    assert schema.Keys - todo == schema.Keys;
  }

  /** Value of row `r`, null flag given separately. */
  method PushCell(dst: ColData, src: ColData, r: nat, isnull: bool) returns (d: ColData)
    requires Storable(src.colType) && Aligned(src, src.rowCount) && r < src.rowCount
    ensures d == PushTyped(dst, ColInfo(src.colType, src.realSize), Cell(ValueAt(src, r), isnull))
  {
    d := dst;
    match src.colType {
      case TypeInt => d := d.(intvec := d.intvec + [src.intvec[r]]);
      case TypeDate => d := d.(intvec := d.intvec + [src.intvec[r]]);
      case TypeString => d := d.(strvec := d.strvec + [src.strvec[r]]);
      case TypeFloat => d := d.(floatvec := d.floatvec + [src.floatvec[r]], realSize := src.realSize);
      case _ =>
    }
    d := d.(isnull := d.isnull + [isnull], rowCount := d.rowCount + 1);
  }

  /** Row `r` with the null flags of row `flags`. */
  function RowWithFlags(t: TableData, r: nat, flags: nat): Row
    requires WellFormed(t) && r < t.rowCount && flags < t.rowCount
  {
    map c | c in t.columns :: Cell(ValueAt(t.columns[c], r), t.columns[c].isnull[flags])
  }

  lemma {:induction false} OwnFlags(t: TableData, r: nat)
    requires WellFormed(t) && r < t.rowCount
    ensures RowWithFlags(t, r, r) == RowAt(t, r)
  {
  }

  lemma {:induction false} RowsAreTyped(t: TableData, r: nat, flags: nat)
    requires WellFormed(t) && r < t.rowCount && flags < t.rowCount
    ensures TypedRow(RowWithFlags(t, r, flags), SchemaOf(t))
    ensures TypedRow(RowAt(t, r), SchemaOf(t))
  {
  }

  /** The column loop that the operators run for a row they keep. */
  method PushColumns(dst: map<string, ColData>, src: TableData, r: nat, flags: nat) returns (out: map<string, ColData>)
    requires WellFormed(src) && r < src.rowCount && flags < src.rowCount
    ensures TypedRow(RowWithFlags(src, r, flags), SchemaOf(src))
    ensures out == PushCells(dst, SchemaOf(src), RowWithFlags(src, r, flags))
  {
    out := dst;
    ghost var row, schema := RowWithFlags(src, r, flags), SchemaOf(src);
    RowsAreTyped(src, r, flags);
    var todo := src.columns.Keys;
    PushNone(dst, schema, row, todo);
    while todo != {}
      invariant todo <= schema.Keys
      invariant out == PushSome(dst, schema, row, schema.Keys - todo)
    {
      var c :| c in todo;
      PushOneMore(dst, schema, row, todo, c);
      var d := PushCell(ColumnOr(out, c), src.columns[c], r, src.columns[c].isnull[flags]);
      out := out[c := d];
      todo := todo - {c};
    }
    PushAll(dst, schema, row, todo);
  }

  // ---------------------------------------------------------------- null rows

  /** The right half of an unmatched outer row: default values, flagged null. */
  function NullCell(t: VectorType): Cell {
    Cell(match t
         case TypeString => Str("")
         case TypeInt => Int(0)
         case TypeDate => Date(0)
         case TypeFloat => Float(0.0)
         case _ => NoValue,
         true)
  }

  function NullRow(schema: Schema): Row {
    map c | c in schema :: NullCell(schema[c].colType)
  }

  /** Empty strings and zeros. */
  lemma {:induction false} NullRowMeans(schema: Schema, c: string)
    requires c in schema
    ensures NullRow(schema).Keys == schema.Keys && NullRow(schema)[c].isnull
    ensures match schema[c].colType
            case TypeString => NullRow(schema)[c].value == Str("")
            case TypeInt => NullRow(schema)[c].value == Int(0)
            case TypeDate => NullRow(schema)[c].value == Date(0)
            case TypeFloat => NullRow(schema)[c].value == Float(0.0)
            case _ => true
  {
  }

  method PushNullCell(dst: ColData, src: ColData) returns (d: ColData)
    requires Storable(src.colType)
    ensures d == PushTyped(dst, ColInfo(src.colType, src.realSize), NullCell(src.colType))
  {
    d := dst;
    match src.colType {
      case TypeInt => d := d.(intvec := d.intvec + [0]);
      case TypeDate => d := d.(intvec := d.intvec + [0]);
      case TypeString => d := d.(strvec := d.strvec + [""]);
      case TypeFloat => d := d.(floatvec := d.floatvec + [0.0], realSize := src.realSize);
      case _ =>
    }
    d := d.(isnull := d.isnull + [true], rowCount := d.rowCount + 1);
  }

  method PushNullColumns(dst: map<string, ColData>, src: TableData) returns (out: map<string, ColData>)
    requires WellFormed(src)
    ensures out == PushCells(dst, SchemaOf(src), NullRow(SchemaOf(src)))
  {
    out := dst;
    ghost var schema := SchemaOf(src);
    ghost var row := NullRow(schema);
    var todo := src.columns.Keys;
    PushNone(dst, schema, row, todo);
    while todo != {}
      invariant todo <= schema.Keys
      invariant out == PushSome(dst, schema, row, schema.Keys - todo)
    {
      var c :| c in todo;
      PushOneMore(dst, schema, row, todo, c);
      var d := PushNullCell(ColumnOr(out, c), src.columns[c]);
      out := out[c := d];
      todo := todo - {c};
    }
    PushAll(dst, schema, row, todo);
  }

  // ------------------------------------------------------------- column types

  /** Before the first row the executor only copies the column types. */
  function SetTypes(dst: map<string, ColData>, src: TableData): map<string, ColData> {
    map c | c in dst.Keys + src.columns.Keys ::
      if c in src.columns then ColumnOr(dst, c).(colType := src.columns[c].colType) else dst[c]
  }

  method CopyTypes(dst: map<string, ColData>, src: TableData) returns (out: map<string, ColData>)
    ensures out == SetTypes(dst, src)
  {
    out := dst;
    var todo := src.columns.Keys;
    while todo != {}
      invariant todo <= src.columns.Keys
      invariant out.Keys == dst.Keys + (src.columns.Keys - todo)
      invariant forall c :: c in out ==>
        out[c] == if c in src.columns && c !in todo
                  then ColumnOr(dst, c).(colType := src.columns[c].colType) else dst[c]
    {
      var c :| c in todo;
      out := out[c := ColumnOr(out, c).(colType := src.columns[c].colType)];
      todo := todo - {c};
    }
  }

  // ----------------------------------------------------------- representation

  /** Column `col` holds exactly the cells named `c` of `rows`, under `info`.
      A float column carries its scale as soon as it has a row. */
  ghost predicate HoldsColumn(col: ColData, info: ColInfo, rows: seq<Row>, c: string) {
    && col.colType == info.colType
    && Storable(col.colType)
    && Aligned(col, |rows|)
    && (rows != [] && info.colType.TypeFloat? ==> col.realSize == info.realSize)
    && forall r :: 0 <= r < |rows| ==> c in rows[r] && CellAt(col, r) == rows[r][c]
  }

  ghost predicate HoldsColumns(cols: map<string, ColData>, schema: Schema, rows: seq<Row>) {
    forall c :: c in schema ==> c in cols && HoldsColumn(cols[c], schema[c], rows, c)
  }

  /** The table holds exactly `rows`, and its columns are those of `schema`. */
  ghost predicate Represents(t: TableData, schema: Schema, rows: seq<Row>) {
    && t.rowCount == |rows|
    && t.columns.Keys == schema.Keys
    && HoldsColumns(t.columns, schema, rows)
    && HaveKeys(rows, schema.Keys)
  }

  ghost predicate HaveKeys(rows: seq<Row>, names: set<string>) {
    forall r :: 0 <= r < |rows| ==> rows[r].Keys == names
  }

  lemma {:induction false} RepresentsRows(t: TableData, schema: Schema, rows: seq<Row>)
    requires Represents(t, schema, rows)
    ensures WellFormed(t)
    ensures Rows(t) == rows
  {
    forall c | c in t.columns
      ensures Storable(t.columns[c].colType) && Aligned(t.columns[c], t.rowCount)
    {
      assert HoldsColumn(t.columns[c], schema[c], rows, c);
    }
    forall r | 0 <= r < |rows|
      ensures RowAt(t, r) == rows[r]
    {
      assert RowAt(t, r).Keys == rows[r].Keys;
      forall c | c in schema
        ensures RowAt(t, r)[c] == rows[r][c]
      {
        assert HoldsColumn(t.columns[c], schema[c], rows, c);
      }
    }
  }

  /** A well-formed table represents its own rows. */
  lemma {:induction false} RepresentsItself(t: TableData)
    requires WellFormed(t)
    ensures Represents(t, SchemaOf(t), Rows(t))
  {
    forall c | c in SchemaOf(t)
      ensures c in t.columns && HoldsColumn(t.columns[c], SchemaOf(t)[c], Rows(t), c)
    {
    }
  }

  lemma {:induction false} PushTypedHolds(dst: ColData, info: ColInfo, rows: seq<Row>, c: string, row: Row)
    requires HoldsColumn(dst, info, rows, c)
    requires Storable(info.colType) && c in row && TypedAs(row[c].value, info.colType)
    ensures HoldsColumn(PushTyped(dst, info, row[c]), info, rows + [row], c)
  {
    var out := PushTyped(dst, info, row[c]);
    forall k | 0 <= k < |rows + [row]|
      ensures c in (rows + [row])[k] && CellAt(out, k) == (rows + [row])[k][c]
    {
      if k < |rows| {
        assert CellAt(dst, k) == rows[k][c];
        assert CellAt(out, k) == CellAt(dst, k);
      }
    }
  }

  /** Pushing a row extends exactly the columns of its schema. */
  lemma {:induction false} PushCellsHolds(cols: map<string, ColData>, schema: Schema, rows: seq<Row>, row: Row)
    requires HoldsColumns(cols, schema, rows) && TypedRow(row, schema)
    ensures HoldsColumns(PushCells(cols, schema, row), schema, rows + [row])
    ensures forall c :: c in cols && c !in schema ==> PushCells(cols, schema, row)[c] == cols[c]
    ensures PushCells(cols, schema, row).Keys == cols.Keys + schema.Keys
  {
    forall c | c in schema
      ensures c in PushCells(cols, schema, row)
        && HoldsColumn(PushCells(cols, schema, row)[c], schema[c], rows + [row], c)
    {
      PushTypedHolds(cols[c], schema[c], rows, c, row);
    }
  }

  /** One row kept: the semi-join and filter step. */
  lemma {:induction false} KeepRow(t: TableData, schema: Schema, rows: seq<Row>, row: Row)
    requires Represents(t, schema, rows)
    requires TypedRow(row, schema) && row.Keys == schema.Keys
    ensures Represents(TableData(PushCells(t.columns, schema, row), t.rowCount + 1), schema, rows + [row])
  {
    PushCellsHolds(t.columns, schema, rows, row);
  }

  predicate Disjoint(a: TableData, b: TableData) {
    a.columns.Keys !! b.columns.Keys
  }

  lemma {:induction false} ColumnsRestrict(cols: map<string, ColData>, big: Schema, small: Schema, rows: seq<Row>)
    requires HoldsColumns(cols, big, rows)
    requires forall c :: c in small ==> c in big && big[c] == small[c]
    ensures HoldsColumns(cols, small, rows)
  {
    forall c | c in small ensures c in cols && HoldsColumn(cols[c], small[c], rows, c) {
      assert HoldsColumn(cols[c], big[c], rows, c);
    }
  }

  lemma {:induction false} RowTypedRestrict(row: Row, big: Row, schema: Schema, cols: map<string, ColData>)
    requires TypedRow(row, schema)
    requires forall c :: c in row ==> c in big && big[c] == row[c]
    ensures TypedRow(big, schema)
    ensures PushCells(cols, schema, big) == PushCells(cols, schema, row)
  {
  }

  lemma {:induction false} SideBySide(a: Row, b: Row)
    requires a.Keys !! b.Keys
    ensures a + b == b + a
    ensures (a + b).Keys == a.Keys + b.Keys
    ensures forall c :: c in a ==> (a + b)[c] == a[c]
    ensures forall c :: c in b ==> (a + b)[c] == b[c]
  {
  }

  /** Two rows side by side: the join step. The order of the two pushes is
      immaterial because the column names are disjoint. */
  lemma {:induction false} JoinRow(t: TableData, rows: seq<Row>, sa: Schema, a: Row, sb: Schema, b: Row)
    requires TypedRow(a, sa) && a.Keys == sa.Keys
    requires TypedRow(b, sb) && b.Keys == sb.Keys
    requires sa.Keys !! sb.Keys
    requires Represents(t, sa + sb, rows)
    ensures Represents(TableData(PushCells(PushCells(t.columns, sa, a), sb, b), t.rowCount + 1), sa + sb,
      rows + [a + b])
  {
    SideBySide(a, b);
    RowTypedRestrict(a, a + b, sa, t.columns);
    RowTypedRestrict(b, a + b, sb, PushCells(t.columns, sa, a));
    PushTwice(t.columns, rows, sa, sb, a + b);
  }

  lemma {:induction false} PushTwice(cols: map<string, ColData>, rows: seq<Row>, sa: Schema, sb: Schema, row: Row)
    requires TypedRow(row, sa) && TypedRow(row, sb)
    requires sa.Keys !! sb.Keys
    requires HoldsColumns(cols, sa + sb, rows)
    ensures HoldsColumns(PushCells(PushCells(cols, sa, row), sb, row), sa + sb, rows + [row])
    ensures PushCells(PushCells(cols, sa, row), sb, row).Keys == cols.Keys + sa.Keys + sb.Keys
  {
    var schema := sa + sb;
    ColumnsRestrict(cols, schema, sa, rows);
    ColumnsRestrict(cols, schema, sb, rows);
    PushCellsHolds(cols, sa, rows, row);
    var mid := PushCells(cols, sa, row);
    assert HoldsColumns(mid, sb, rows) by {
      forall c | c in sb ensures c in mid && HoldsColumn(mid[c], sb[c], rows, c) {
        assert mid[c] == cols[c];
      }
    }
    PushCellsHolds(mid, sb, rows, row);
    var out := PushCells(mid, sb, row);
    forall c | c in schema ensures c in out && HoldsColumn(out[c], schema[c], rows + [row], c) {
      if c in sb {
        assert HoldsColumn(out[c], sb[c], rows + [row], c);
      } else {
        assert HoldsColumn(mid[c], sa[c], rows + [row], c);
      }
    }
  }

  /** The state before the first row: types set, no cells. */
  lemma {:induction false} FreshColumns(dst: map<string, ColData>, src: TableData)
    requires WellFormed(src)
    requires forall c :: c in src.columns ==> c !in dst
    ensures HoldsColumns(SetTypes(dst, src), SchemaOf(src), [])
    ensures forall c :: c in dst ==> SetTypes(dst, src)[c] == dst[c]
    ensures SetTypes(dst, src).Keys == dst.Keys + src.columns.Keys
  {
  }

  /** Types of one table, and of two tables with disjoint names. */
  lemma {:induction false} TypesOfOne(a: TableData)
    requires WellFormed(a)
    ensures Represents(TableData(SetTypes(map[], a), 0), SchemaOf(a), [])
  {
    FreshColumns(map[], a);
  }

  lemma {:induction false} TypesOfBoth(a: TableData, b: TableData)
    requires WellFormed(a) && WellFormed(b) && Disjoint(b, a)
    ensures Represents(TableData(SetTypes(SetTypes(map[], a), b), 0), SchemaOf(b) + SchemaOf(a), [])
  {
    FreshColumns(map[], a);
    FreshColumns(SetTypes(map[], a), b);
  }

  // ---------------------------------------------------------------- snapshots

  /** The first `n` rows of a column and of a table: what a reader of a
      growing work buffer gets. */
  function TakeColumn(c: ColData, n: nat): ColData
    requires n <= c.rowCount && Aligned(c, c.rowCount)
  {
    c.(strvec := if c.colType.TypeString? then c.strvec[..n] else [],
       intvec := if c.colType.TypeInt? || c.colType.TypeDate? then c.intvec[..n] else [],
       floatvec := if c.colType.TypeFloat? then c.floatvec[..n] else [],
       isnull := c.isnull[..n],
       rowCount := n)
  }

  function TakeRows(t: TableData, n: nat): TableData
    requires WellFormed(t) && n <= t.rowCount
  {
    TableData(map c | c in t.columns :: TakeColumn(t.columns[c], n), n)
  }

  lemma {:induction false} TakenRow(t: TableData, n: nat, r: nat)
    requires WellFormed(t) && r < n <= t.rowCount && WellFormed(TakeRows(t, n))
    ensures RowAt(TakeRows(t, n), r) == RowAt(t, r)
  {
    var a, b := RowAt(TakeRows(t, n), r), RowAt(t, r);
    assert a.Keys == b.Keys;
    forall c | c in t.columns ensures a[c] == b[c] {
      assert CellAt(TakeColumn(t.columns[c], n), r) == CellAt(t.columns[c], r);
    }
  }

  lemma {:induction false} TakeRowsIsPrefix(t: TableData, n: nat)
    requires WellFormed(t) && n <= t.rowCount
    ensures WellFormed(TakeRows(t, n))
    ensures SchemaOf(TakeRows(t, n)) == SchemaOf(t)
    ensures TakeRows(t, n).columns.Keys == t.columns.Keys
    ensures Rows(TakeRows(t, n)) == Rows(t)[..n]
    ensures forall r :: 0 <= r < n ==> RowAt(TakeRows(t, n), r) == RowAt(t, r)
  {
    var p := TakeRows(t, n);
    assert WellFormed(p);
    assert SchemaOf(p) == SchemaOf(t);
    forall r | 0 <= r < n ensures RowAt(p, r) == RowAt(t, r) {
      TakenRow(t, n, r);
    }
  }
}
