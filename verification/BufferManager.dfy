/** The work buffer object of the merging module. Each method is one region
    under the lock; `WorkBuffers` says what it does to the abstract state. */
module BufferManager {
  import opened Bytes
  import opened Tables
  import opened RowCodec
  import opened Streams
  import opened WorkBuffers
  import opened Wrappers

  // ------------------------------------------------------------ one decoded row

  /** The switch of the column loop: the value goes to the vector of its type. */
  method PushValue(col: ColData, v: Value) returns (out: ColData)
    requires Storable(col.colType) && TypedAs(v, col.colType)
    ensures out == PushTyped(col, ColInfo(col.colType, col.realSize), Cell(v, false))
  {
    match v {
      case Int(i) => out := col.(intvec := col.intvec + [i]);
      case Date(d) => out := col.(intvec := col.intvec + [d]);
      case Float(f) => out := col.(floatvec := col.floatvec + [f]);
      case Str(s) => out := col.(strvec := col.strvec + [s]);
      case NoValue => out := col;
    }
    out := out.(isnull := out.isnull + [false]);
    out := out.(rowCount := out.rowCount + 1);
  }

  ghost predicate HoldsExactly(col: ColData, info: ColInfo, rows: seq<Row>, c: string) {
    HoldsColumn(col, info, rows, c) && col.realSize == info.realSize
  }

  /** The first `j` columns have the new row, the others wait for it. */
  ghost predicate RowPartly(table: map<string, ColData>, names: seq<string>, cols: seq<Column>, rows: seq<Row>, x: Row,
                            j: nat)
    requires |names| == |cols| && j <= |names|
  {
    && (forall c :: c in table <==> c in names)
    && (forall k :: 0 <= k < j ==> HoldsExactly(table[names[k]], TypeInfo(cols[k]), rows + [x], names[k]))
    && (forall k :: j <= k < |names| ==> HoldsExactly(table[names[k]], TypeInfo(cols[k]), rows, names[k]))
  }

  lemma {:induction false} IndexOfName(names: seq<string>, cols: seq<Column>, k: nat)
    requires NamesOk(names, cols) && k < |names|
    ensures IndexOf(names, names[k]) == k
  {
  }

  lemma {:induction false} RowStart(table: map<string, ColData>, names: seq<string>, cols: seq<Column>, rows: seq<Row>,
                                    x: Row)
    requires NamesOk(names, cols) && Exactly(TableData(table, |rows|), BlockSchema(names, cols), rows)
    ensures RowPartly(table, names, cols, rows, x, 0)
  {
    var schema := BlockSchema(names, cols);
    assert forall c :: c in table <==> c in schema.Keys;
    forall k | 0 <= k < |names| ensures HoldsExactly(table[names[k]], TypeInfo(cols[k]), rows, names[k]) {
      IndexOfName(names, cols, k);
      assert HoldsColumn(table[names[k]], schema[names[k]], rows, names[k]);
    }
  }

  lemma {:induction false} RowStep(table: map<string, ColData>, names: seq<string>, cols: seq<Column>, rows: seq<Row>,
                                   x: Row, j: nat, col: ColData)
    requires NamesOk(names, cols) && j < |names| && RowPartly(table, names, cols, rows, x, j)
    requires HoldsExactly(col, TypeInfo(cols[j]), rows + [x], names[j])
    ensures RowPartly(table[names[j] := col], names, cols, rows, x, j + 1)
  {
  }

  lemma {:induction false} RowDone(table: map<string, ColData>, names: seq<string>, cols: seq<Column>, rows: seq<Row>,
                                   x: Row)
    requires NamesOk(names, cols) && RowPartly(table, names, cols, rows, x, |names|)
    requires HaveKeys(rows + [x], BlockSchema(names, cols).Keys)
    ensures Exactly(TableData(table, |rows| + 1), BlockSchema(names, cols), rows + [x])
  {
    var schema := BlockSchema(names, cols);
    assert table.Keys == schema.Keys;
    forall c | c in schema ensures HoldsExactly(table[c], schema[c], rows + [x], c) {
      var k := IndexOf(names, c);
      assert HoldsExactly(table[names[k]], TypeInfo(cols[k]), rows + [x], names[k]);
    }
  }

  lemma {:induction false} SlotTyped(c: Column, slot: seq<Byte>)
    requires Slotted(c.ty, slot)
    ensures Storable(TypeInfo(c).colType) && TypedAs(DecodeSlot(c.ty, slot), TypeInfo(c).colType)
  {
  }

  lemma {:induction false} PushHolds(col: ColData, c: Column, rows: seq<Row>, name: string, x: Row)
    requires HoldsExactly(col, TypeInfo(c), rows, name)
    requires name in x && TypedAs(x[name].value, TypeInfo(c).colType)
    ensures HoldsExactly(PushTyped(col, ColInfo(col.colType, col.realSize), x[name]), TypeInfo(c), rows + [x], name)
  {
    assert ColInfo(col.colType, col.realSize) == TypeInfo(c);
    PushTypedHolds(col, TypeInfo(c), rows, name, x);
  }

  function Starts(row: seq<Byte>, cols: seq<Column>): seq<int> {
    seq(|cols|, i requires 0 <= i < |cols| => Start(row, cols, i)) + [|row|]
  }

  /** The offset list of a row, closed with the row's length. */
  method ColumnStarts(row: seq<Byte>, cols: seq<Column>) returns (starts: seq<int>)
    requires HeadersInside(row, cols)
    ensures starts == Starts(row, cols)
  {
    var offsets := new int[|cols| + 1];
    GetColOffset(row, offsets, cols);
    offsets[|cols|] := |row|;
    starts := offsets[..];
  }

  /** One row of a block: column offsets, then one value per column. */
  method MergeRow(row: seq<Byte>, names: seq<string>, cols: seq<Column>, table: map<string, ColData>,
                  ghost rows: seq<Row>)
    returns (out: map<string, ColData>)
    requires NamesOk(names, cols) && Decodable(row, cols)
    requires Exactly(TableData(table, |rows|), BlockSchema(names, cols), rows)
    ensures Exactly(TableData(out, |rows| + 1), BlockSchema(names, cols),
      rows + [NamedRow(names, DecodeRow(row, cols))])
  {
    ghost var x := NamedRow(names, DecodeRow(row, cols));
    var starts := ColumnStarts(row, cols);
    out := table;
    RowStart(table, names, cols, rows, x);
    for j := 0 to |cols|
      invariant RowPartly(out, names, cols, rows, x, j)
    {
      out := MergeSlot(row, starts, names, cols, out, rows, x, j);
    }
    RowDone(out, names, cols, rows, x);
  }

  lemma {:induction false} StartsAt(row: seq<Byte>, cols: seq<Column>, j: nat)
    requires j < |cols|
    ensures |Starts(row, cols)| == |cols| + 1
    ensures Starts(row, cols)[j] == Start(row, cols, j) && Starts(row, cols)[j + 1] == SlotEnd(row, cols, j)
  {
  }

  method CutSlot(row: seq<Byte>, starts: seq<int>, cols: seq<Column>, j: nat) returns (slot: seq<Byte>)
    requires Decodable(row, cols) && j < |cols| && starts == Starts(row, cols)
    ensures Slotted(cols[j].ty, slot) && DecodeRow(row, cols)[j] == DecodeSlot(cols[j].ty, slot)
  {
    SlotInside(row, cols, j);
    StartsAt(row, cols, j);
    slot := row[starts[j]..starts[j + 1]];
  }

  method ReadCell(row: seq<Byte>, starts: seq<int>, cols: seq<Column>, j: nat) returns (v: Value)
    requires Decodable(row, cols) && j < |cols| && starts == Starts(row, cols)
    ensures v == DecodeRow(row, cols)[j] && Storable(TypeInfo(cols[j]).colType) && TypedAs(v, TypeInfo(cols[j]).colType)
  {
    var slot := CutSlot(row, starts, cols, j);
    SlotTyped(cols[j], slot);
    v := ReadSlot(cols[j].ty, slot);
  }

  method MergeSlot(row: seq<Byte>, starts: seq<int>, names: seq<string>, cols: seq<Column>, table: map<string, ColData>,
                   ghost rows: seq<Row>, ghost x: Row, j: nat)
    returns (out: map<string, ColData>)
    requires NamesOk(names, cols) && Decodable(row, cols) && j < |cols| && starts == Starts(row, cols)
    requires x == NamedRow(names, DecodeRow(row, cols)) && RowPartly(table, names, cols, rows, x, j)
    ensures RowPartly(out, names, cols, rows, x, j + 1)
  {
    var v := ReadCell(row, starts, cols, j);
    IndexOfName(names, cols, j);
    assert x[names[j]] == Cell(v, false);
    assert HoldsExactly(table[names[j]], TypeInfo(cols[j]), rows, names[j]);
    var col := PushValue(table[names[j]], v);
    PushHolds(table[names[j]], cols[j], rows, names[j], x);
    RowStep(table, names, cols, rows, x, j, col);
    out := table[names[j] := col];
  }

  lemma {:induction false} SlotInside(row: seq<Byte>, cols: seq<Column>, j: nat)
    requires Decodable(row, cols) && j < |cols|
    ensures Start(row, cols, j) <= SlotEnd(row, cols, j) <= |row|
    ensures Slotted(cols[j].ty, row[Start(row, cols, j)..SlotEnd(row, cols, j)])
    ensures DecodeRow(row, cols)[j] == DecodeSlot(cols[j].ty, row[Start(row, cols, j)..SlotEnd(row, cols, j)])
  {
  }

  // ------------------------------------------------------------------ the object

  class WorkBuffer {
    var status: WorkStatus
    var tableColumn: seq<string>
    var tableData: map<string, ColData>
    var totalBlockCount: int
    var mergedBlockCount: int
    var rowCount: int
    var queue: seq<Block>
    var result: Option<Block>    // the block in the hands of the merging thread
    ghost var cols: seq<Column>
    ghost var pushed: seq<Block>
    ghost var merged: seq<Block>

    ghost function State(): Buffer
      reads this
    {
      Buffer(status, tableColumn, cols, totalBlockCount, mergedBlockCount, queue, result, pushed, merged)
    }

    /** Columns are aligned and hold the rows of the merged blocks, in order. */
    ghost predicate Valid()
      reads this
    {
      && Inv(State())
      && if pushed == [] then tableColumn == [] && tableData == map[] && rowCount == 0
         else Exactly(TableData(tableData, rowCount), BlockSchema(tableColumn, cols), RowsIn(State()))
    }

    constructor ()
      ensures Valid() && State() == NEW_BUFFER
    {
      status, tableColumn, tableData := Initialized, [], map[];
      totalBlockCount, mergedBlockCount, rowCount := 0, 0, 0;
      queue, result := [], None;
      cols, pushed, merged := [], [], [];
    }

    /** `pushResult`. */
    method PushResult(b: Block)
      requires Valid() && Enabled(State(), Push(b))
      modifies this
      ensures Valid() && State() == Next(old(State()), Push(b))
    {
      InvStep(State(), Push(b));
      PushKeepsRows(State(), b);
      if status.Initialized? {
        SetUp(b);
      }
      queue := queue + [b];
      pushed := pushed + [b];
    }

    /** The first block names and types the columns. */
    method SetUp(b: Block)
      requires tableColumn == [] && tableData == map[] && NamesOk(b.names, b.cols)
      modifies this`tableColumn, this`tableData, this`totalBlockCount, this`status, this`cols
      ensures tableColumn == b.names && cols == b.cols && totalBlockCount == b.total && status == NotFinished
      ensures Exactly(TableData(tableData, 0), BlockSchema(b.names, b.cols), [])
    {
      for i := 0 to |b.names|
        invariant tableColumn == b.names[..i]
        invariant forall c :: c in tableData <==> c in b.names[..i]
        invariant forall c :: c in tableData ==> tableData[c] == EMPTY_COLUMN
      {
        assert b.names[..i + 1] == b.names[..i] + [b.names[i]];
        tableColumn := tableColumn + [b.names[i]];
        tableData := tableData[b.names[i] := EMPTY_COLUMN];
      }
      assert b.names[..|b.names|] == b.names;
      SaveTableColumnType(b.cols);
      totalBlockCount := b.total;
      cols := b.cols;
      status := NotFinished;
    }

    /** `save_table_column_type`. */
    method SaveTableColumnType(types: seq<Column>)
      requires NamesOk(tableColumn, types)
      requires forall c :: c in tableData <==> c in tableColumn
      requires forall c :: c in tableData ==> tableData[c] == EMPTY_COLUMN
      modifies this`tableData
      ensures Exactly(TableData(tableData, 0), BlockSchema(tableColumn, types), [])
    {
      for i := 0 to |tableColumn|
        invariant TypesSoFar(tableData, tableColumn, types, i)
      {
        var c := tableColumn[i];
        var col := SetType(tableData[c], types[i]);
        TypesStep(tableData, tableColumn, types, i, col);
        tableData := tableData[c := col];
      }
      TypedColumns(tableData, tableColumn, types);
    }

    /** `wait_and_pop` once it does not have to wait. */
    method WaitAndPop()
      requires Valid() && Enabled(State(), Pop)
      modifies this
      ensures Valid() && State() == Next(old(State()), Pop)
    {
      InvStep(State(), Pop);
      result := Some(queue[0]);
      queue := queue[1..];
    }

    /** The body of `mergeResult` after the pop. */
    method MergeResult()
      requires Valid() && Enabled(State(), Merge)
      modifies this
      ensures Valid() && State() == Next(old(State()), Merge)
    {
      ghost var s := State();
      var b := result.value;
      CurrentIsOk(s);
      InvStep(s, Merge);
      MergeBlock(b, s);
      CountBlock(b);
      assert State() == Next(s, Merge);
    }

    /** The bookkeeping behind the rows. */
    method CountBlock(b: Block)
      requires State().current == Some(b)
      modifies this`mergedBlockCount, this`merged, this`result, this`status
      ensures State() == Next(old(State()), Merge)
    {
      mergedBlockCount := mergedBlockCount + b.count;
      merged := merged + [b];
      result := None;
      if mergedBlockCount == totalBlockCount {
        status := WorkDone;
      }
    }

    /** Its rows, if there are any bytes, and its row count. */
    method MergeBlock(b: Block, ghost s: Buffer)
      requires s.current == Some(b) && Inv(s) && BlockOk(b, s.cols) && Inv(Next(s, Merge))
      requires s.names == tableColumn && s.cols == cols
      requires Exactly(TableData(tableData, rowCount), BlockSchema(tableColumn, cols), RowsIn(s))
      modifies this`tableData, this`rowCount
      ensures Exactly(TableData(tableData, rowCount), BlockSchema(tableColumn, cols), RowsIn(Next(s, Merge)))
    {
      MergeAddsRows(s);
      tableData := MergeBytes(b, tableColumn, tableData, RowsIn(s), RowsIn(Next(s, Merge)));
      rowCount := rowCount + b.rowCount;
    }

    /** `getTableData` once it does not have to wait: enough unread rows, or no
        more to come. */
    method GetTableData(rowIndex: nat) returns (snap: Snapshot)
      requires Valid() && (rowCount - rowIndex >= BATCH_ROWS || status.WorkDone?)
      ensures ReadsAt(State(), snap, rowIndex)
    {
      snap := Snapshot(TableData(tableData, rowCount), status);
    }
  }

  /** The rows of a block that has any bytes. */
  method MergeBytes(b: Block, names: seq<string>, table: map<string, ColData>, ghost rows: seq<Row>,
                    ghost after: seq<Row>)
    returns (out: map<string, ColData>)
    requires NamesOk(names, b.cols) && BlockOk(b, b.cols) && after == rows + BlockRows(b, names)
    requires b.data == [] ==> after == rows
    requires Exactly(TableData(table, |rows|), BlockSchema(names, b.cols), rows)
    ensures Exactly(TableData(out, |rows| + b.rowCount), BlockSchema(names, b.cols), after)
  {
    out := table;
    if |b.data| != 0 {
      out := MergeRows(b, names, table, rows);
    }
  }

  lemma {:induction false} PushKeepsRows(s: Buffer, b: Block)
    requires Inv(s) && Enabled(s, Push(b)) && Inv(Next(s, Push(b)))
    ensures RowsIn(Next(s, Push(b))) == if s.status.Initialized? then [] else RowsIn(s)
  {
  }

  lemma {:induction false} MergeAddsRows(s: Buffer)
    requires Inv(s) && s.current.Some? && BlockOk(s.current.value, s.cols) && Inv(Next(s, Merge))
    ensures RowsIn(Next(s, Merge)) == RowsIn(s) + BlockRows(s.current.value, s.names)
    ensures s.current.value.data == [] ==> RowsIn(Next(s, Merge)) == RowsIn(s) && s.current.value.rowCount == 0
  {
    MergedAreOk(s);
    assert Next(s, Merge).merged[..|s.merged|] == s.merged;
  }

  lemma {:induction false} CurrentIsOk(s: Buffer)
    requires Inv(s) && s.current.Some?
    ensures s.pushed != [] && BlockOk(s.current.value, s.cols)
  {
    assert s.current.value == s.pushed[|s.merged|];
  }

  method SetType(col: ColData, t: Column) returns (out: ColData)
    ensures out == col.(colType := TypeInfo(t).colType,
                        realSize := if t.ty.DecimalField? then (t.length - 6) * 2 else col.realSize)
  {
    match t.ty {
      case ByteField => out := col.(colType := TypeInt);
      case Int16Field => out := col.(colType := TypeInt);
      case Int32Field => out := col.(colType := TypeInt);
      case Int64Field => out := col.(colType := TypeInt);
      case TimestampField => out := col.(colType := TypeInt);
      case Float32Field => out := col.(colType := TypeFloat);
      case DoubleField => out := col.(colType := TypeFloat);
      case DecimalField =>
        out := col.(colType := TypeFloat);
        out := out.(realSize := (t.length - 6) * 2);
      case DateField => out := col.(colType := TypeDate);
      case TextField => out := col.(colType := TypeString);
      case VarTextField => out := col.(colType := TypeString);
    }
  }

  function TypedEmpty(c: Column): ColData {
    EMPTY_COLUMN.(colType := TypeInfo(c).colType, realSize := TypeInfo(c).realSize)
  }

  /** The first `i` columns have their types. */
  ghost predicate TypesSoFar(table: map<string, ColData>, names: seq<string>, types: seq<Column>, i: nat)
    requires |names| == |types| && i <= |names|
  {
    && (forall c :: c in table <==> c in names)
    && (forall k :: 0 <= k < i ==> table[names[k]] == TypedEmpty(types[k]))
    && forall k :: i <= k < |names| ==> table[names[k]] == EMPTY_COLUMN
  }

  lemma {:induction false} TypesStep(table: map<string, ColData>, names: seq<string>, types: seq<Column>, i: nat,
                                     col: ColData)
    requires NamesOk(names, types) && i < |names| && TypesSoFar(table, names, types, i) && col == TypedEmpty(types[i])
    ensures TypesSoFar(table[names[i] := col], names, types, i + 1)
  {
  }

  lemma {:induction false} TypedColumns(table: map<string, ColData>, names: seq<string>, cols: seq<Column>)
    requires NamesOk(names, cols) && forall c :: c in table <==> c in names
    requires forall k :: 0 <= k < |names| ==> table[names[k]] == TypedEmpty(cols[k])
    ensures Exactly(TableData(table, 0), BlockSchema(names, cols), [])
  {
    var schema := BlockSchema(names, cols);
    assert table.Keys == schema.Keys;
    forall c | c in schema ensures HoldsExactly(table[c], schema[c], [], c) {
      var k := IndexOf(names, c);
      assert table[names[k]].colType == TypeInfo(cols[k]).colType;
    }
  }

  /** `rows[i]` is row `i` of the block. */
  ghost predicate AreRows(rows: seq<Row>, b: Block, names: seq<string>)
    requires |names| == |b.cols|
  {
    && |rows| == b.rowCount
    && forall i {:trigger RowOk(b, i)} :: 0 <= i < b.rowCount ==> RowOk(b, i) && rows[i] == BlockRow(b, names, i)
  }

  /** `holds` says of columns that they hold exactly some rows. */
  ghost predicate Tells(holds: (map<string, ColData>, seq<Row>) -> bool, schema: Schema) {
    forall t: map<string, ColData>, rows: seq<Row> {:trigger Exactly(TableData(t, |rows|), schema, rows)} ::
      holds(t, rows) <==> Exactly(TableData(t, |rows|), schema, rows)
  }

  /** Row `i` of a block, between two entries of the offset list. */
  method MergeRowAt(b: Block, i: nat, ends: seq<int>, names: seq<string>, table: map<string, ColData>,
                    ghost rows: seq<Row>, ghost more: seq<Row>, ghost holds: (map<string, ColData>, seq<Row>) -> bool)
    returns (out: map<string, ColData>)
    requires NamesOk(names, b.cols) && AreRows(more, b, names) && i < b.rowCount && ends == b.offsets + [|b.data|]
    requires Tells(holds, BlockSchema(names, b.cols)) && holds(table, rows)
    ensures holds(out, rows + [more[i]])
  {
    assert RowOk(b, i) && ends[i + 1] == RowEnd(b, i);
    assert more[i] == BlockRow(b, names, i);
    assert Exactly(TableData(table, |rows|), BlockSchema(names, b.cols), rows);
    out := MergeRow(b.data[b.offsets[i]..ends[i + 1]], names, b.cols, table, rows);
    assert Exactly(TableData(out, |rows + [more[i]]|), BlockSchema(names, b.cols), rows + [more[i]]);
  }

  /** The row loop of `mergeResult`. */
  method MergeAll(b: Block, names: seq<string>, table: map<string, ColData>, ghost rows: seq<Row>, ghost more: seq<Row>,
                  ghost holds: (map<string, ColData>, seq<Row>) -> bool)
    returns (out: map<string, ColData>)
    requires NamesOk(names, b.cols) && AreRows(more, b, names)
    requires Tells(holds, BlockSchema(names, b.cols)) && holds(table, rows)
    ensures holds(out, rows + more)
  {
    out := table;
    var ends := b.offsets + [|b.data|];
    ghost var so := rows;
    for i := 0 to b.rowCount
      invariant so == rows + more[..i]
      invariant holds(out, so)
    {
      out := MergeRowAt(b, i, ends, names, out, so, more, holds);
      so := so + [more[i]];
    }
    assert so == rows + more;
  }

  method MergeRows(b: Block, names: seq<string>, table: map<string, ColData>, ghost rows: seq<Row>)
    returns (out: map<string, ColData>)
    requires NamesOk(names, b.cols) && BlockOk(b, b.cols)
    requires Exactly(TableData(table, |rows|), BlockSchema(names, b.cols), rows)
    ensures Exactly(TableData(out, |rows| + b.rowCount), BlockSchema(names, b.cols), rows + BlockRows(b, names))
  {
    ghost var schema, more := BlockSchema(names, b.cols), BlockRows(b, names);
    ghost var holds := (t: map<string, ColData>, rs: seq<Row>) => Exactly(TableData(t, |rs|), schema, rs);
    assert holds(table, rows);
    out := MergeAll(b, names, table, rows, more, holds);
    assert Exactly(TableData(out, |rows + more|), schema, rows + more);
  }
}
