/** From a finished target table to the saved result: GROUP BY, one result row
    per group, ORDER BY. */
module ResultPipeline {
  import opened Tables
  import opened Keys
  import opened Filters
  import opened Grouping
  import opened Aggregates
  import opened Ordering
  import opened Permutations
  import opened Projections
  import opened Trimming

  // -------------------------------------------------------- trimming in place

  function TrimCell(col: ColData, r: nat): ColData
    requires Storable(col.colType) && Aligned(col, col.rowCount) && r < col.rowCount
  {
    if col.colType.TypeString? then col.(strvec := col.strvec[r := Trim(col.strvec[r])]) else col
  }

  function TrimTable(t: TableData, r: nat, groups: seq<string>): TableData
    requires WellFormed(t) && r < t.rowCount
  {
    t.(columns := map c | c in t.columns :: if c in groups then TrimCell(t.columns[c], r) else t.columns[c])
  }

  lemma {:induction false} TrimTableRows(t: TableData, r: nat, groups: seq<string>)
    requires WellFormed(t) && r < t.rowCount
    ensures var u := TrimTable(t, r, groups);
      && WellFormed(u) && SchemaOf(u) == SchemaOf(t)
      && Rows(u) == Rows(t)[r := TrimRow(RowAt(t, r), groups)]
  {
    var u := TrimTable(t, r, groups);
    assert WellFormed(u);
    assert SchemaOf(u) == SchemaOf(t);
    forall k | 0 <= k < t.rowCount
      ensures RowAt(u, k) == if k == r then TrimRow(RowAt(t, r), groups) else RowAt(t, k)
    {
      TrimmedRowAt(t, r, groups, k);
    }
  }

  lemma {:induction false} TrimmedRowAt(t: TableData, r: nat, groups: seq<string>, k: nat)
    requires WellFormed(t) && r < t.rowCount && k < t.rowCount
    requires WellFormed(TrimTable(t, r, groups))
    ensures RowAt(TrimTable(t, r, groups), k) == if k == r then TrimRow(RowAt(t, r), groups) else RowAt(t, k)
  {
    var u := TrimTable(t, r, groups);
    var want := if k == r then TrimRow(RowAt(t, r), groups) else RowAt(t, k);
    assert RowAt(u, k).Keys == want.Keys;
    forall c | c in t.columns ensures RowAt(u, k)[c] == want[c] {
    }
  }

  // ------------------------------------------------------------------- groups

  /** The columns of a group table once its types are set. */
  function Typed(cols: map<string, ColData>, schema: Schema): map<string, ColData> {
    map c | c in schema :: ColumnOr(cols, c).(colType := schema[c].colType)
  }

  ghost predicate GroupHolds(g: TableData, schema: Schema, rows: seq<Row>) {
    && g.rowCount == |rows|
    && (forall c :: c in g.columns ==> c in schema)
    && (rows != [] ==> forall c :: c in schema ==> c in g.columns)
    && HoldsColumns(Typed(g.columns, schema), schema, rows)
    && HaveKeys(rows, schema.Keys)
  }

  lemma {:induction false} EmptyGroupHolds(schema: Schema)
    requires forall c :: c in schema ==> Storable(schema[c].colType)
    ensures GroupHolds(EMPTY_TABLE, schema, [])
  {
  }

  lemma {:induction false} PushIntoGroup(g: TableData, schema: Schema, rows: seq<Row>, row: Row)
    requires GroupHolds(g, schema, rows)
    requires TypedRow(row, schema) && row.Keys == schema.Keys
    ensures GroupHolds(TableData(PushCells(g.columns, schema, row), g.rowCount + 1), schema, rows + [row])
  {
    var cols := PushCells(g.columns, schema, row);
    PushCellsHolds(Typed(g.columns, schema), schema, rows, row);
    TypedPush(g.columns, schema, row);
    assert HoldsColumns(Typed(cols, schema), schema, rows + [row]);
    assert cols.Keys == schema.Keys;
    MoreKeys(rows, row, schema.Keys);
  }

  lemma {:induction false} MoreKeys(rows: seq<Row>, row: Row, names: set<string>)
    requires HaveKeys(rows, names) && row.Keys == names
    ensures HaveKeys(rows + [row], names)
  {
  }

  lemma {:induction false} RetypeCommutes(d: ColData, info: ColInfo, cell: Cell, t: VectorType)
    requires Storable(info.colType) && TypedAs(cell.value, info.colType)
    ensures PushTyped(d, info, cell).(colType := t) == PushTyped(d.(colType := t), info, cell)
  {
  }

  lemma {:induction false} TypedPush(cols: map<string, ColData>, schema: Schema, row: Row)
    requires TypedRow(row, schema)
    ensures Typed(PushCells(cols, schema, row), schema) == PushCells(Typed(cols, schema), schema, row)
    ensures PushCells(cols, schema, row).Keys == cols.Keys + schema.Keys
  {
    var a, b := Typed(PushCells(cols, schema, row), schema), PushCells(Typed(cols, schema), schema, row);
    assert a.Keys == b.Keys == schema.Keys;
    forall c | c in schema ensures a[c] == b[c] {
      RetypeCommutes(ColumnOr(cols, c), schema[c], row[c], schema[c].colType);
    }
  }

  /** The final loop: every group column gets the type of the source column. */
  method SetGroupTypes(g: TableData, src: TableData) returns (out: TableData)
    ensures out == g.(columns := SetTypes(g.columns, src))
  {
    var cols := CopyTypes(g.columns, src);
    out := g.(columns := cols);
  }

  lemma {:induction false} TypedGroup(g: TableData, src: TableData, rows: seq<Row>)
    requires WellFormed(src) && rows != [] && GroupHolds(g, SchemaOf(src), rows)
    ensures Represents(g.(columns := SetTypes(g.columns, src)), SchemaOf(src), rows)
  {
    assert SetTypes(g.columns, src) == Typed(g.columns, SchemaOf(src));
  }

  /** The groups of `rows`: one table per key, in the order of `KeysOf`; the key
      map sends the i-th key to i. */
  ghost predicate GroupsHold(dest: seq<TableData>, index: map<string, int>, schema: Schema, rows: seq<Row>,
                             groups: seq<string>)
  {
    var ks := KeysOf(rows, groups);
    && |dest| == |ks|
    && IndexOfKeys(index, ks)
    && forall i :: 0 <= i < |dest| ==> GroupHolds(dest[i], schema, GroupOf(rows, groups, ks[i]))
  }

  /** The key map is a bijection between the keys and the group indices. */
  ghost predicate IndexOfKeys(index: map<string, int>, ks: seq<string>) {
    && (forall k :: k in index <==> k in ks)
    && forall i :: 0 <= i < |ks| ==> ks[i] in index && index[ks[i]] == i
  }

  lemma {:induction false} ExistingGroup(dest: seq<TableData>, index: map<string, int>, schema: Schema, rows: seq<Row>,
                                         groups: seq<string>,
                      x: Row, g: TableData)
    requires GroupsHold(dest, index, schema, rows, groups)
    requires Distinct(KeysOf(rows, groups))
    requires GroupKey(x, groups) in index
    requires 0 <= index[GroupKey(x, groups)] < |dest|
    requires GroupHolds(g, schema, GroupOf(rows, groups, GroupKey(x, groups)) + [TrimRow(x, groups)])
    ensures GroupsHold(dest[index[GroupKey(x, groups)] := g], index, schema, rows + [x], groups)
  {
    var ks, key := KeysOf(rows, groups), GroupKey(x, groups);
    KeysOfStep(rows, x, groups);
    var j := index[key];
    var k :| 0 <= k < |ks| && ks[k] == key;
    assert j == k;
    forall i | 0 <= i < |dest|
      ensures GroupHolds(dest[j := g][i], schema, GroupOf(rows + [x], groups, ks[i]))
    {
      GroupOfSnoc(rows, x, groups, ks[i]);
    }
  }

  lemma {:induction false} NewIndex(index: map<string, int>, ks: seq<string>, key: string)
    requires IndexOfKeys(index, ks) && key !in index
    ensures IndexOfKeys(index[key := |ks|], ks + [key])
  {
  }

  lemma {:induction false} NewGroup(dest: seq<TableData>, index: map<string, int>, schema: Schema, rows: seq<Row>,
                                    groups: seq<string>,
                 x: Row, g: TableData)
    requires GroupsHold(dest, index, schema, rows, groups)
    requires GroupKey(x, groups) !in index
    requires GroupHolds(g, schema, [TrimRow(x, groups)])
    ensures GroupsHold(dest + [g], index[GroupKey(x, groups) := |dest|], schema, rows + [x], groups)
  {
    var ks, key := KeysOf(rows, groups), GroupKey(x, groups);
    KeysOfStep(rows, x, groups);
    NewIndex(index, ks, key);
    GroupOfNonEmpty(rows, groups, key);
    GroupOfSnoc(rows, x, groups, key);
    assert [] + [TrimRow(x, groups)] == [TrimRow(x, groups)];
    forall i | 0 <= i < |dest|
      ensures GroupHolds(dest[i], schema, GroupOf(rows + [x], groups, ks[i]))
    {
      GroupOfSnoc(rows, x, groups, ks[i]);
    }
  }

  class ResultPipeline {
    var targetTable: TableData
    var groupByKey: map<string, int>
    var groupByTable: seq<TableData>
    var resultTable: TableData

    constructor (t: TableData)
      ensures targetTable == t && groupByKey == map[] && groupByTable == [] && resultTable == EMPTY_TABLE
    {
      targetTable, groupByKey, groupByTable, resultTable := t, map[], [], EMPTY_TABLE;
    }

    /** `makeGroupbyKey`: builds the key of row `r` and, because `trim` takes a
        reference, trims the row's string group columns in the table itself. */
    method MakeGroupbyKey(groups: seq<string>, r: nat) returns (key: string)
      requires WellFormed(targetTable) && r < targetTable.rowCount
      requires forall k :: 0 <= k < |groups| ==> groups[k] in targetTable.columns
      modifies this`targetTable
      ensures key == GroupKey(old(RowAt(targetTable, r)), groups)
      ensures targetTable == old(TrimTable(targetTable, r, groups))
    {
      key := "";
      ghost var t, row := targetTable, RowAt(targetTable, r);
      assert TrimTable(t, r, []) == t;
      for g := 0 to |groups|
        invariant targetTable == TrimTable(t, r, groups[..g])
        invariant key == GroupKey(row, groups[..g])
      {
        var c := groups[g];
        assert groups[..g + 1] == groups[..g] + [c];
        GroupKeyStep(row, groups[..g], c);
        key := AppendGroupPart(c, r, key, groups[..g], t);
      }
      assert groups[..|groups|] == groups;
    }

    /** The `switch` over the column type: one part of the key. */
    method AppendGroupPart(c: string, r: nat, key: string, ghost done: seq<string>, ghost t: TableData)
      returns (longer: string)
      requires WellFormed(t) && r < t.rowCount && c in t.columns && targetTable == TrimTable(t, r, done)
      modifies this`targetTable
      ensures targetTable == TrimTable(t, r, done + [c])
      ensures longer == key + JoinKey(KeyPart(TrimValue(Get(RowAt(t, r), c)), true))
    {
      TrimOneMore(t, r, done, c);
      TrimTableRows(t, r, done);
      longer := key;
      var col := targetTable.columns[c];
      match col.colType {
        case TypeString =>
          var trimmed := Trim(col.strvec[r]);
          targetTable := targetTable.(columns := targetTable.columns[c := col.(strvec := col.strvec[r := trimmed])]);
          longer := longer + "|" + trimmed;
          JoinKeySingle(key, trimmed);
        case TypeInt =>
          longer := longer + "|" + ToString(col.intvec[r]);
          JoinKeySingle(key, ToString(col.intvec[r]));
        case TypeDate =>
          longer := longer + "|" + ToString(col.intvec[r]);
          JoinKeySingle(key, ToString(col.intvec[r]));
        case TypeFloat =>
          longer := longer + "|" + FloatToString(col.floatvec[r]);
          JoinKeySingle(key, FloatToString(col.floatvec[r]));
        case _ =>
      }
      assert col.colType.TypeString? || targetTable.columns[c := TrimCell(col, r)] == targetTable.columns;
    }

    /** `GroupBy`: one pass over the rows. */
    method GroupBy(groups: seq<string>)
      requires WellFormed(targetTable) && groupByKey == map[] && groupByTable == []
      requires forall k :: 0 <= k < |groups| ==> groups[k] in targetTable.columns
      modifies this`targetTable, this`groupByKey, this`groupByTable
      ensures old(targetTable.rowCount) == 0 ==> groupByTable == [old(targetTable)]
      ensures old(targetTable.rowCount) > 0 ==> Grouped(groupByTable, old(targetTable), groups)
      ensures old(targetTable.rowCount) > 0 ==> IndexOfKeys(groupByKey, KeysOf(Rows(old(targetTable)), groups))
    {
      ghost var t := targetTable;
      if targetTable.rowCount == 0 {
        groupByTable := groupByTable + [targetTable];
        return;
      }
      ghost var rows, schema := Rows(t), SchemaOf(t);
      var n := targetTable.rowCount;
      for r := 0 to n
        invariant TrimmedSoFar(targetTable, t, groups, r)
        invariant GroupsHold(groupByTable, groupByKey, schema, rows[..r], groups)
      {
        GroupOneRow(groups, r, t, rows, schema);
      }
      assert rows[..n] == rows;
      FinishGroups(t, groups);
    }

    method GroupOneRow(groups: seq<string>, r: nat, ghost t: TableData, ghost rows: seq<Row>, ghost schema: Schema)
      requires WellFormed(t) && rows == Rows(t) && schema == SchemaOf(t) && r < t.rowCount
      requires forall k :: 0 <= k < |groups| ==> groups[k] in t.columns
      requires TrimmedSoFar(targetTable, t, groups, r)
      requires GroupsHold(groupByTable, groupByKey, schema, rows[..r], groups)
      modifies this`targetTable, this`groupByKey, this`groupByTable
      ensures TrimmedSoFar(targetTable, t, groups, r + 1)
      ensures GroupsHold(groupByTable, groupByKey, schema, rows[..r + 1], groups)
    {
      TrimOneRow(targetTable, t, groups, r);
      var key := MakeGroupbyKey(groups, r);
      assert rows[..r + 1] == rows[..r] + [rows[r]];
      PlaceRow(key, r, rows[..r], rows[r], groups, schema);
    }

    /** Row `r` goes to the group of its key, or opens a new one. */
    method PlaceRow(key: string, r: nat, ghost before: seq<Row>, ghost x: Row, ghost groups: seq<string>,
                    ghost schema: Schema)
      requires WellFormed(targetTable) && r < targetTable.rowCount && schema == SchemaOf(targetTable)
      requires RowAt(targetTable, r) == TrimRow(x, groups) && key == GroupKey(x, groups)
      requires GroupsHold(groupByTable, groupByKey, schema, before, groups)
      modifies this`groupByKey, this`groupByTable
      ensures GroupsHold(groupByTable, groupByKey, schema, before + [x], groups)
    {
      if key !in groupByKey {
        var g := ExtendGroup(EMPTY_TABLE, r, schema, [], TrimRow(x, groups));
        assert [] + [TrimRow(x, groups)] == [TrimRow(x, groups)];
        NewGroup(groupByTable, groupByKey, schema, before, groups, x, g);
        groupByKey := groupByKey[key := |groupByTable|];
        groupByTable := groupByTable + [g];
      } else {
        var i := groupByKey[key];
        GroupOfIndex(groupByTable, groupByKey, schema, before, groups, key);
        GroupOfNonEmpty(before, groups, key);
        var g := ExtendGroup(groupByTable[i], r, schema, GroupOf(before, groups, key), TrimRow(x, groups));
        KeysOfRows(before, groups);
        ExistingGroup(groupByTable, groupByKey, schema, before, groups, x, g);
        groupByTable := groupByTable[i := g];
      }
    }

    /** The column loop of `GroupBy`: row `r` pushed onto a group table. */
    method ExtendGroup(g: TableData, r: nat, ghost schema: Schema, ghost rows: seq<Row>, ghost row: Row)
      returns (out: TableData)
      requires WellFormed(targetTable) && r < targetTable.rowCount && schema == SchemaOf(targetTable)
      requires row == RowAt(targetTable, r)
      requires if rows == [] then g == EMPTY_TABLE else GroupHolds(g, schema, rows)
      ensures GroupHolds(out, schema, rows + [row])
    {
      if rows == [] {
        EmptyGroupHolds(schema);
      }
      RowsAreTyped(targetTable, r, r);
      OwnFlags(targetTable, r);
      PushIntoGroup(g, schema, rows, row);
      var cols := PushColumns(g.columns, targetTable, r, r);
      out := TableData(cols, g.rowCount + 1);
    }

    method FinishGroups(ghost t: TableData, groups: seq<string>)
      requires WellFormed(t) && TrimmedSoFar(targetTable, t, groups, t.rowCount)
      requires GroupsHold(groupByTable, groupByKey, SchemaOf(t), Rows(t), groups)
      modifies this`groupByTable
      ensures Grouped(groupByTable, t, groups)
    {
      ghost var ks, schema := KeysOf(Rows(t), groups), SchemaOf(t);
      for i := 0 to |groupByTable|
        invariant |groupByTable| == |ks|
        invariant forall j :: 0 <= j < i ==> Represents(groupByTable[j], schema, GroupOf(Rows(t), groups, ks[j]))
        invariant forall j :: i <= j < |ks| ==> GroupHolds(groupByTable[j], schema, GroupOf(Rows(t), groups, ks[j]))
      {
        GroupOfNonEmpty(Rows(t), groups, ks[i]);
        TypedGroup(groupByTable[i], targetTable, GroupOf(Rows(t), groups, ks[i]));
        var g := SetGroupTypes(groupByTable[i], targetTable);
        groupByTable := groupByTable[i := g];
      }
    }

    /** `Aggregation` over the group tables: one result row per key. */
    method AggregateGroups(ps: seq<Projection>, alias: seq<string>, ghost infos: seq<ColInfo>,
                           ghost t: TableData, ghost groups: seq<string>)
      requires WellFormed(t) && Grouped(groupByTable, t, groups) && resultTable == EMPTY_TABLE
      requires |alias| == |ps| == |infos| && ps != [] && DistinctNames(alias)
      requires AllFit(ps, infos, t, groups)
      modifies this`resultTable
      ensures ResultHolds(resultTable, ResultSchema(alias, infos, |ps|), ResultRows(t, groups, ps, alias))
    {
      ghost var ks, f := KeysOf(Rows(t), groups), RowOfKey(t, groups, ps, alias);
      for i := 0 to |groupByTable|
        invariant ResultHolds(resultTable, ResultSchema(alias, infos, |ps|), MapSeq(ks[..i], f))
      {
        NextResult(t, groups, ps, alias, i);
        ResultIsWellFormed(resultTable, ResultSchema(alias, infos, |ps|), MapSeq(ks[..i], f));
        resultTable := AggregateGroup(groupByTable[i], ps, alias, infos, resultTable, SchemaOf(t),
          GroupOf(Rows(t), groups, ks[i]));
      }
      assert ks[..|ks|] == ks;
    }

    /** GROUP BY and the aggregation of its groups: one result row per key. */
    method GroupAndAggregate(groups: seq<string>, ps: seq<Projection>, alias: seq<string>, ghost infos: seq<ColInfo>)
      requires WellFormed(targetTable) && groupByKey == map[] && groupByTable == [] && resultTable == EMPTY_TABLE
      requires forall k :: 0 <= k < |groups| ==> groups[k] in targetTable.columns
      requires |alias| == |ps| == |infos| && ps != [] && DistinctNames(alias)
      requires AllFit(ps, infos, targetTable, groups)
      modifies this
      ensures old(targetTable.rowCount) == 0 ==> Bare(resultTable, alias)
      ensures old(targetTable.rowCount) > 0 ==>
        && Represents(resultTable, ResultSchema(alias, infos, |ps|), ResultRows(old(targetTable), groups, ps, alias))
        && WellFormed(resultTable) && Rows(resultTable) == ResultRows(old(targetTable), groups, ps, alias)
    {
      ghost var t := targetTable;
      var empty := targetTable.rowCount == 0;
      GroupBy(groups);
      if empty {
        resultTable := AggregateNothing(alias, resultTable);
        return;
      }
      AggregateGroups(ps, alias, infos, t, groups);
      SomeResult(t, groups, ps, alias);
      RepresentsRows(resultTable, ResultSchema(alias, infos, |ps|), ResultRows(t, groups, ps, alias));
    }
  }

  /** The group tables represent the groups, in the order of the keys. */
  ghost predicate Grouped(dest: seq<TableData>, t: TableData, groups: seq<string>)
    requires WellFormed(t)
  {
    var ks := KeysOf(Rows(t), groups);
    && |dest| == |ks|
    && forall i :: 0 <= i < |ks| ==> Represents(dest[i], SchemaOf(t), GroupOf(Rows(t), groups, ks[i]))
  }

  /** The table while grouping: the first `r` rows trimmed, the rest as before. */
  ghost predicate TrimmedSoFar(now: TableData, t: TableData, groups: seq<string>, r: nat)
    requires WellFormed(t) && r <= t.rowCount
  {
    && WellFormed(now) && now.rowCount == t.rowCount && SchemaOf(now) == SchemaOf(t)
    && forall k :: 0 <= k < t.rowCount ==> RowAt(now, k) == if k < r then TrimRow(RowAt(t, k), groups) else RowAt(t, k)
  }

  lemma {:induction false} TrimOneRow(now: TableData, t: TableData, groups: seq<string>, r: nat)
    requires WellFormed(t) && r < t.rowCount && TrimmedSoFar(now, t, groups, r)
    ensures TrimmedSoFar(TrimTable(now, r, groups), t, groups, r + 1)
    ensures now.columns.Keys == t.columns.Keys
  {
    TrimTableRows(now, r, groups);
    assert now.columns.Keys == SchemaOf(now).Keys;
    forall k | 0 <= k < t.rowCount
      ensures RowAt(TrimTable(now, r, groups), k) == if k < r + 1 then TrimRow(RowAt(t, k), groups) else RowAt(t, k)
    {
      TrimmedRowAt(now, r, groups, k);
    }
  }

  lemma {:induction false} TrimOneMore(t: TableData, r: nat, groups: seq<string>, c: string)
    requires WellFormed(t) && r < t.rowCount && c in t.columns
    ensures var u := TrimTable(t, r, groups);
      && WellFormed(u) && c in u.columns && u.columns[c].colType == t.columns[c].colType
      && u.(columns := u.columns[c := TrimCell(u.columns[c], r)]) == TrimTable(t, r, groups + [c])
      && TrimValue(ValueAt(u.columns[c], r)) == TrimValue(Get(RowAt(t, r), c))
  {
    TrimTableRows(t, r, groups);
    var u, col := TrimTable(t, r, groups), t.columns[c];
    if col.colType.TypeString? {
      TrimIdempotent(col.strvec[r]);
      assert col.strvec[r := Trim(col.strvec[r])][r := Trim(col.strvec[r])] == col.strvec[r := Trim(col.strvec[r])];
    }
    assert TrimCell(TrimCell(col, r), r) == TrimCell(col, r);
    assert u.columns[c := TrimCell(u.columns[c], r)] == TrimTable(t, r, groups + [c]).columns;
  }

  lemma {:induction false} GroupKeyStep(row: Row, groups: seq<string>, c: string)
    ensures GroupKey(row, groups + [c]) == GroupKey(row, groups) + JoinKey(KeyPart(TrimValue(Get(row, c)), true))
  {
    assert (groups + [c])[..|groups|] == groups;
    JoinKeyAppend(GroupParts(row, groups), KeyPart(TrimValue(Get(row, c)), true));
  }

  lemma {:induction false} GroupOfIndex(dest: seq<TableData>, index: map<string, int>, schema: Schema, rows: seq<Row>,
                                        groups: seq<string>, key: string)
    requires GroupsHold(dest, index, schema, rows, groups) && key in index
    ensures 0 <= index[key] < |dest| && key in KeysOf(rows, groups)
    ensures GroupHolds(dest[index[key]], schema, GroupOf(rows, groups, key))
  {
    var ks := KeysOf(rows, groups);
    var k :| 0 <= k < |ks| && ks[k] == key;
  }

  // ------------------------------------------------------------- result rows

  /** The result row of a key. */
  function RowOfKey(t: TableData, groups: seq<string>, ps: seq<Projection>, alias: seq<string>): string -> Row
    requires WellFormed(t) && |ps| == |alias|
  {
    var rows, schema := Rows(t), SchemaOf(t);
    (key: string) => if GroupOf(rows, groups, key) == [] then map[]
      else AggRow(ps, alias, schema, GroupOf(rows, groups, key))
  }

  /** One row per key, in order of first appearance. */
  function ResultRows(t: TableData, groups: seq<string>, ps: seq<Projection>, alias: seq<string>): seq<Row>
    requires WellFormed(t) && |ps| == |alias|
  {
    MapSeq(KeysOf(Rows(t), groups), RowOfKey(t, groups, ps, alias))
  }

  lemma {:induction false} NextResult(t: TableData, groups: seq<string>, ps: seq<Projection>, alias: seq<string>,
                                      i: nat)
    requires WellFormed(t) && |ps| == |alias| && i < |KeysOf(Rows(t), groups)|
    ensures var ks, f := KeysOf(Rows(t), groups), RowOfKey(t, groups, ps, alias);
      && GroupOf(Rows(t), groups, ks[i]) != []
      && MapSeq(ks[..i + 1], f)
        == MapSeq(ks[..i], f) + [AggRow(ps, alias, SchemaOf(t), GroupOf(Rows(t), groups, ks[i]))]
  {
    var ks := KeysOf(Rows(t), groups);
    GroupOfNonEmpty(Rows(t), groups, ks[i]);
    assert ks[..i + 1][..i] == ks[..i];
  }

  /** The ordered result: a sorted permutation of the result rows. */
  ghost predicate OrderedResult(out: seq<Row>, t: TableData, groups: seq<string>, ps: seq<Projection>,
                                alias: seq<string>,
                                orders: seq<OrderKey>)
    requires WellFormed(t) && |ps| == |alias|
  {
    SortedRows(orders, out) && multiset(out) == multiset(ResultRows(t, groups, ps, alias))
  }

  /** Every projection can be computed on every group and fits its column. */
  ghost predicate AllFit(ps: seq<Projection>, infos: seq<ColInfo>, t: TableData, groups: seq<string>)
    requires WellFormed(t)
  {
    forall k :: k in KeysOf(Rows(t), groups) ==> GroupFits(ps, infos, SchemaOf(t), GroupOf(Rows(t), groups, k))
  }

  lemma {:induction false} SomeResult(t: TableData, groups: seq<string>, ps: seq<Projection>, alias: seq<string>)
    requires WellFormed(t) && |ps| == |alias| && t.rowCount > 0
    ensures ResultRows(t, groups, ps, alias) != []
  {
    KeysOfRows(Rows(t), groups);
    assert GroupKey(Rows(t)[0], groups) in KeysOf(Rows(t), groups);
  }

  /** `Aggregation` of one group table. */
  method AggregateGroup(g: TableData, ps: seq<Projection>, alias: seq<string>, ghost infos: seq<ColInfo>,
                        dest: TableData, ghost schema: Schema, ghost rows: seq<Row>)
    returns (out: TableData)
    requires rows != [] && Represents(g, schema, rows) && GroupFits(ps, infos, schema, rows)
    requires |alias| == |ps| && ps != [] && DistinctNames(alias)
    requires WellFormed(dest) && ResultHolds(dest, ResultSchema(alias, infos, |ps|), Rows(dest))
    ensures ResultHolds(out, ResultSchema(alias, infos, |ps|), Rows(dest) + [AggRow(ps, alias, schema, rows)])
    ensures WellFormed(out) && Rows(out) == Rows(dest) + [AggRow(ps, alias, schema, rows)]
  {
    RepresentsRows(g, schema, rows);
    forall r | 0 <= r < |rows| ensures SameScales(schema, SchemaOf(g), rows[r]) {
      RepresentedScales(g, schema, rows, r);
    }
    assert SchemaOf(g).Keys == schema.Keys;
    GroupFitsSame(ps, infos, schema, SchemaOf(g), rows);
    AggRowSame(ps, alias, schema, SchemaOf(g), rows);
    out := Aggregate(g, ps, alias, infos, dest);
  }
}
