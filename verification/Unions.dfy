/** UNION ALL appends whole column slices; the columns' own row counts are
    advanced by the snapshot's full count. */
module Unions {
  import opened Tables
  import opened Streams

  /** Column names and types agree. */
  ghost predicate SameColumns(a: TableData, b: TableData) {
    && a.columns.Keys == b.columns.Keys
    && forall c :: c in a.columns ==> a.columns[c].colType == b.columns[c].colType
  }

  function AppendSlice(dst: ColData, src: ColData, start: nat): ColData
    requires Storable(src.colType) && Aligned(src, src.rowCount) && start <= src.rowCount
  {
    var d := match src.colType
      case TypeString => dst.(strvec := dst.strvec + src.strvec[start..])
      case TypeInt => dst.(intvec := dst.intvec + src.intvec[start..])
      case TypeDate => dst.(intvec := dst.intvec + src.intvec[start..])
      case TypeFloat => dst.(floatvec := dst.floatvec + src.floatvec[start..], realSize := src.realSize)
      case _ => dst;
    d.(rowCount := d.rowCount + src.rowCount, isnull := d.isnull + src.isnull[start..], colType := src.colType)
  }

  function AppendAll(dst: map<string, ColData>, src: TableData, start: nat): map<string, ColData>
    requires WellFormed(src) && start <= src.rowCount
  {
    map c | c in dst.Keys + src.columns.Keys ::
      if c in src.columns then AppendSlice(ColumnOr(dst, c), src.columns[c], start) else dst[c]
  }

  /** The columns `names` appended, in whatever order the map is walked. */
  function AppendSome(dst: map<string, ColData>, src: TableData, start: nat, names: set<string>): map<string, ColData>
    requires WellFormed(src) && start <= src.rowCount && names <= src.columns.Keys
  {
    map c | c in dst.Keys + names ::
      if c in names then AppendSlice(ColumnOr(dst, c), src.columns[c], start) else dst[c]
  }

  lemma {:induction false} AppendOneMore(dst: map<string, ColData>, src: TableData, start: nat, todo: set<string>,
                                         c: string)
    requires WellFormed(src) && start <= src.rowCount && todo <= src.columns.Keys && c in todo
    ensures var out := AppendSome(dst, src, start, src.columns.Keys - todo);
      && ColumnOr(out, c) == ColumnOr(dst, c)
      && out[c := AppendSlice(ColumnOr(dst, c), src.columns[c], start)]
        == AppendSome(dst, src, start, src.columns.Keys - (todo - {c}))
  {
    assert src.columns.Keys - (todo - {c}) == src.columns.Keys - todo + {c};
  }

  /** The column loop: vector inserts, row count, null flags, type. */
  method AppendColumns(dst: map<string, ColData>, src: TableData, start: nat) returns (out: map<string, ColData>)
    requires WellFormed(src) && start <= src.rowCount
    ensures out == AppendAll(dst, src, start)
  {
    out := dst;
    var todo := src.columns.Keys;
    while todo != {}
      invariant todo <= src.columns.Keys
      invariant out == AppendSome(dst, src, start, src.columns.Keys - todo)
    {
      var c :| c in todo;
      AppendOneMore(dst, src, start, todo, c);
      var d := InsertSlice(ColumnOr(out, c), src.columns[c], start);
      out := out[c := d];
      todo := todo - {c};
    }
    assert src.columns.Keys - {} == src.columns.Keys;
  }

  method InsertSlice(dst: ColData, src: ColData, start: nat) returns (d: ColData)
    requires Storable(src.colType) && Aligned(src, src.rowCount) && start <= src.rowCount
    ensures d == AppendSlice(dst, src, start)
  {
    d := dst;
    match src.colType {
      case TypeInt => d := d.(intvec := d.intvec + src.intvec[start..]);
      case TypeDate => d := d.(intvec := d.intvec + src.intvec[start..]);
      case TypeString => d := d.(strvec := d.strvec + src.strvec[start..]);
      case TypeFloat =>
        d := d.(floatvec := d.floatvec + src.floatvec[start..]);
        d := d.(realSize := src.realSize);
      case _ =>
    }
    d := d.(rowCount := d.rowCount + src.rowCount);
    d := d.(isnull := d.isnull + src.isnull[start..]);
    d := d.(colType := src.colType);
  }

  // ------------------------------------------------------------- row contents

  function RecountColumns(cols: map<string, ColData>, n: int): map<string, ColData> {
    map c | c in cols :: cols[c].(rowCount := n)
  }

  /** The table with its columns' row counts set to the table's own count. */
  function Recounted(t: TableData): TableData {
    t.(columns := RecountColumns(t.columns, t.rowCount))
  }

  function InfoAfter(left: TableData, full: TableData, n: nat): Schema {
    if n == 0 then SchemaOf(left) else SchemaOf(full)
  }

  /** The columns after `n` rows of the streamed table, `added` being what the
      batches have added to the row counts. */
  ghost predicate United(cols: map<string, ColData>, left: TableData, full: TableData, n: nat, added: int)
    requires WellFormed(left) && WellFormed(full) && n <= full.rowCount
  {
    && cols.Keys == left.columns.Keys
    && (forall c :: c in cols ==> cols[c].rowCount == left.rowCount + added)
    && HoldsColumns(RecountColumns(cols, left.rowCount + n), InfoAfter(left, full, n), Rows(left) + Rows(full)[..n])
  }

  lemma {:induction false} UnionStart(left: TableData, full: TableData)
    requires WellFormed(left) && WellFormed(full)
    ensures United(left.columns, left, full, 0, 0)
  {
    assert Rows(left) + Rows(full)[..0] == Rows(left);
    RepresentsItself(left);
    assert RecountColumns(left.columns, left.rowCount) == left.columns;
  }

  lemma {:induction false} SliceHolds(dst: ColData, info: ColInfo, rows: seq<Row>, c: string, src: ColData, start: nat,
                                      more: seq<Row>)
    requires HoldsColumn(dst.(rowCount := |rows|), info, rows, c)
    requires Storable(src.colType) && Aligned(src, src.rowCount) && start <= src.rowCount
    requires src.colType == info.colType
    requires |more| == src.rowCount - start
    requires forall k :: 0 <= k < |more| ==> c in more[k] && more[k][c] == CellAt(src, start + k)
    ensures HoldsColumn(AppendSlice(dst, src, start).(rowCount := |rows + more|), ColInfo(src.colType, src.realSize),
      rows + more, c)
  {
    var was, out := dst.(rowCount := |rows|), AppendSlice(dst, src, start).(rowCount := |rows + more|);
    forall k | 0 <= k < |rows + more|
      ensures c in (rows + more)[k] && CellAt(out, k) == (rows + more)[k][c]
    {
      if k < |rows| {
        assert CellAt(was, k) == rows[k][c];
        assert CellAt(out, k) == CellAt(was, k);
      } else {
        assert CellAt(out, k) == CellAt(src, start + (k - |rows|));
      }
    }
  }

  lemma {:induction false} UnionStep(cols: map<string, ColData>, left: TableData, full: TableData, snap: TableData,
                                     start: nat, added: int)
    requires WellFormed(left) && SameColumns(left, full) && Delivers(snap, full)
    requires start < snap.rowCount
    requires United(cols, left, full, start, added)
    ensures United(AppendAll(cols, snap, start), left, full, snap.rowCount, added + snap.rowCount)
  {
    UnionHolds(cols, left, full, snap, start, added, InfoAfter(left, full, snap.rowCount),
               Rows(left) + Rows(full)[..snap.rowCount], left.rowCount + snap.rowCount);
    AppendAllCounts(cols, snap, start, left.rowCount + added);
  }

  lemma {:induction false} UnionHolds(cols: map<string, ColData>, left: TableData, full: TableData, snap: TableData,
                                      start: nat, added: int, target: Schema, all: seq<Row>, n: int)
    requires WellFormed(left) && SameColumns(left, full) && Delivers(snap, full)
    requires start < snap.rowCount
    requires United(cols, left, full, start, added)
    requires target == InfoAfter(left, full, snap.rowCount) && n == left.rowCount + snap.rowCount
    requires all == Rows(left) + Rows(full)[..snap.rowCount]
    ensures HoldsColumns(RecountColumns(AppendAll(cols, snap, start), n), target, all)
  {
    var rows, more := Rows(left) + Rows(full)[..start], Rows(full)[start..snap.rowCount];
    SliceRows(left, full, start, snap.rowCount);
    SameInfo(left, full, snap, start);
    AppendAllHolds(cols, InfoAfter(left, full, start), rows, snap, start, more, target, all, n);
  }

  lemma {:induction false} SliceRows(left: TableData, full: TableData, start: nat, end: nat)
    requires WellFormed(left) && WellFormed(full) && start <= end <= full.rowCount
    ensures Rows(left) + Rows(full)[..start] + Rows(full)[start..end] == Rows(left) + Rows(full)[..end]
    ensures forall k :: 0 <= k < end - start ==> Rows(full)[start..end][k] == RowAt(full, start + k)
  {
    assert Rows(full)[..start] + Rows(full)[start..end] == Rows(full)[..end];
  }

  lemma {:induction false} SameInfo(left: TableData, full: TableData, snap: TableData, n: nat)
    requires SameColumns(left, full) && SchemaOf(snap) == SchemaOf(full)
    ensures snap.columns.Keys == full.columns.Keys
    ensures var info := InfoAfter(left, full, n);
      forall c :: c in snap.columns ==> c in info && info[c].colType == snap.columns[c].colType
  {
    assert snap.columns.Keys == SchemaOf(snap).Keys == SchemaOf(full).Keys == full.columns.Keys;
    forall c | c in snap.columns ensures SchemaOf(snap)[c] == SchemaOf(full)[c] {
    }
  }

  lemma {:induction false} AppendAllCounts(cols: map<string, ColData>, snap: TableData, start: nat, n: int)
    requires WellFormed(snap) && start <= snap.rowCount
    requires cols.Keys == snap.columns.Keys
    requires forall c :: c in cols ==> cols[c].rowCount == n
    ensures forall c :: c in AppendAll(cols, snap, start) ==>
      AppendAll(cols, snap, start)[c].rowCount == n + snap.rowCount
    ensures AppendAll(cols, snap, start).Keys == cols.Keys
  {
  }

  lemma {:induction false} AppendAllHolds(cols: map<string, ColData>, info: Schema, rows: seq<Row>, snap: TableData,
                                          start: nat, more: seq<Row>, target: Schema, all: seq<Row>, n: int)
    requires all == rows + more && n == |all| && target == SchemaOf(snap)
    requires WellFormed(snap) && start <= snap.rowCount
    requires cols.Keys == snap.columns.Keys
    requires HoldsColumns(RecountColumns(cols, |rows|), info, rows)
    requires forall c :: c in snap.columns ==> c in info && info[c].colType == snap.columns[c].colType
    requires |more| == snap.rowCount - start
    requires forall k :: 0 <= k < |more| ==> more[k] == RowAt(snap, start + k)
    ensures HoldsColumns(RecountColumns(AppendAll(cols, snap, start), n), target, all)
  {
    var out := RecountColumns(AppendAll(cols, snap, start), n);
    forall c | c in SchemaOf(snap)
      ensures c in out && HoldsColumn(out[c], SchemaOf(snap)[c], all, c)
    {
      assert HoldsColumn(RecountColumns(cols, |rows|)[c], info[c], rows, c);
      UnionColumn(cols[c], info[c], rows, c, snap, start, more);
    }
  }

  lemma {:induction false} UnionColumn(col: ColData, info: ColInfo, rows: seq<Row>, c: string, snap: TableData,
                                       start: nat, more: seq<Row>)
    requires WellFormed(snap) && c in snap.columns && start <= snap.rowCount
    requires HoldsColumn(col.(rowCount := |rows|), info, rows, c)
    requires info.colType == snap.columns[c].colType
    requires |more| == snap.rowCount - start
    requires forall k :: 0 <= k < |more| ==> more[k] == RowAt(snap, start + k)
    ensures HoldsColumn(AppendSlice(col, snap.columns[c], start).(rowCount := |rows + more|), SchemaOf(snap)[c],
      rows + more, c)
  {
    forall k | 0 <= k < |more| ensures c in more[k] && more[k][c] == CellAt(snap.columns[c], start + k) {
      assert more[k] == RowAt(snap, start + k);
    }
    SliceHolds(col, info, rows, c, snap.columns[c], start, more);
  }

  lemma {:induction false} SnapshotOf(feed: seq<Snapshot>, full: TableData, k: nat)
    requires GrowingFeed(feed, full) && k < |feed|
    ensures Delivers(feed[k].table, full) && 0 <= Seen(feed, k) <= feed[k].table.rowCount == Seen(feed, k + 1)
  {
    assert Index(feed, k) && (k > 0 ==> Index(feed, k - 1));
    TakeRowsIsPrefix(full, feed[k].table.rowCount);
  }

  /** The columns after `k` snapshots. */
  ghost function Unioned(cols: map<string, ColData>, feed: seq<Snapshot>, full: TableData, k: nat): map<string, ColData>
    requires GrowingFeed(feed, full) && k <= |feed|
  {
    if k == 0 then cols
    else
      var before := Unioned(cols, feed, full, k - 1);
      if !NewRows(feed, k - 1) then before
      else
        SnapshotOf(feed, full, k - 1);
        AppendAll(before, feed[k - 1].table, Seen(feed, k - 1))
  }

  lemma {:induction false} UnionSkips(cols: map<string, ColData>, feed: seq<Snapshot>, full: TableData, k: nat, n: nat)
    requires GrowingFeed(feed, full) && k <= n <= |feed|
    requires forall j :: k <= j < n ==> !NewRows(feed, j)
    ensures Unioned(cols, feed, full, n) == Unioned(cols, feed, full, k) && Seen(feed, n) == Seen(feed, k)
  {
    if k < n {
      SnapshotOf(feed, full, n - 1);
      UnionSkips(cols, feed, full, k, n - 1);
      assert !NewRows(feed, n - 1);
    }
  }

  lemma {:induction false} SnapshotAdds(cols: map<string, ColData>, next: map<string, ColData>, left: TableData,
                                        feed: seq<Snapshot>, full: TableData, k: nat)
    requires WellFormed(left) && GrowingFeed(feed, full) && SameColumns(left, full) && k < |feed|
    requires Delivers(feed[k].table, full) && 0 <= Seen(feed, k) <= feed[k].table.rowCount
    requires next == if NewRows(feed, k) then AppendAll(cols, feed[k].table, Seen(feed, k)) else cols
    requires United(cols, left, full, Seen(feed, k), CountsAdded(feed, k))
    ensures United(next, left, full, Seen(feed, k + 1), CountsAdded(feed, k + 1))
  {
    if NewRows(feed, k) {
      UnionStep(cols, left, full, feed[k].table, Seen(feed, k), CountsAdded(feed, k));
    }
  }

  lemma {:induction false} UnionedStep(cols: map<string, ColData>, feed: seq<Snapshot>, full: TableData, k: nat)
    requires GrowingFeed(feed, full) && k < |feed|
    ensures Delivers(feed[k].table, full) && 0 <= Seen(feed, k) <= feed[k].table.rowCount
    ensures Unioned(cols, feed, full, k + 1)
         == var before := Unioned(cols, feed, full, k);
            if NewRows(feed, k) then AppendAll(before, feed[k].table, Seen(feed, k)) else before
  {
    SnapshotOf(feed, full, k);
  }

  lemma {:induction false} SeenInFull(feed: seq<Snapshot>, full: TableData, k: nat)
    requires GrowingFeed(feed, full) && k <= |feed|
    ensures 0 <= Seen(feed, k) <= full.rowCount
  {
    assert k > 0 ==> Index(feed, k - 1);
  }

  /** After every snapshot the columns hold the left rows and the rows seen. */
  lemma {:induction false} UnionedHolds(left: TableData, feed: seq<Snapshot>, full: TableData, k: nat)
    requires WellFormed(left) && GrowingFeed(feed, full) && SameColumns(left, full)
    requires k <= |feed| && 0 <= Seen(feed, k) <= full.rowCount
    ensures United(Unioned(left.columns, feed, full, k), left, full, Seen(feed, k), CountsAdded(feed, k))
  {
    if k == 0 {
      UnionStart(left, full);
    } else {
      SeenInFull(feed, full, k - 1);
      UnionedHolds(left, feed, full, k - 1);
      UnionedStep(left.columns, feed, full, k - 1);
      SnapshotAdds(Unioned(left.columns, feed, full, k - 1), Unioned(left.columns, feed, full, k), left, feed, full,
        k - 1);
    }
  }

  lemma {:induction false} UnitedRows(t: TableData, left: TableData, full: TableData, added: int)
    requires WellFormed(left) && WellFormed(full) && SameColumns(left, full)
    requires United(t.columns, left, full, full.rowCount, added)
    requires t.rowCount == left.rowCount + full.rowCount
    ensures WellFormed(Recounted(t)) && Rows(Recounted(t)) == Rows(left) + Rows(full)
  {
    assert Rows(full)[..full.rowCount] == Rows(full);
    var info := InfoAfter(left, full, full.rowCount);
    assert info.Keys == left.columns.Keys;
    SideRowsHaveKeys(left, full);
    RepresentsRows(Recounted(t), info, Rows(left) + Rows(full));
  }

  lemma {:induction false} SideRowsHaveKeys(left: TableData, full: TableData)
    requires WellFormed(left) && WellFormed(full) && SameColumns(left, full)
    ensures HaveKeys(Rows(left) + Rows(full), left.columns.Keys)
  {
  }

  // ------------------------------------------------------------ other columns

  /** The two types are kept in one vector. */
  predicate SameVector(a: VectorType, b: VectorType) {
    a == b || (a.TypeInt? && b.TypeDate?) || (a.TypeDate? && b.TypeInt?)
  }

  /** `n` cells of a type in their vector. */
  function CellsIn(t: VectorType, vector: VectorType, n: int): int {
    if SameVector(t, vector) then n else 0
  }

  /** A column with so many strings, integers, floats and flags, of type `t`. */
  predicate Sized(c: ColData, strings: int, ints: int, floats: int, flags: int, t: VectorType) {
    |c.strvec| == strings && |c.intvec| == ints && |c.floatvec| == floats && |c.isnull| == flags && c.colType == t
  }

  /** Column `c` of the left table, absent ones being empty. */
  function OwnRows(left: TableData, c: string): int {
    if c in left.columns then left.rowCount else 0
  }

  function OwnType(left: TableData, c: string): VectorType {
    if c in left.columns then left.columns[c].colType else TypeEmpty
  }

  /** After `n` rows of the streamed table: `n` more cells of its type in every column
      it has, which takes its type with the first of them. */
  ghost predicate Grown(col: ColData, left: TableData, full: TableData, c: string, n: int)
    requires c in full.columns
  {
    var t, u, m := OwnType(left, c), full.columns[c].colType, OwnRows(left, c);
    Sized(col, CellsIn(t, TypeString, m) + CellsIn(u, TypeString, n), CellsIn(t, TypeInt, m) + CellsIn(u, TypeInt, n),
          CellsIn(t, TypeFloat, m) + CellsIn(u, TypeFloat, n), m + n, if n == 0 then t else u)
  }

  /** The columns by name: those of the left table alone stay as they are. */
  ghost predicate GrownAll(cols: map<string, ColData>, left: TableData, full: TableData, n: int) {
    && cols.Keys == left.columns.Keys + (if n == 0 then {} else full.columns.Keys)
    && (forall c :: c in cols && c !in full.columns ==> cols[c] == left.columns[c])
    && forall c :: c in cols && c in full.columns ==> Grown(cols[c], left, full, c, n)
  }

  lemma {:induction false} GrownStart(left: TableData, full: TableData)
    requires WellFormed(left) && WellFormed(full)
    ensures GrownAll(left.columns, left, full, 0)
  {
    forall c | c in left.columns && c in full.columns ensures Grown(left.columns[c], left, full, c, 0) {
      assert Aligned(left.columns[c], left.rowCount);
    }
  }

  lemma {:induction false} GrownOne(col: ColData, left: TableData, full: TableData, c: string, snap: TableData, n: int)
    requires WellFormed(left) && Delivers(snap, full) && c in full.columns && 0 <= n < snap.rowCount
    requires Grown(col, left, full, c, n) && c in snap.columns
    ensures Grown(AppendSlice(col, snap.columns[c], n), left, full, c, snap.rowCount)
  {
    assert SchemaOf(snap)[c] == SchemaOf(full)[c];
    assert Aligned(snap.columns[c], snap.rowCount) && Storable(snap.columns[c].colType);
  }

  lemma {:induction false} GrownAt(cols: map<string, ColData>, left: TableData, full: TableData, c: string,
                                   snap: TableData, n: int)
    requires WellFormed(left) && Delivers(snap, full) && 0 <= n < snap.rowCount
    requires GrownAll(cols, left, full, n) && c in full.columns && c in snap.columns
    ensures Grown(AppendSlice(ColumnOr(cols, c), snap.columns[c], n), left, full, c, snap.rowCount)
  {
    if c !in cols {
      assert n == 0;
      assert Grown(EMPTY_COLUMN, left, full, c, n);
    }
    GrownOne(ColumnOr(cols, c), left, full, c, snap, n);
  }

  lemma {:induction false} AppendedKeys(cols: map<string, ColData>, left: TableData, full: TableData, snap: TableData,
                                        n: int)
    requires WellFormed(full) && Delivers(snap, full) && 0 <= n < snap.rowCount
    requires cols.Keys == left.columns.Keys + (if n == 0 then {} else full.columns.Keys)
    ensures AppendAll(cols, snap, n).Keys == left.columns.Keys + full.columns.Keys
    ensures forall c :: c in cols && c !in full.columns ==> AppendAll(cols, snap, n)[c] == cols[c]
    ensures forall c :: c in full.columns ==>
      c in snap.columns && AppendAll(cols, snap, n)[c] == AppendSlice(ColumnOr(cols, c), snap.columns[c], n)
  {
    assert snap.columns.Keys == full.columns.Keys;
  }

  lemma {:induction false} GrownStep(cols: map<string, ColData>, left: TableData, full: TableData, snap: TableData,
                                     n: int)
    requires WellFormed(left) && Delivers(snap, full) && 0 <= n < snap.rowCount
    requires GrownAll(cols, left, full, n)
    ensures GrownAll(AppendAll(cols, snap, n), left, full, snap.rowCount)
  {
    AppendedKeys(cols, left, full, snap, n);
    forall c | c in full.columns
      ensures Grown(AppendSlice(ColumnOr(cols, c), snap.columns[c], n), left, full, c, snap.rowCount)
    {
      GrownAt(cols, left, full, c, snap, n);
    }
  }

  lemma {:induction false} UnionedGrows(left: TableData, feed: seq<Snapshot>, full: TableData, k: nat)
    requires WellFormed(left) && GrowingFeed(feed, full) && k <= |feed|
    ensures GrownAll(Unioned(left.columns, feed, full, k), left, full, Seen(feed, k))
  {
    if k == 0 {
      GrownStart(left, full);
    } else {
      UnionedGrows(left, feed, full, k - 1);
      UnionedStep(left.columns, feed, full, k - 1);
      if NewRows(feed, k - 1) {
        GrownStep(Unioned(left.columns, feed, full, k - 1), left, full, feed[k - 1].table, Seen(feed, k - 1));
      }
    }
  }

  /** Names and types fit as far as there are rows. */
  predicate ColumnsFit(left: TableData, full: TableData) {
    full.rowCount > 0 ==>
      && (forall c :: c in left.columns ==> c in full.columns)
      && (left.rowCount > 0 ==> forall c :: c in full.columns ==>
            c in left.columns && SameVector(left.columns[c].colType, full.columns[c].colType))
  }

  /** A column of a table, its row count set to `n`. */
  predicate ColumnOk(col: ColData, n: int) {
    Storable(col.colType) && Aligned(col.(rowCount := n), n)
  }

  lemma {:induction false} RecountedOk(t: TableData)
    ensures WellFormed(Recounted(t))
       <==> 0 <= t.rowCount && forall c :: c in t.columns ==> ColumnOk(t.columns[c], t.rowCount)
  {
    assert forall c :: c in t.columns ==> Recounted(t).columns[c] == t.columns[c].(rowCount := t.rowCount);
  }

  lemma {:induction false} GrownFits(col: ColData, left: TableData, full: TableData, c: string)
    requires WellFormed(left) && WellFormed(full) && c in full.columns && Grown(col, left, full, c, full.rowCount)
    requires c in left.columns || full.rowCount > 0
    ensures ColumnFits(left, full, c) <==> ColumnOk(col, left.rowCount + full.rowCount)
  {
    assert Storable(full.columns[c].colType);
    if c in left.columns {
      assert Storable(left.columns[c].colType);
    }
  }

  lemma {:induction false} OwnFits(left: TableData, full: TableData, c: string)
    requires WellFormed(left) && WellFormed(full) && c in left.columns && c !in full.columns
    ensures ColumnFits(left, full, c) <==> ColumnOk(left.columns[c], left.rowCount + full.rowCount)
  {
    assert Aligned(left.columns[c], left.rowCount) && Storable(left.columns[c].colType);
  }

  /** Columns are united by name. The result is a table, row counts of the columns
      aside, exactly when the right table has no rows, or it has all columns of the
      left one and, unless that has no rows, no others and none of another type. */
  lemma {:induction false} UnionIsTableIff(t: TableData, left: TableData, full: TableData)
    requires WellFormed(left) && WellFormed(full) && GrownAll(t.columns, left, full, full.rowCount)
    requires t.rowCount == left.rowCount + full.rowCount
    ensures WellFormed(Recounted(t)) <==> ColumnsFit(left, full)
  {
    forall c | c in t.columns ensures ColumnFits(left, full, c) <==> ColumnOk(t.columns[c], t.rowCount) {
      if c in full.columns {
        GrownFits(t.columns[c], left, full, c);
      } else {
        OwnFits(left, full, c);
      }
    }
    AllFitIff(t.columns, left, full);
    RecountedOk(t);
  }

  lemma {:induction false} AllFitIff(cols: map<string, ColData>, left: TableData, full: TableData)
    requires WellFormed(full) && cols.Keys == left.columns.Keys + (if full.rowCount == 0 then {} else full.columns.Keys)
    ensures ColumnsFit(left, full) <==> forall c :: c in cols ==> ColumnFits(left, full, c)
  {
    if full.rowCount > 0 && ColumnsFit(left, full) {
      forall c | c in cols ensures ColumnFits(left, full, c) {
      }
    }
    if full.rowCount > 0 && forall c :: c in cols ==> ColumnFits(left, full, c) {
      forall c | c in left.columns || c in full.columns ensures ColumnFits(left, full, c) {
        assert c in cols;
      }
    }
  }

  predicate ColumnFits(left: TableData, full: TableData, c: string) {
    full.rowCount > 0 ==>
      && c in full.columns
      && (left.rowCount > 0 ==> c in left.columns && SameVector(left.columns[c].colType, full.columns[c].colType))
  }

  // --------------------------------------------------------------- row counts

  function Batches(feed: seq<Snapshot>, k: nat): nat
    requires k <= |feed|
  {
    if k == 0 then 0 else Batches(feed, k - 1) + if NewRows(feed, k - 1) then 1 else 0
  }

  lemma {:induction false} CountsCompare(feed: seq<Snapshot>, full: TableData, k: nat)
    requires GrowingFeed(feed, full) && k <= |feed|
    ensures 0 <= Seen(feed, k)
    ensures Batches(feed, k) == 0 ==> CountsAdded(feed, k) == Seen(feed, k) == 0
    ensures Batches(feed, k) == 1 ==> CountsAdded(feed, k) == Seen(feed, k)
    ensures Batches(feed, k) >= 1 ==> Seen(feed, k) > 0
    ensures Batches(feed, k) >= 2 ==> CountsAdded(feed, k) > Seen(feed, k)
  {
    if k > 0 {
      CountsCompare(feed, full, k - 1);
      assert Index(feed, k - 1) && (k > 1 ==> Index(feed, k - 2));
    }
  }

  /** The columns' row counts are right exactly when at most one snapshot
      brought rows: splitting the stream makes them too large. */
  lemma {:induction false} UnionCountsIff(feed: seq<Snapshot>, full: TableData)
    requires GrowingFeed(feed, full)
    ensures CountsAdded(feed, |feed|) == full.rowCount <==> Batches(feed, |feed|) <= 1
  {
    CountsCompare(feed, full, |feed|);
  }
}
