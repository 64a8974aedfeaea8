/** ORDER BY on columns, LIMIT, and packed dates. */
module Ordering {
  import opened Tables
  import opened Filters
  import opened Permutations

  /** One ORDER BY column. */
  datatype OrderKey = OrderKey(name: string, ascending: bool)

  // --------------------------------------------------------------- comparator

  /** The comparator handed to `std::sort`: the first column with different
      values decides; a full tie is "not less". */
  predicate RowLess(orders: seq<OrderKey>, a: Row, b: Row) {
    if orders == [] then false
    else
      var x, y := Get(a, orders[0].name), Get(b, orders[0].name);
      if x != y then (if orders[0].ascending then Less(x, y) else Less(y, x))
      else RowLess(orders[1..], a, b)
  }

  predicate SameOrderKeys(orders: seq<OrderKey>, a: Row, b: Row) {
    forall k :: 0 <= k < |orders| ==> Get(a, orders[k].name) == Get(b, orders[k].name)
  }

  /** Two rows can be compared on every order column. */
  predicate Comparable(orders: seq<OrderKey>, a: Row, b: Row) {
    forall k :: 0 <= k < |orders| ==> SameKind(Get(a, orders[k].name), Get(b, orders[k].name))
  }

  lemma {:induction false} RowLessIrreflexive(orders: seq<OrderKey>, a: Row)
    ensures !RowLess(orders, a, a)
  {
    if orders != [] {
      RowLessIrreflexive(orders[1..], a);
    }
  }

  lemma {:induction false} RowLessTrichotomy(orders: seq<OrderKey>, a: Row, b: Row)
    requires Comparable(orders, a, b)
    ensures !(RowLess(orders, a, b) && RowLess(orders, b, a))
    ensures !RowLess(orders, a, b) && !RowLess(orders, b, a) <==> SameOrderKeys(orders, a, b)
  {
    if orders != [] {
      var x, y := Get(a, orders[0].name), Get(b, orders[0].name);
      assert Comparable(orders[1..], a, b);
      LessIsStrictTotal(x, y);
      RowLessTrichotomy(orders[1..], a, b);
      SameOrderKeysStep(orders, a, b);
    }
  }

  lemma {:induction false} SameOrderKeysStep(orders: seq<OrderKey>, a: Row, b: Row)
    requires orders != []
    ensures SameOrderKeys(orders, a, b)
       <==> Get(a, orders[0].name) == Get(b, orders[0].name) && SameOrderKeys(orders[1..], a, b)
  {
    assert forall k :: 0 < k < |orders| ==> orders[k] == orders[1..][k - 1];
  }

  lemma {:induction false} RowLessTransitive(orders: seq<OrderKey>, a: Row, b: Row, c: Row)
    requires Comparable(orders, a, b) && Comparable(orders, b, c)
    requires RowLess(orders, a, b) && RowLess(orders, b, c)
    ensures RowLess(orders, a, c)
  {
    var x, y, z := Get(a, orders[0].name), Get(b, orders[0].name), Get(c, orders[0].name);
    if x == y && y == z {
      assert Comparable(orders[1..], a, b) && Comparable(orders[1..], b, c);
      RowLessTransitive(orders[1..], a, b, c);
    } else if x != y && y != z {
      if orders[0].ascending {
        LessTransitive(x, y, z);
      } else {
        LessTransitive(z, y, x);
      }
      LessIsStrictTotal(x, x);
    }
  }

  /** The comparator is a strict weak order, which is what `std::sort` demands:
      irreflexive, transitive, and with transitive incomparability. */
  lemma {:induction false} StrictWeakOrder(orders: seq<OrderKey>, a: Row, b: Row, c: Row)
    requires Comparable(orders, a, b) && Comparable(orders, b, c)
    ensures !RowLess(orders, a, a)
    ensures RowLess(orders, a, b) && RowLess(orders, b, c) ==> RowLess(orders, a, c)
    ensures !RowLess(orders, a, b) && !RowLess(orders, b, a) && !RowLess(orders, b, c) && !RowLess(orders, c, b)
        ==> !RowLess(orders, a, c) && !RowLess(orders, c, a)
  {
    RowLessIrreflexive(orders, a);
    if RowLess(orders, a, b) && RowLess(orders, b, c) {
      RowLessTransitive(orders, a, b, c);
    }
    assert Comparable(orders, a, c) by {
      forall k | 0 <= k < |orders| ensures SameKind(Get(a, orders[k].name), Get(c, orders[k].name)) {
        assert SameKind(Get(a, orders[k].name), Get(b, orders[k].name));
        assert SameKind(Get(b, orders[k].name), Get(c, orders[k].name));
      }
    }
    RowLessTrichotomy(orders, a, b);
    RowLessTrichotomy(orders, b, c);
    RowLessTrichotomy(orders, a, c);
  }

  /** "Not greater" is transitive: what keeps a sorted sequence sorted. */
  lemma {:induction false} NotGreaterTransitive(orders: seq<OrderKey>, a: Row, b: Row, c: Row)
    requires Comparable(orders, a, b) && Comparable(orders, b, c)
    requires !RowLess(orders, b, a) && !RowLess(orders, c, b)
    ensures !RowLess(orders, c, a)
  {
    assert Comparable(orders, c, a) && Comparable(orders, b, a) by {
      forall k | 0 <= k < |orders|
        ensures SameKind(Get(c, orders[k].name), Get(a, orders[k].name))
          && SameKind(Get(b, orders[k].name), Get(a, orders[k].name))
      {
        assert SameKind(Get(a, orders[k].name), Get(b, orders[k].name));
        assert SameKind(Get(b, orders[k].name), Get(c, orders[k].name));
      }
    }
    if RowLess(orders, c, a) {
      RowLessTrichotomy(orders, a, b);
      RowLessTrichotomy(orders, b, c);
      if RowLess(orders, a, b) {
        RowLessTransitive(orders, c, a, b);
      } else {
        SameKeysSameLess(orders, a, b, c);
      }
    }
  }

  lemma {:induction false} SameKeysSameLess(orders: seq<OrderKey>, a: Row, b: Row, c: Row)
    requires SameOrderKeys(orders, a, b)
    ensures RowLess(orders, c, a) == RowLess(orders, c, b)
  {
    if orders != [] {
      SameOrderKeysStep(orders, a, b);
      SameKeysSameLess(orders[1..], a, b, c);
    }
  }

  // ------------------------------------------------------------------ sorting

  ghost predicate OrderColumns(orders: seq<OrderKey>, t: TableData) {
    forall k :: 0 <= k < |orders| ==> orders[k].name in t.columns
  }

  lemma {:induction false} RowsComparable(orders: seq<OrderKey>, t: TableData, i: nat, j: nat)
    requires WellFormed(t) && OrderColumns(orders, t) && i < t.rowCount && j < t.rowCount
    ensures Comparable(orders, RowAt(t, i), RowAt(t, j))
  {
    RowIsTyped(t, i);
    RowIsTyped(t, j);
  }

  lemma {:induction false} RowsAllComparable(orders: seq<OrderKey>, t: TableData)
    requires WellFormed(t) && OrderColumns(orders, t)
    ensures AllComparable(Rows(t), orders)
  {
    forall i, j | 0 <= i < t.rowCount && 0 <= j < t.rowCount ensures Comparable(orders, Rows(t)[i], Rows(t)[j]) {
      RowsComparable(orders, t, i, j);
    }
  }

  /** What the comparator answers; on a full tie it ends without a return. */
  datatype Answer = Answer(less: bool) | NoAnswer

  /** The lambda: a loop over the order columns. It has no answer exactly on rows
      that agree on all of them. */
  method CompareRows(t: TableData, orders: seq<OrderKey>, i: nat, j: nat) returns (answer: Answer)
    requires WellFormed(t) && OrderColumns(orders, t) && i < t.rowCount && j < t.rowCount
    ensures answer == if SameOrderKeys(orders, RowAt(t, i), RowAt(t, j)) then NoAnswer
                      else Answer(RowLess(orders, RowAt(t, i), RowAt(t, j)))
  {
    ghost var a, b := RowAt(t, i), RowAt(t, j);
    for c := 0 to |orders|
      invariant RowLess(orders, a, b) == RowLess(orders[c..], a, b)
      invariant forall k :: 0 <= k < c ==> Get(a, orders[k].name) == Get(b, orders[k].name)
    {
      assert orders[c..][1..] == orders[c + 1..];
      assert orders[c].name in t.columns;
      var col := t.columns[orders[c].name];
      var x, y := ValueAt(col, i), ValueAt(col, j);
      if x != y {
        return Answer(if orders[c].ascending then Less(x, y) else Less(y, x));
      }
    }
    return NoAnswer;
  }

  lemma {:induction false} TieIsNotLess(orders: seq<OrderKey>, a: Row, b: Row)
    requires SameOrderKeys(orders, a, b)
    ensures !RowLess(orders, a, b)
  {
    SameKeysSameLess(orders, a, b, a);
    RowLessIrreflexive(orders, a);
  }

  ghost predicate AllComparable(rows: seq<Row>, orders: seq<OrderKey>) {
    forall i, j :: 0 <= i < |rows| && 0 <= j < |rows| ==> Comparable(orders, rows[i], rows[j])
  }

  ghost predicate InRange(idx: seq<nat>, n: int) {
    forall k :: 0 <= k < |idx| ==> idx[k] < n
  }

  /** Row `b` does not come before row `a`. */
  predicate InOrder(rows: seq<Row>, orders: seq<OrderKey>, a: nat, b: nat)
    requires a < |rows| && b < |rows|
  {
    !RowLess(orders, rows[b], rows[a])
  }

  ghost predicate SortedIndex(rows: seq<Row>, orders: seq<OrderKey>, idx: seq<nat>) {
    && InRange(idx, |rows|)
    && forall a, b :: 0 <= a < b < |idx| ==> InOrder(rows, orders, idx[a], idx[b])
  }

  lemma {:induction false} InOrderTransitive(rows: seq<Row>, orders: seq<OrderKey>, a: nat, b: nat, c: nat)
    requires AllComparable(rows, orders) && a < |rows| && b < |rows| && c < |rows|
    requires InOrder(rows, orders, a, b) && InOrder(rows, orders, b, c)
    ensures InOrder(rows, orders, a, c)
  {
    NotGreaterTransitive(orders, rows[a], rows[b], rows[c]);
  }

  lemma {:induction false} InOrderTotal(rows: seq<Row>, orders: seq<OrderKey>, a: nat, b: nat)
    requires AllComparable(rows, orders) && a < |rows| && b < |rows|
    ensures InOrder(rows, orders, a, b) || InOrder(rows, orders, b, a)
  {
    RowLessTrichotomy(orders, rows[a], rows[b]);
  }

  /** `std::sort` on the row indices. Callers may rely only on the contract: a
      sorted permutation. No answer is taken as "not less", and the order of
      ties is not specified. */
  method Sort(t: TableData, ghost rows: seq<Row>, orders: seq<OrderKey>, idx: seq<nat>) returns (out: seq<nat>)
    requires WellFormed(t) && OrderColumns(orders, t) && rows == Rows(t) && AllComparable(rows, orders)
    requires InRange(idx, |rows|)
    ensures SortedIndex(rows, orders, out)
    ensures multiset(out) == multiset(idx) && |out| == |idx|
  {
    out := [];
    for n := 0 to |idx|
      invariant SortedIndex(rows, orders, out)
      invariant multiset(out) == multiset(idx[..n]) && |out| == n
    {
      assert idx[..n + 1] == idx[..n] + [idx[n]];
      var k := InsertPosition(t, rows, orders, out, idx[n]);
      InsertKeepsSorted(rows, orders, out, idx[n], k);
      InsertedMultiset(out, idx[n], k);
      out := out[..k] + [idx[n]] + out[k..];
    }
    assert idx[..|idx|] == idx;
  }

  /** One call of the comparator by the sort. */
  method ComesBefore(t: TableData, ghost rows: seq<Row>, orders: seq<OrderKey>, x: nat, y: nat) returns (before: bool)
    requires WellFormed(t) && OrderColumns(orders, t) && rows == Rows(t) && AllComparable(rows, orders)
    requires x < |rows| && y < |rows|
    ensures if before then InOrder(rows, orders, x, y) else InOrder(rows, orders, y, x)
  {
    var answer := CompareRows(t, orders, x, y);
    before := answer == Answer(true);
    NotLess(orders, rows[x], rows[y]);
    InOrderTotal(rows, orders, x, y);
  }

  /** Row `x` may stand before the entries from `k` on. */
  ghost predicate BeforeAll(rows: seq<Row>, orders: seq<OrderKey>, x: nat, s: seq<nat>, k: nat)
    requires x < |rows| && InRange(s, |rows|)
  {
    forall b :: k <= b < |s| ==> InOrder(rows, orders, x, s[b])
  }

  lemma {:induction false} BeforeOneMore(rows: seq<Row>, orders: seq<OrderKey>, x: nat, s: seq<nat>, k: nat)
    requires x < |rows| && InRange(s, |rows|) && 0 < k <= |s|
    requires BeforeAll(rows, orders, x, s, k) && InOrder(rows, orders, x, s[k - 1])
    ensures BeforeAll(rows, orders, x, s, k - 1)
  {
  }

  method InsertPosition(t: TableData, ghost rows: seq<Row>, orders: seq<OrderKey>, s: seq<nat>, x: nat) returns (k: nat)
    requires WellFormed(t) && OrderColumns(orders, t) && rows == Rows(t) && AllComparable(rows, orders)
    requires x < |rows| && InRange(s, |rows|)
    ensures k <= |s|
    ensures k > 0 ==> InOrder(rows, orders, s[k - 1], x)
    ensures forall b :: k <= b < |s| ==> InOrder(rows, orders, x, s[b])
  {
    k := |s|;
    while k > 0
      invariant 0 <= k <= |s|
      invariant BeforeAll(rows, orders, x, s, k)
    {
      var before := ComesBefore(t, rows, orders, x, s[k - 1]);
      if !before {
        break;
      }
      BeforeOneMore(rows, orders, x, s, k);
      k := k - 1;
    }
  }

  lemma {:induction false} NotLess(orders: seq<OrderKey>, a: Row, b: Row)
    ensures SameOrderKeys(orders, a, b) || !RowLess(orders, a, b) ==> !RowLess(orders, a, b)
  {
    if SameOrderKeys(orders, a, b) {
      TieIsNotLess(orders, a, b);
    }
  }

  lemma {:induction false} InsertedMultiset(s: seq<nat>, x: nat, k: nat)
    requires k <= |s|
    ensures multiset(s[..k] + [x] + s[k..]) == multiset(s + [x])
  {
    assert s == s[..k] + s[k..];
  }

  /** Everything before the position is in order with the new entry. */
  lemma {:induction false} BeforeInOrder(rows: seq<Row>, orders: seq<OrderKey>, s: seq<nat>, x: nat, k: nat, a: nat)
    requires AllComparable(rows, orders) && x < |rows|
    requires SortedIndex(rows, orders, s) && a < k <= |s|
    requires InOrder(rows, orders, s[k - 1], x)
    ensures InOrder(rows, orders, s[a], x)
  {
    if a < k - 1 {
      InOrderTransitive(rows, orders, s[a], s[k - 1], x);
    }
  }

  lemma {:induction false} AppendSorted(rows: seq<Row>, orders: seq<OrderKey>, s: seq<nat>, t: seq<nat>)
    requires SortedIndex(rows, orders, s) && SortedIndex(rows, orders, t)
    requires forall a, b :: 0 <= a < |s| && 0 <= b < |t| ==> InOrder(rows, orders, s[a], t[b])
    ensures SortedIndex(rows, orders, s + t)
  {
    forall a, b | 0 <= a < b < |s + t| ensures InOrder(rows, orders, (s + t)[a], (s + t)[b]) {
      if b >= |s| {
        assert (s + t)[b] == t[b - |s|];
      }
    }
  }

  lemma {:induction false} InsertKeepsSorted(rows: seq<Row>, orders: seq<OrderKey>, s: seq<nat>, x: nat, k: nat)
    requires AllComparable(rows, orders) && x < |rows|
    requires SortedIndex(rows, orders, s) && k <= |s|
    requires k > 0 ==> InOrder(rows, orders, s[k - 1], x)
    requires forall b :: k <= b < |s| ==> InOrder(rows, orders, x, s[b])
    ensures SortedIndex(rows, orders, s[..k] + [x] + s[k..])
  {
    forall a | 0 <= a < k ensures InOrder(rows, orders, s[..k][a], x) {
      BeforeInOrder(rows, orders, s, x, k, a);
    }
    AppendSorted(rows, orders, s[..k], [x]);
    var init := s[..k] + [x];
    forall a, b | 0 <= a < |init| && 0 <= b < |s[k..]| ensures InOrder(rows, orders, init[a], s[k..][b]) {
      assert s[k..][b] == s[k + b];
    }
    AppendSorted(rows, orders, init, s[k..]);
  }

  // ---------------------------------------------------------------- gathering

  function Gather(rows: seq<Row>, idx: seq<nat>): (out: seq<Row>)
    requires InRange(idx, |rows|)
    ensures |out| == |idx|
    ensures forall k :: 0 <= k < |idx| ==> out[k] == rows[idx[k]]
  {
    if idx == [] then [] else Gather(rows, idx[..|idx| - 1]) + [rows[idx[|idx| - 1]]]
  }

  function Iota(n: nat): (s: seq<nat>)
    ensures |s| == n && forall k :: 0 <= k < n ==> s[k] == k
  {
    seq(n, k => k)
  }

  lemma {:induction false} GatherAll(rows: seq<Row>)
    ensures Gather(rows, Iota(|rows|)) == rows
  {
  }

  lemma {:induction false} GatherThree(rows: seq<Row>, a: seq<nat>, x: nat, c: seq<nat>)
    requires InRange(a, |rows|) && x < |rows| && InRange(c, |rows|)
    ensures InRange(a + [x] + c, |rows|) && InRange(a + c, |rows|)
    ensures Gather(rows, a + [x] + c) == Gather(rows, a) + [rows[x]] + Gather(rows, c)
    ensures Gather(rows, a + c) == Gather(rows, a) + Gather(rows, c)
  {
  }

  lemma {:induction false} GatherAround(rows: seq<Row>, a: seq<nat>, x: nat, c: seq<nat>)
    requires InRange(a, |rows|) && x < |rows| && InRange(c, |rows|)
    ensures InRange(a + [x] + c, |rows|) && InRange(a + c, |rows|)
    ensures multiset(Gather(rows, a + [x] + c)) == multiset(Gather(rows, a + c)) + multiset{rows[x]}
  {
    GatherThree(rows, a, x, c);
    MiddleOut(Gather(rows, a), rows[x], Gather(rows, c));
  }

  lemma {:induction false} GatherPermuted(rows: seq<Row>, p: seq<nat>, q: seq<nat>)
    requires InRange(p, |rows|) && InRange(q, |rows|) && multiset(p) == multiset(q)
    ensures multiset(Gather(rows, p)) == multiset(Gather(rows, q))
  {
    if p == [] {
      NothingPermuted(p, q);
    } else {
      var i := TakeOut(p, q);
      GatherAround(rows, q[..i], q[i], q[i + 1..]);
      GatherPermuted(rows, p[..|p| - 1], q[..i] + q[i + 1..]);
    }
  }

  /** One column gathered along the index. */
  method GatherColumn(col: ColData, idx: seq<nat>) returns (out: ColData)
    requires Storable(col.colType) && Aligned(col, col.rowCount) && InRange(idx, col.rowCount)
    requires |idx| == col.rowCount
    ensures Aligned(out, |idx|) && out.colType == col.colType
    ensures col.colType.TypeFloat? ==> out.realSize == col.realSize
    ensures forall k :: 0 <= k < |idx| ==> CellAt(out, k) == CellAt(col, idx[k])
  {
    out := EMPTY_COLUMN;
    for i := 0 to |idx|
      invariant |out.isnull| == i && out.colType == TypeEmpty && out.rowCount == 0 && out.realSize == 0
      invariant |out.strvec| == (if col.colType.TypeString? then i else 0)
      invariant |out.intvec| == (if col.colType.TypeInt? || col.colType.TypeDate? then i else 0)
      invariant |out.floatvec| == (if col.colType.TypeFloat? then i else 0)
      invariant forall k :: 0 <= k < i ==> out.isnull[k] == col.isnull[idx[k]]
      invariant col.colType.TypeString? ==> forall k :: 0 <= k < i ==> out.strvec[k] == col.strvec[idx[k]]
      invariant col.colType.TypeInt? || col.colType.TypeDate? ==> forall k :: 0 <= k < i ==>
        out.intvec[k] == col.intvec[idx[k]]
      invariant col.colType.TypeFloat? ==> forall k :: 0 <= k < i ==> out.floatvec[k] == col.floatvec[idx[k]]
    {
      match col.colType {
        case TypeInt => out := out.(intvec := out.intvec + [col.intvec[idx[i]]]);
        case TypeDate => out := out.(intvec := out.intvec + [col.intvec[idx[i]]]);
        case TypeFloat => out := out.(floatvec := out.floatvec + [col.floatvec[idx[i]]]);
        case TypeString => out := out.(strvec := out.strvec + [col.strvec[idx[i]]]);
        case _ =>
      }
      out := out.(isnull := out.isnull + [col.isnull[idx[i]]]);
    }
    if col.colType.TypeFloat? {
      out := out.(realSize := col.realSize);
    }
    out := out.(colType := col.colType);
    out := out.(rowCount := col.rowCount);
  }

  /** All columns gathered along one common permutation. */
  method GatherTable(t: TableData, idx: seq<nat>) returns (dest: TableData)
    requires WellFormed(t) && InRange(idx, t.rowCount) && |idx| == t.rowCount
    ensures Represents(dest, SchemaOf(t), Gather(Rows(t), idx))
  {
    var cols: map<string, ColData> := map[];
    ghost var rows, schema := Gather(Rows(t), idx), SchemaOf(t);
    var todo := t.columns.Keys;
    while todo != {}
      invariant todo <= t.columns.Keys
      invariant cols.Keys == t.columns.Keys - todo
      invariant forall c :: c in cols ==> HoldsColumn(cols[c], schema[c], rows, c)
    {
      var c :| c in todo;
      var col := GatherColumn(t.columns[c], idx);
      GatheredHolds(t, idx, c, col);
      cols := cols[c := col];
      todo := todo - {c};
    }
    dest := TableData(cols, t.rowCount);
    GatheredKeys(t, idx);
  }

  lemma {:induction false} GatheredHolds(t: TableData, idx: seq<nat>, c: string, col: ColData)
    requires WellFormed(t) && InRange(idx, t.rowCount) && c in t.columns
    requires Aligned(col, |idx|) && col.colType == t.columns[c].colType
    requires col.colType.TypeFloat? ==> col.realSize == t.columns[c].realSize
    requires forall k :: 0 <= k < |idx| ==> CellAt(col, k) == CellAt(t.columns[c], idx[k])
    ensures HoldsColumn(col, SchemaOf(t)[c], Gather(Rows(t), idx), c)
  {
    forall k | 0 <= k < |idx| ensures c in Gather(Rows(t), idx)[k] && CellAt(col, k) == Gather(Rows(t), idx)[k][c] {
      assert Gather(Rows(t), idx)[k] == RowAt(t, idx[k]);
    }
  }

  lemma {:induction false} GatheredKeys(t: TableData, idx: seq<nat>)
    requires WellFormed(t) && InRange(idx, t.rowCount)
    ensures HaveKeys(Gather(Rows(t), idx), SchemaOf(t).Keys)
  {
    forall k | 0 <= k < |idx| ensures Gather(Rows(t), idx)[k].Keys == SchemaOf(t).Keys {
      assert Gather(Rows(t), idx)[k] == RowAt(t, idx[k]);
    }
  }

  ghost predicate SortedRows(orders: seq<OrderKey>, rows: seq<Row>) {
    forall a, b :: 0 <= a < b < |rows| ==> !RowLess(orders, rows[b], rows[a])
  }

  // ------------------------------------------------------- what the order means

  /** Column `k` is the first order column on which the rows differ. */
  ghost predicate DifferFirst(orders: seq<OrderKey>, a: Row, b: Row, k: nat) {
    && k < |orders| && Get(a, orders[k].name) != Get(b, orders[k].name)
    && forall j :: 0 <= j < k ==> Get(a, orders[j].name) == Get(b, orders[j].name)
  }

  /** A value that comes first in an ascending column is the smaller one, and in a
      descending column the larger one. */
  ghost predicate ComesFirst(x: Value, y: Value, ascending: bool) {
    match (x, y)
    case (Int(i), Int(j)) => if ascending then i < j else i > j
    case (Date(i), Date(j)) => if ascending then i < j else i > j
    case (Float(f), Float(g)) => if ascending then f < g else f > g
    case (Str(s), Str(t)) => if ascending then Before(s, t) else Before(t, s)
    case _ => false
  }

  lemma {:induction false} LessMeans(x: Value, y: Value)
    requires SameKind(x, y)
    ensures Less(x, y) <==> ComesFirst(x, y, true)
    ensures Less(y, x) <==> ComesFirst(x, y, false)
  {
    if x.Str? {
      StrLessIff(x.s, y.s);
      StrLessIff(y.s, x.s);
    }
  }

  /** One row is less than another exactly if it comes first in the first order column
      on which they differ. */
  lemma {:induction false} RowLessMeans(orders: seq<OrderKey>, a: Row, b: Row, k: nat)
    requires Comparable(orders, a, b) && DifferFirst(orders, a, b, k)
    ensures RowLess(orders, a, b)
       <==> ComesFirst(Get(a, orders[k].name), Get(b, orders[k].name), orders[k].ascending)
  {
    LessMeans(Get(a, orders[0].name), Get(b, orders[0].name));
    if k > 0 {
      assert Comparable(orders[1..], a, b);
      assert forall j :: 0 <= j < k - 1 ==> orders[1..][j] == orders[j + 1];
      assert DifferFirst(orders[1..], a, b, k - 1);
      RowLessMeans(orders[1..], a, b, k - 1);
    }
  }

  /** Of any two rows the earlier comes first in the first order column on which they
      differ. */
  ghost predicate Ordered(orders: seq<OrderKey>, rows: seq<Row>) {
    forall a, b, k: nat :: 0 <= a < b < |rows| && DifferFirst(orders, rows[a], rows[b], k) ==>
      ComesFirst(Get(rows[a], orders[k].name), Get(rows[b], orders[k].name), orders[k].ascending)
  }

  lemma {:induction false} FindDifference(orders: seq<OrderKey>, a: Row, b: Row) returns (k: nat)
    requires !SameOrderKeys(orders, a, b)
    ensures DifferFirst(orders, a, b, k)
  {
    k := 0;
    while Get(a, orders[k].name) == Get(b, orders[k].name)
      invariant k < |orders| && forall j :: 0 <= j < k ==> Get(a, orders[j].name) == Get(b, orders[j].name)
      decreases |orders| - k
    {
      k := k + 1;
    }
  }

  /** Two rows are in order exactly if the first column on which they differ says so. */
  lemma {:induction false} PairOrdered(orders: seq<OrderKey>, a: Row, b: Row)
    requires Comparable(orders, a, b)
    ensures !RowLess(orders, b, a) <==> forall k: nat :: DifferFirst(orders, a, b, k) ==>
      ComesFirst(Get(a, orders[k].name), Get(b, orders[k].name), orders[k].ascending)
  {
    RowLessTrichotomy(orders, a, b);
    forall k: nat | DifferFirst(orders, a, b, k)
      ensures RowLess(orders, a, b)
         <==> ComesFirst(Get(a, orders[k].name), Get(b, orders[k].name), orders[k].ascending)
    {
      RowLessMeans(orders, a, b, k);
    }
    if !SameOrderKeys(orders, a, b) {
      var k := FindDifference(orders, a, b);
    }
  }

  /** A table is sorted by the comparator exactly if its rows are ordered so. */
  lemma {:induction false} SortedMeans(orders: seq<OrderKey>, rows: seq<Row>)
    requires AllComparable(rows, orders)
    ensures SortedRows(orders, rows) <==> Ordered(orders, rows)
  {
    forall a, b | 0 <= a < b < |rows|
      ensures !RowLess(orders, rows[b], rows[a]) <==> forall k: nat :: DifferFirst(orders, rows[a], rows[b], k) ==>
        ComesFirst(Get(rows[a], orders[k].name), Get(rows[b], orders[k].name), orders[k].ascending)
    {
      PairOrdered(orders, rows[a], rows[b]);
    }
  }

  lemma {:induction false} GatherSorted(rows: seq<Row>, orders: seq<OrderKey>, idx: seq<nat>)
    requires SortedIndex(rows, orders, idx)
    ensures SortedRows(orders, Gather(rows, idx))
  {
    forall a, b | 0 <= a < b < |idx| ensures !RowLess(orders, Gather(rows, idx)[b], Gather(rows, idx)[a]) {
      assert InOrder(rows, orders, idx[a], idx[b]);
    }
  }

  /** ORDER BY: the result holds the input rows, permuted, in sorted order. */
  method OrderBy(t: TableData, orders: seq<OrderKey>) returns (dest: TableData)
    requires WellFormed(t) && OrderColumns(orders, t)
    ensures WellFormed(dest) && SchemaOf(dest).Keys == SchemaOf(t).Keys
    ensures multiset(Rows(dest)) == multiset(Rows(t))
    ensures SortedRows(orders, Rows(dest)) && Ordered(orders, Rows(dest))
  {
    if t.rowCount == 0 {
      dest := t;
      return;
    }
    var index: seq<nat> := [];
    for i := 0 to t.rowCount
      invariant index == Iota(i)
    {
      index := index + [i];
    }
    RowsAllComparable(orders, t);
    var sorted := Sort(t, Rows(t), orders, index);
    dest := GatherTable(t, sorted);
    RepresentsRows(dest, SchemaOf(t), Gather(Rows(t), sorted));
    GatherSorted(Rows(t), orders, sorted);
    assert InRange(Iota(t.rowCount), t.rowCount);
    GatherPermuted(Rows(t), sorted, Iota(t.rowCount));
    GatherAll(Rows(t));
    GatheredComparable(Rows(t), orders, sorted);
    SortedMeans(orders, Rows(dest));
  }

  lemma {:induction false} GatheredComparable(rows: seq<Row>, orders: seq<OrderKey>, idx: seq<nat>)
    requires AllComparable(rows, orders) && InRange(idx, |rows|)
    ensures AllComparable(Gather(rows, idx), orders)
  {
    forall i, j | 0 <= i < |idx| && 0 <= j < |idx|
      ensures Comparable(orders, Gather(rows, idx)[i], Gather(rows, idx)[j])
    {
      assert Comparable(orders, rows[idx[i]], rows[idx[j]]);
    }
  }

  // -------------------------------------------------------------------- limit

  /** What slicing a vector from `offset` to `length` gives: undefined where the
      one lies behind the other. */
  datatype Saving<T> = Saved(value: T) | Undefined

  /** `saveTableData`: rows [offset, length) when the length fits, else all. */
  method SaveRows(t: TableData, offset: nat, length: nat) returns (out: Saving<TableData>)
    requires WellFormed(t)
    ensures out.Saved? ==> WellFormed(out.value) && SavedRows(Rows(t), offset, length) == Saved(Rows(out.value))
    ensures out.Undefined? ==> SavedRows(Rows(t), offset, length) == Undefined
  {
    if length <= t.rowCount {
      if offset > length {
        return Undefined;
      }
      var saved := SliceColumns(t, offset, length);
      return Saved(saved);
    } else {
      return Saved(t);
    }
  }

  method SliceColumns(t: TableData, offset: nat, length: nat) returns (saved: TableData)
    requires WellFormed(t) && offset <= length <= t.rowCount
    ensures WellFormed(saved) && Rows(saved) == Rows(t)[offset..length]
  {
    var cols: map<string, ColData> := map[];
    var todo := t.columns.Keys;
    while todo != {}
      invariant todo <= t.columns.Keys
      invariant cols.Keys == t.columns.Keys - todo
      invariant forall c :: c in cols ==> cols[c] == SliceColumn(t.columns[c], offset, length)
    {
      var c :| c in todo;
      cols := cols[c := SliceColumn(t.columns[c], offset, length)];
      todo := todo - {c};
    }
    saved := TableData(cols, length - offset);
    SliceTable(t, saved, offset, length);
  }

  function SliceColumn(c: ColData, offset: nat, length: nat): ColData
    requires Storable(c.colType) && Aligned(c, c.rowCount) && offset <= length <= c.rowCount
  {
    var col := EMPTY_COLUMN.(isnull := c.isnull[offset..length], rowCount := length - offset, colType := c.colType);
    match c.colType
    case TypeString => col.(strvec := c.strvec[offset..length])
    case TypeFloat => col.(floatvec := c.floatvec[offset..length], realSize := c.realSize)
    case _ => col.(intvec := c.intvec[offset..length])
  }

  function SavedRows(rows: seq<Row>, offset: nat, length: nat): Saving<seq<Row>> {
    if length > |rows| then Saved(rows)
    else if offset > length then Undefined
    else Saved(rows[offset..length])
  }

  lemma {:induction false} SliceTable(t: TableData, saved: TableData, offset: nat, length: nat)
    requires WellFormed(t) && offset <= length <= t.rowCount
    requires saved.rowCount == length - offset && saved.columns.Keys == t.columns.Keys
    requires forall c :: c in t.columns ==> saved.columns[c] == SliceColumn(t.columns[c], offset, length)
    ensures WellFormed(saved) && Rows(saved) == Rows(t)[offset..length]
  {
    forall c | c in saved.columns
      ensures Storable(saved.columns[c].colType) && Aligned(saved.columns[c], saved.rowCount)
    {
      SlicedCells(t.columns[c], offset, length);
    }
    forall r | 0 <= r < saved.rowCount ensures RowAt(saved, r) == RowAt(t, offset + r) {
      SlicedRow(t, saved, offset, length, r);
    }
  }

  lemma {:induction false} SlicedRow(t: TableData, saved: TableData, offset: nat, length: nat, r: nat)
    requires WellFormed(t) && WellFormed(saved) && offset <= length <= t.rowCount
    requires saved.rowCount == length - offset && saved.columns.Keys == t.columns.Keys
    requires forall c :: c in t.columns ==> saved.columns[c] == SliceColumn(t.columns[c], offset, length)
    requires r < length - offset
    ensures RowAt(saved, r) == RowAt(t, offset + r)
  {
    assert RowAt(saved, r).Keys == RowAt(t, offset + r).Keys;
    forall c | c in t.columns ensures RowAt(saved, r)[c] == RowAt(t, offset + r)[c] {
      SlicedCells(t.columns[c], offset, length);
    }
  }

  lemma {:induction false} SlicedCells(c: ColData, offset: nat, length: nat)
    requires Storable(c.colType) && Aligned(c, c.rowCount) && offset <= length <= c.rowCount
    ensures Aligned(SliceColumn(c, offset, length), length - offset)
    ensures forall r :: 0 <= r < length - offset ==> CellAt(SliceColumn(c, offset, length), r) == CellAt(c, offset + r)
  {
  }

  /** `LIMIT offset, length`: at most `length` rows after skipping `offset`. */
  function LimitRows(rows: seq<Row>, offset: nat, length: nat): seq<Row> {
    rows[Min(offset, |rows|)..Min(offset + length, |rows|)]
  }

  /** The saved rows are the limited rows exactly when the offset is not behind a
      length that fits, and nothing is skipped, or the length is the row count,
      or there is no row. */
  lemma {:induction false} SavedIsLimitIff(rows: seq<Row>, offset: nat, length: nat)
    ensures SavedRows(rows, offset, length) == Saved(LimitRows(rows, offset, length))
       <==> (length <= |rows| ==> offset <= length) && (offset == 0 || length == |rows| || rows == [])
  {
    var limited := LimitRows(rows, offset, length);
    if length > |rows| {
      assert |rows| == |limited| <==> offset == 0 || rows == [];
      assert |rows| == |limited| ==> rows == limited;
    } else if offset <= length {
      var saved := rows[offset..length];
      assert |saved| == |limited| <==> offset == 0 || length == |rows|;
      assert |saved| == |limited| ==> saved == limited;
    }
  }
}
