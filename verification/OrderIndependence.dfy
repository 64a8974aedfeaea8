/** The ordered result of a grouped query does not depend on the order in which
    the rows of its input table arrived. */
module OrderIndependence {
  import opened Tables
  import opened Keys
  import opened Filters
  import opened Expressions
  import opened Grouping
  import opened Aggregates
  import opened Ordering
  import opened Permutations
  import opened Projections
  import opened ResultPipeline

  // ----------------------------------------------------- sorted without ties

  /** No two rows agree on all order columns. */
  ghost predicate NoTies(orders: seq<OrderKey>, rows: seq<Row>) {
    forall i, j :: 0 <= i < j < |rows| ==> !SameOrderKeys(orders, rows[i], rows[j])
  }

  lemma {:induction false} LastIsLargest(orders: seq<OrderKey>, x: seq<Row>, y: seq<Row>)
    requires x != [] && multiset(x) == multiset(y) && |y| == |x|
    requires SortedRows(orders, x) && SortedRows(orders, y)
    requires AllComparable(x, orders) && NoTies(orders, x)
    ensures x[|x| - 1] == y[|x| - 1]
  {
    var n := |x| - 1;
    Permuted(x, y, y[n]);
    var i :| 0 <= i < |x| && x[i] == y[n];
    Permuted(y, x, x[n]);
    var j :| 0 <= j < |y| && y[j] == x[n];
    if i < n && j < n {
      assert !RowLess(orders, x[n], x[i]);
      assert !RowLess(orders, y[n], y[j]);
      RowLessTrichotomy(orders, x[i], x[n]);
    }
  }

  /** A sorted sequence without ties is determined by its rows. */
  lemma {:induction false} SortedIsUnique(orders: seq<OrderKey>, x: seq<Row>, y: seq<Row>)
    requires multiset(x) == multiset(y)
    requires SortedRows(orders, x) && SortedRows(orders, y)
    requires AllComparable(x, orders) && NoTies(orders, x)
    ensures x == y
  {
    NothingPermuted(x, y);
    if x != [] {
      var n := |x| - 1;
      LastIsLargest(orders, x, y);
      SameRest(x, y);
      PrefixSorted(orders, x, n);
      PrefixSorted(orders, y, n);
      PrefixApart(orders, x, n);
      SortedIsUnique(orders, x[..n], y[..n]);
      assert x == x[..n] + [x[n]] && y == y[..n] + [y[n]];
    }
  }

  lemma {:induction false} SameRest(x: seq<Row>, y: seq<Row>)
    requires x != [] && |x| == |y| && multiset(x) == multiset(y) && x[|x| - 1] == y[|x| - 1]
    ensures multiset(x[..|x| - 1]) == multiset(y[..|x| - 1])
  {
    var n := |x| - 1;
    assert x == x[..n] + [x[n]] && y == y[..n] + [y[n]];
    assert multiset(x[..n]) == multiset(x) - multiset{x[n]} == multiset(y[..n]);
  }

  lemma {:induction false} PrefixSorted(orders: seq<OrderKey>, x: seq<Row>, n: nat)
    requires n <= |x| && SortedRows(orders, x)
    ensures SortedRows(orders, x[..n])
  {
  }

  lemma {:induction false} PrefixApart(orders: seq<OrderKey>, x: seq<Row>, n: nat)
    requires n <= |x| && AllComparable(x, orders) && NoTies(orders, x)
    ensures AllComparable(x[..n], orders) && NoTies(orders, x[..n])
  {
  }

  // ------------------------------------------------------------- group values

  lemma {:induction false} GroupMember(rows: seq<Row>, groups: seq<string>, key: string, x: Row) returns (r: nat)
    requires x in GroupOf(rows, groups, key)
    ensures r < |rows| && GroupKey(rows[r], groups) == key && x == TrimRow(rows[r], groups)
  {
    var n := |rows| - 1;
    if x in GroupOf(rows[..n], groups, key) {
      r := GroupMember(rows[..n], groups, key, x);
    } else {
      r := n;
    }
  }

  /** The group columns exist, and hold integers, dates or strings whose parts
      of the key cannot be confused. */
  ghost predicate Groupable(t: TableData, groups: seq<string>)
    requires WellFormed(t)
  {
    && (forall g :: 0 <= g < |groups| ==> groups[g] in t.columns && !t.columns[groups[g]].colType.TypeFloat?)
    && (|groups| <= 1 || forall r :: 0 <= r < t.rowCount ==> BarFree(GroupParts(RowAt(t, r), groups)))
  }

  lemma {:induction false} SameGroupSameValues(t: TableData, groups: seq<string>, i: nat, j: nat)
    requires WellFormed(t) && Groupable(t, groups) && i < t.rowCount && j < t.rowCount
    ensures GroupKey(RowAt(t, i), groups) == GroupKey(RowAt(t, j), groups)
       <==> SameGroupValues(RowAt(t, i), RowAt(t, j), groups)
  {
    RowIsTyped(t, i);
    RowIsTyped(t, j);
    assert SameTypes(RowAt(t, i), RowAt(t, j), groups) by {
      forall g | 0 <= g < |groups|
        ensures SameKind(Get(RowAt(t, i), groups[g]), Get(RowAt(t, j), groups[g]))
      {
        assert groups[g] in t.columns;
      }
    }
    forall g | 0 <= g < |groups| ensures !Get(RowAt(t, i), groups[g]).Float? {
      assert groups[g] in t.columns;
    }
    SameKeyIff(RowAt(t, i), RowAt(t, j), groups);
  }

  /** Integer group columns never confuse keys. */
  lemma {:induction false} IntegerPartsAreBarFree(row: Row, groups: seq<string>)
    requires forall g :: 0 <= g < |groups| ==> Get(row, groups[g]).Int?
    ensures BarFree(GroupParts(row, groups))
  {
    if groups != [] {
      var n := |groups| - 1;
      IntegerPartsAreBarFree(row, groups[..n]);
      var i := Get(row, groups[n]).i;
      NumbersHaveNoBar(i);
      assert GroupParts(row, groups) == GroupParts(row, groups[..n]) + [ToString(i)];
    }
  }

  lemma {:induction false} NumbersHaveNoBar(i: int)
    ensures '|' !in ToString(i)
  {
    NatToStringDigits(if i < 0 then -i else i);
  }

  lemma {:induction false} TrimmedGet(row: Row, groups: seq<string>, c: string)
    requires c in groups
    ensures Get(TrimRow(row, groups), c) == TrimValue(Get(row, c))
  {
  }

  // -------------------------------------------------------------- projections

  /** Projections whose value on a group depends only on which rows it has. */
  ghost predicate Insensitive(p: Projection, t: TableData, groups: seq<string>)
    requires WellFormed(t)
  {
    match p.select
    case CountStar => true
    case Count => true
    case DistinctCount => true
    case SumOf => AllInt(TrimRows(Rows(t), groups), EvalOn(p.form, SchemaOf(t)))
    case AvgOf => AllInt(TrimRows(Rows(t), groups), EvalOn(p.form, SchemaOf(t)))
    case MinOfAll => AllInt(TrimRows(Rows(t), groups), EvalOn(p.form, SchemaOf(t)))
    case MaxOfAll => AllInt(TrimRows(Rows(t), groups), EvalOn(p.form, SchemaOf(t)))
    case ColumnName => exists g :: 0 <= g < |groups| && p.form == Terms([Column(groups[g])])
  }

  lemma {:induction false} GroupColumnConstant(t: TableData, groups: seq<string>, key: string, c: string)
    requires WellFormed(t) && Groupable(t, groups) && c in groups
    ensures OrderFree(Projection(ColumnName, Terms([Column(c)])), SchemaOf(t), GroupOf(Rows(t), groups, key))
  {
    var rows, f := GroupOf(Rows(t), groups, key), EvalOn(Terms([Column(c)]), SchemaOf(t));
    forall i, j | 0 <= i < |rows| && 0 <= j < |rows| ensures f(rows[i]) == f(rows[j]) {
      var a := GroupMember(Rows(t), groups, key, rows[i]);
      var b := GroupMember(Rows(t), groups, key, rows[j]);
      SameGroupSameValues(t, groups, a, b);
      var g :| 0 <= g < |groups| && groups[g] == c;
      TrimmedGet(RowAt(t, a), groups, c);
      TrimmedGet(RowAt(t, b), groups, c);
      EvalColumn(c, SchemaOf(t), rows[i]);
      EvalColumn(c, SchemaOf(t), rows[j]);
    }
  }

  lemma {:induction false} IntegersInGroup(t: TableData, groups: seq<string>, key: string, f: Row -> T)
    requires WellFormed(t) && AllInt(TrimRows(Rows(t), groups), f)
    ensures AllInt(GroupOf(Rows(t), groups, key), f)
  {
    var rows := GroupOf(Rows(t), groups, key);
    forall i | 0 <= i < |rows|
      ensures f(rows[i]).vtype.TypeInt? && f(rows[i]) == EMPTY_T.(varInt := f(rows[i]).varInt, vtype := TypeInt)
    {
      var r := GroupMember(Rows(t), groups, key, rows[i]);
      assert TrimRows(Rows(t), groups)[r] == rows[i];
    }
  }

  lemma {:induction false} InsensitiveIsOrderFree(p: Projection, t: TableData, groups: seq<string>, key: string)
    requires WellFormed(t) && Groupable(t, groups) && Insensitive(p, t, groups)
    ensures OrderFree(p, SchemaOf(t), GroupOf(Rows(t), groups, key))
  {
    match p.select
    case ColumnName =>
      var g :| 0 <= g < |groups| && p.form == Terms([Column(groups[g])]);
      GroupColumnConstant(t, groups, key, groups[g]);
    case CountStar =>
    case Count =>
    case DistinctCount =>
    case _ => IntegersInGroup(t, groups, key, EvalOn(p.form, SchemaOf(t)));
  }

  // ------------------------------------------------------------- result rows

  /** A key has the same result row in both tables. */
  lemma {:induction false} SameRowOfKey(t: TableData, u: TableData, groups: seq<string>, ps: seq<Projection>,
                                        alias: seq<string>, key: string)
    requires WellFormed(t) && WellFormed(u) && SchemaOf(t) == SchemaOf(u) && multiset(Rows(t)) == multiset(Rows(u))
    requires |ps| == |alias| && Groupable(t, groups)
    requires forall k :: 0 <= k < |ps| ==> Insensitive(ps[k], t, groups)
    ensures RowOfKey(t, groups, ps, alias)(key) == RowOfKey(u, groups, ps, alias)(key)
  {
    var a, b := GroupOf(Rows(t), groups, key), GroupOf(Rows(u), groups, key);
    GroupPermuted(Rows(t), Rows(u), groups, key);
    NothingPermuted(a, b);
    if a != [] {
      forall k | 0 <= k < |ps| ensures OrderFree(ps[k], SchemaOf(t), a) {
        InsensitiveIsOrderFree(ps[k], t, groups, key);
      }
      AggRowPermuted(ps, alias, SchemaOf(t), a, b);
    }
  }

  /** The same result rows, whatever order the keys appear in. */
  lemma {:induction false} SameResultRows(t: TableData, u: TableData, groups: seq<string>, ps: seq<Projection>,
                                          alias: seq<string>)
    requires WellFormed(t) && WellFormed(u) && SchemaOf(t) == SchemaOf(u) && multiset(Rows(t)) == multiset(Rows(u))
    requires |ps| == |alias| && Groupable(t, groups)
    requires forall k :: 0 <= k < |ps| ==> Insensitive(ps[k], t, groups)
    ensures multiset(ResultRows(t, groups, ps, alias)) == multiset(ResultRows(u, groups, ps, alias))
  {
    var a, b := KeysOf(Rows(t), groups), KeysOf(Rows(u), groups);
    KeysOfRows(Rows(t), groups);
    KeysOfRows(Rows(u), groups);
    KeysPermuted(Rows(t), Rows(u), groups);
    SameMembers(a, b);
    var f, g := RowOfKey(t, groups, ps, alias), RowOfKey(u, groups, ps, alias);
    forall k | k in b ensures f(k) == g(k) {
      SameRowOfKey(t, u, groups, ps, alias, k);
    }
    MapPermuted(a, b, f);
    assert MapSeq(b, f) == MapSeq(b, g);
  }

  // ------------------------------------------------------ distinct order keys

  /** Every group column is projected and ordered by. */
  ghost predicate OrdersCover(groups: seq<string>, ps: seq<Projection>, alias: seq<string>, orders: seq<OrderKey>)
    requires |ps| == |alias|
  {
    forall g :: 0 <= g < |groups| ==> exists k, j :: Covers(groups[g], ps, alias, orders, k, j)
  }

  predicate Covers(c: string, ps: seq<Projection>, alias: seq<string>, orders: seq<OrderKey>, k: int, j: int)
    requires |ps| == |alias|
  {
    0 <= k < |ps| && 0 <= j < |orders| && ps[k] == Projection(ColumnName, Terms([Column(c)]))
      && orders[j].name == alias[k]
  }

  /** Every row of a group shows the (trimmed) group value of any row with the key. */
  lemma {:induction false} GroupValue(t: TableData, groups: seq<string>, r: nat, x: Row, c: string)
    requires WellFormed(t) && Groupable(t, groups) && r < t.rowCount && c in groups
    requires x in GroupOf(Rows(t), groups, GroupKey(RowAt(t, r), groups))
    ensures Get(x, c) == TrimValue(Get(RowAt(t, r), c))
  {
    var a := GroupMember(Rows(t), groups, GroupKey(RowAt(t, r), groups), x);
    SameGroupSameValues(t, groups, a, r);
    TrimmedGet(RowAt(t, a), groups, c);
  }

  lemma {:induction false} OwnGroup(t: TableData, groups: seq<string>, r: nat)
    requires WellFormed(t) && r < t.rowCount
    ensures GroupOf(Rows(t), groups, GroupKey(RowAt(t, r), groups)) != []
  {
    KeysOfRows(Rows(t), groups);
    assert GroupKey(Rows(t)[r], groups) == GroupKey(RowAt(t, r), groups);
    GroupOfNonEmpty(Rows(t), groups, GroupKey(RowAt(t, r), groups));
  }

  lemma {:induction false} ColumnCell(c: string, schema: Schema, rows: seq<Row>)
    requires rows != [] && !Get(rows[0], c).Float?
    ensures CellOf(AggT(Projection(ColumnName, Terms([Column(c)])), schema, rows)).value == Get(rows[0], c)
  {
    EvalColumn(c, schema, rows[0]);
    ShownIsLoaded(Get(rows[0], c), ScaleOf(schema, c));
  }

  /** A projected group column shows the (trimmed) group value of any row with the key. */
  lemma {:induction false} ShownGroupValue(t: TableData, groups: seq<string>, ps: seq<Projection>, alias: seq<string>,
                                           r: nat, g: nat, k: nat)
    requires WellFormed(t) && Groupable(t, groups) && r < t.rowCount && g < |groups|
    requires |ps| == |alias| && DistinctNames(alias) && k < |ps|
    requires ps[k] == Projection(ColumnName, Terms([Column(groups[g])]))
    ensures Get(RowOfKey(t, groups, ps, alias)(GroupKey(RowAt(t, r), groups)), alias[k])
         == TrimValue(Get(RowAt(t, r), groups[g]))
  {
    var rows := GroupOf(Rows(t), groups, GroupKey(RowAt(t, r), groups));
    OwnGroup(t, groups, r);
    AggRowCell(ps, alias, SchemaOf(t), rows, k);
    GroupValue(t, groups, r, rows[0], groups[g]);
    RowIsTyped(t, r);
    ColumnCell(groups[g], SchemaOf(t), rows);
  }

  lemma {:induction false} ShownIsLoaded(v: Value, scale: int)
    requires !v.Float?
    ensures CellOf(LoadValue(v, scale)).value == v
  {
  }

  lemma {:induction false} DifferentKeysDifferentOrder(t: TableData, groups: seq<string>, ps: seq<Projection>,
                                                       alias: seq<string>,
                                    orders: seq<OrderKey>, i: nat, j: nat)
    requires WellFormed(t) && Groupable(t, groups) && i < t.rowCount && j < t.rowCount
    requires |ps| == |alias| && DistinctNames(alias) && OrdersCover(groups, ps, alias, orders)
    requires GroupKey(RowAt(t, i), groups) != GroupKey(RowAt(t, j), groups)
    ensures !SameOrderKeys(orders, RowOfKey(t, groups, ps, alias)(GroupKey(RowAt(t, i), groups)),
                                   RowOfKey(t, groups, ps, alias)(GroupKey(RowAt(t, j), groups)))
  {
    SameGroupSameValues(t, groups, i, j);
    var g :| 0 <= g < |groups| && TrimValue(Get(RowAt(t, i), groups[g])) != TrimValue(Get(RowAt(t, j), groups[g]));
    var k, o :| Covers(groups[g], ps, alias, orders, k, o);
    ShownGroupValue(t, groups, ps, alias, i, g, k);
    ShownGroupValue(t, groups, ps, alias, j, g, k);
  }

  lemma {:induction false} KeyHasRow(t: TableData, groups: seq<string>, k: string) returns (r: nat)
    requires WellFormed(t) && k in KeysOf(Rows(t), groups)
    ensures r < t.rowCount && GroupKey(RowAt(t, r), groups) == k
  {
    KeysOfRows(Rows(t), groups);
    r :| 0 <= r < t.rowCount && GroupKey(Rows(t)[r], groups) == k;
  }

  lemma {:induction false} ResultHasNoTies(t: TableData, groups: seq<string>, ps: seq<Projection>, alias: seq<string>,
                                           orders: seq<OrderKey>)
    requires WellFormed(t) && Groupable(t, groups)
    requires |ps| == |alias| && DistinctNames(alias) && OrdersCover(groups, ps, alias, orders)
    ensures NoTies(orders, ResultRows(t, groups, ps, alias))
  {
    var ks, rows := KeysOf(Rows(t), groups), ResultRows(t, groups, ps, alias);
    KeysOfRows(Rows(t), groups);
    forall i, j | 0 <= i < j < |rows| ensures !SameOrderKeys(orders, rows[i], rows[j]) {
      var a := KeyHasRow(t, groups, ks[i]);
      var b := KeyHasRow(t, groups, ks[j]);
      DifferentKeysDifferentOrder(t, groups, ps, alias, orders, a, b);
    }
  }

  lemma {:induction false} CellKind(v: T, info: ColInfo)
    requires Fits(v, info)
    ensures TypedAs(CellOf(v).value, info.colType)
  {
  }

  lemma {:induction false} ResultComparable(t: TableData, groups: seq<string>, ps: seq<Projection>, alias: seq<string>,
                         infos: seq<ColInfo>, orders: seq<OrderKey>)
    requires WellFormed(t) && |ps| == |alias| && DistinctNames(alias) && AllFit(ps, infos, t, groups)
    requires forall k :: 0 <= k < |orders| ==> orders[k].name in alias
    ensures AllComparable(ResultRows(t, groups, ps, alias), orders)
  {
    var ks, rows := KeysOf(Rows(t), groups), ResultRows(t, groups, ps, alias);
    forall i, j | 0 <= i < |rows| && 0 <= j < |rows| ensures Comparable(orders, rows[i], rows[j]) {
      forall o | 0 <= o < |orders| ensures SameKind(Get(rows[i], orders[o].name), Get(rows[j], orders[o].name)) {
        var k :| 0 <= k < |alias| && alias[k] == orders[o].name;
        ResultKind(t, groups, ps, alias, infos, ks[i], k);
        ResultKind(t, groups, ps, alias, infos, ks[j], k);
      }
    }
  }

  lemma {:induction false} ResultKind(t: TableData, groups: seq<string>, ps: seq<Projection>, alias: seq<string>,
                                      infos: seq<ColInfo>, key: string, k: nat)
    requires WellFormed(t) && |ps| == |alias| && DistinctNames(alias) && AllFit(ps, infos, t, groups)
    requires key in KeysOf(Rows(t), groups) && k < |alias|
    ensures |infos| == |ps| && Storable(infos[k].colType)
    ensures TypedAs(Get(RowOfKey(t, groups, ps, alias)(key), alias[k]), infos[k].colType)
  {
    var rows := GroupOf(Rows(t), groups, key);
    assert GroupFits(ps, infos, SchemaOf(t), rows);
    AggRowCell(ps, alias, SchemaOf(t), rows, k);
    CellKind(AggT(ps[k], SchemaOf(t), rows), infos[k]);
  }

  lemma {:induction false} NoTiesPermuted(orders: seq<OrderKey>, x: seq<Row>, y: seq<Row>)
    requires multiset(x) == multiset(y) && NoTies(orders, y) && AllComparable(y, orders)
    ensures NoTies(orders, x) && AllComparable(x, orders)
  {
    forall i, j | 0 <= i < |x| && 0 <= j < |x| ensures Comparable(orders, x[i], x[j]) {
      Permuted(y, x, x[i]);
      Permuted(y, x, x[j]);
    }
    forall i, j | 0 <= i < j < |x| ensures !SameOrderKeys(orders, x[i], x[j]) {
      Apart(orders, x, y, i, j);
    }
  }

  lemma {:induction false} Apart(orders: seq<OrderKey>, x: seq<Row>, y: seq<Row>, i: nat, j: nat)
    requires multiset(x) == multiset(y) && NoTies(orders, y) && i < j < |x|
    ensures !SameOrderKeys(orders, x[i], x[j])
  {
    Permuted(y, x, x[i]);
    Permuted(y, x, x[j]);
    var a :| 0 <= a < |y| && y[a] == x[i];
    var b :| 0 <= b < |y| && y[b] == x[j];
    if a == b {
      Twice(x, i, j);
      forall p, q | 0 <= p < q < |y| ensures y[p] != y[q] {
        assert !SameOrderKeys(orders, y[p], y[q]);
      }
      CountDistinct(y, x[i]);
    } else if a < b {
      assert !SameOrderKeys(orders, y[a], y[b]);
    } else {
      assert !SameOrderKeys(orders, y[b], y[a]);
    }
  }

  lemma {:induction false} Twice<X>(s: seq<X>, i: nat, j: nat)
    requires i < j < |s| && s[i] == s[j]
    ensures multiset(s)[s[i]] >= 2
  {
    assert s == s[..i] + [s[i]] + s[i + 1..j] + [s[j]] + s[j + 1..];
  }

  // ------------------------------------------------------------- main theorem

  /** What the query has to look like: columns that can be grouped, projections
      that only depend on which rows a group has, every group column among the
      ORDER BY columns. */
  ghost predicate OrderedQuery(t: TableData, groups: seq<string>, ps: seq<Projection>, alias: seq<string>,
                               infos: seq<ColInfo>, orders: seq<OrderKey>)
    requires WellFormed(t)
  {
    && |ps| == |alias| && DistinctNames(alias)
    && Groupable(t, groups)
    && AllFit(ps, infos, t, groups)
    && (forall k :: 0 <= k < |ps| ==> Insensitive(ps[k], t, groups))
    && (forall k :: 0 <= k < |orders| ==> orders[k].name in alias)
    && OrdersCover(groups, ps, alias, orders)
  }

  /** Two tables with the same rows in any two orders have one and the same
      result, row by row. */
  lemma {:induction false} ArrivalOrderIsImmaterial(t: TableData, u: TableData, groups: seq<string>,
                                                    ps: seq<Projection>, alias: seq<string>,
                                 infos: seq<ColInfo>, orders: seq<OrderKey>, x: seq<Row>, y: seq<Row>)
    requires WellFormed(t) && WellFormed(u) && SchemaOf(t) == SchemaOf(u) && multiset(Rows(t)) == multiset(Rows(u))
    requires OrderedQuery(t, groups, ps, alias, infos, orders)
    requires OrderedResult(x, t, groups, ps, alias, orders)
    requires OrderedResult(y, u, groups, ps, alias, orders)
    ensures x == y
  {
    SameResultRows(t, u, groups, ps, alias);
    ResultHasNoTies(t, groups, ps, alias, orders);
    ResultComparable(t, groups, ps, alias, infos, orders);
    NoTiesPermuted(orders, x, ResultRows(t, groups, ps, alias));
    SortedIsUnique(orders, x, y);
  }
}
