/** Hash keys and hash tables built from columns, and the loops over filter
    lists: the parts that all join operators share. */
module HashTable {
  import opened Tables
  import opened Keys
  import Rounding
  import opened Filters
  import opened Joins

  // ------------------------------------------------------------ preconditions

  /** The columns a filter list compares exist; a non-equality comparison on a
      string, integer or float column meets a column of the same type. */
  ghost predicate FilterColumns(fs: seq<Filter>, left: Schema, right: Schema) {
    forall k :: 0 <= k < |fs| && Comparison(fs[k].op) ==>
      && fs[k].lv in left && fs[k].rv in right
      && (NonEquality(fs[k].op) ==>
            left[fs[k].lv].colType.TypeDate? || left[fs[k].lv].colType == right[fs[k].rv].colType)
  }

  ghost predicate InSchema(cols: seq<string>, s: Schema) {
    forall k :: 0 <= k < |cols| ==> cols[k] in s
  }

  // -------------------------------------------------------------- key columns

  /** The `switch` over the column type that extends a key by one component. */
  method AppendKeyPart(key: string, col: ColData, r: nat, build: bool) returns (longer: string)
    requires Storable(col.colType) && Aligned(col, col.rowCount) && r < col.rowCount
    ensures longer == key + JoinKey(KeyPart(ValueAt(col, r), build))
  {
    longer := key;
    match col.colType
    case TypeString =>
      longer := longer + "|" + col.strvec[r];
      JoinKeySingle(key, col.strvec[r]);
    case TypeInt =>
      longer := longer + "|" + ToString(col.intvec[r]);
      JoinKeySingle(key, ToString(col.intvec[r]));
    case TypeDate =>
      if build {
        longer := longer + "|" + ToString(col.intvec[r]);
        JoinKeySingle(key, ToString(col.intvec[r]));
      } else {
        assert key + "" == key;
      }
    case TypeFloat =>
      longer := longer + "|" + FloatToString(col.floatvec[r]);
      JoinKeySingle(key, FloatToString(col.floatvec[r]));
    case _ =>
      assert false;
  }

  /** The key loop shared by the build side and the probe sides. */
  method HashKey(t: TableData, cols: seq<string>, r: nat, build: bool) returns (key: string)
    requires WellFormed(t) && r < t.rowCount
    requires InSchema(cols, SchemaOf(t))
    ensures key == JoinKey(KeyParts(RowAt(t, r), cols, build))
  {
    key := "";
    ghost var row := RowAt(t, r);
    for f := 0 to |cols|
      invariant key == JoinKey(KeyParts(row, cols[..f], build))
    {
      var c := cols[f];
      assert c in t.columns && Get(row, c) == ValueAt(t.columns[c], r);
      OneMorePart(row, cols, f, build, KeyPart(ValueAt(t.columns[c], r), build), key);
      key := AppendKeyPart(key, t.columns[c], r, build);
    }
    assert cols[..|cols|] == cols;
  }

  lemma {:induction false} OneMorePart(row: Row, cols: seq<string>, f: nat, build: bool, part: seq<string>, key: string)
    requires f < |cols| && part == KeyPart(Get(row, cols[f]), build)
    requires key == JoinKey(KeyParts(row, cols[..f], build))
    ensures key + JoinKey(part) == JoinKey(KeyParts(row, cols[..f + 1], build))
  {
    assert cols[..f + 1] == cols[..f] + [cols[f]];
    KeyPartsStep(row, cols[..f], cols[f], build);
    JoinKeyAppend(KeyParts(row, cols[..f], build), part);
  }

  /** The columns of the equality filters, in filter order. */
  method EqualJoinColumns(fs: seq<Filter>) returns (left: seq<string>, right: seq<string>)
    ensures left == EqLeft(fs) && right == EqRight(fs)
  {
    left, right := [], [];
    for f := 0 to |fs|
      invariant left == EqLeft(fs[..f]) && right == EqRight(fs[..f])
    {
      assert fs[..f + 1][..f] == fs[..f];
      if fs[f].op.EQ? {
        left, right := left + [fs[f].lv], right + [fs[f].rv];
      }
    }
    assert fs[..|fs|] == fs;
  }

  lemma {:induction false} EqColumnsExist(fs: seq<Filter>, left: Schema, right: Schema)
    requires FilterColumns(fs, left, right)
    ensures InSchema(EqLeft(fs), left) && InSchema(EqRight(fs), right)
  {
    if fs != [] {
      var n := |fs| - 1;
      assert forall k :: 0 <= k < n ==> fs[..n][k] == fs[k];
      EqColumnsExist(fs[..n], left, right);
      assert Comparison(fs[n].op) ==> fs[n].lv in left && fs[n].rv in right;
    }
  }

  /** The loop over the non-equality filters for one candidate pair. */
  method TestNonEquality(fs: seq<Filter>, left: TableData, l: nat, right: TableData, r: nat) returns (passed: bool)
    requires WellFormed(left) && l < left.rowCount
    requires WellFormed(right) && r < right.rowCount
    requires FilterColumns(fs, SchemaOf(left), SchemaOf(right))
    ensures passed == PassesNonEquality(fs, RowAt(left, l), RowAt(right, r))
  {
    passed := true;
    for f := 0 to |fs|
      invariant passed
      invariant PassesNonEquality(fs[..f], RowAt(left, l), RowAt(right, r))
    {
      if NonEquality(fs[f].op) {
        passed := TestCondition(fs[f], left, l, right, r, passed);
        if !passed {
          return;
        }
      }
    }
    assert fs[..|fs|] == fs;
  }

  /** One comparison; the result so far survives when the left type has no case. */
  method TestCondition(f: Filter, left: TableData, l: nat, right: TableData, r: nat, soFar: bool)
    returns (passed: bool)
    requires WellFormed(left) && l < left.rowCount
    requires WellFormed(right) && r < right.rowCount
    requires f.lv in left.columns && f.rv in right.columns
    requires left.columns[f.lv].colType.TypeDate? || left.columns[f.lv].colType == right.columns[f.rv].colType
    ensures passed == if Get(RowAt(left, l), f.lv).Date? then soFar
                      else Condition(f, RowAt(left, l), RowAt(right, r))
  {
    var lc, rc := left.columns[f.lv], right.columns[f.rv];
    passed := soFar;
    match lc.colType
    case TypeString => passed := CompareByOperator(f.op, Str(lc.strvec[l]), Str(rc.strvec[r]));
    case TypeInt => passed := CompareByOperator(f.op, Int(lc.intvec[l]), Int(rc.intvec[r]));
    case TypeFloat => passed := CompareByOperator(f.op, Float(lc.floatvec[l]), Float(rc.floatvec[r]));
    case _ =>
  }

  /** The conditions of a plain filter list compare columns of one common type,
      unless the left one is a date, which has no case. */
  ghost predicate ConditionColumns(fs: seq<Filter>, left: Schema, right: Schema) {
    forall k :: 0 <= k < |fs| && k % 2 == 0 ==>
      && fs[k].lv in left && fs[k].rv in right
      && (left[fs[k].lv].colType.TypeDate? || left[fs[k].lv].colType == right[fs[k].rv].colType)
  }

  /** The filter loop of the nested loop join: every second entry, stop at the
      first failure; without any condition nothing passes. */
  method TestConditions(fs: seq<Filter>, left: TableData, l: nat, right: TableData, r: nat) returns (passed: bool)
    requires WellFormed(left) && l < left.rowCount
    requires WellFormed(right) && r < right.rowCount
    requires ConditionColumns(fs, SchemaOf(left), SchemaOf(right))
    ensures passed == PassesLoop(fs, RowAt(left, l), RowAt(right, r))
  {
    passed := false;
    var f := 0;
    ghost var lr, rr := RowAt(left, l), RowAt(right, r);
    while f < |fs|
      invariant 0 <= f <= |fs| + 1 && f % 2 == 0
      invariant passed <==> f > 0
      invariant f > 0 ==> !Get(lr, fs[0].lv).Date?
      invariant forall k :: 0 <= k < |fs| && k < f && k % 2 == 0 ==> Get(lr, fs[k].lv).Date? || Condition(fs[k], lr, rr)
    {
      passed := TestCondition(fs[f], left, l, right, r, passed);
      if !passed {
        break;
      }
      f := f + 2;
    }
  }

  /** The right column of a dependency filter has the vector that is read of it:
      the strings beside a string, the integers beside an integer or a float, and
      none beside a date, which has no case. Other vectors are empty. */
  ghost predicate DependencyPair(f: Filter, left: Schema, right: Schema) {
    && f.lv in left && f.rv in right
    && match left[f.lv].colType
       case TypeString => right[f.rv].colType.TypeString?
       case TypeInt => right[f.rv].colType.TypeInt? || right[f.rv].colType.TypeDate?
       case TypeFloat => right[f.rv].colType.TypeInt? || right[f.rv].colType.TypeDate?
       case _ => true
  }

  ghost predicate DependencyColumns(fs: seq<Filter>, left: Schema, right: Schema) {
    forall k :: 0 <= k < |fs| && k % 2 == 0 ==> DependencyPair(fs[k], left, right)
  }

  /** One dependency filter. Integers go through `int`, floats and a date beside an
      integer through `float`. */
  method DependencyCondition(f: Filter, left: TableData, l: nat, right: TableData, r: nat, soFar: bool)
    returns (exist: bool)
    requires WellFormed(left) && l < left.rowCount
    requires WellFormed(right) && r < right.rowCount
    requires DependencyPair(f, SchemaOf(left), SchemaOf(right))
    ensures exist == if Get(RowAt(left, l), f.lv).Date? then soFar
                     else NarrowCondition(f, RowAt(left, l), RowAt(right, r))
  {
    var lc, rc := left.columns[f.lv], right.columns[f.rv];
    exist := soFar;
    if lc.colType.TypeString? {
      exist := CompareByOperator(f.op, Str(lc.strvec[l]), Str(rc.strvec[r]));
    } else if lc.colType.TypeInt? {
      if rc.colType.TypeInt? {
        exist := CompareByOperator(f.op, Int(ToInt32(lc.intvec[l])), Int(ToInt32(rc.intvec[r])));
      } else {
        var rv := Rounding.ToFloat32(rc.intvec[r] as real);
        exist := CompareByOperator(f.op, Int(ToInt32(lc.intvec[l])), Int(Rounding.TruncReal(rv)));
      }
    } else if lc.colType.TypeFloat? {
      var lv, rv := Rounding.ToFloat32(lc.floatvec[l]), Rounding.ToFloat32(ToInt32(rc.intvec[r]) as real);
      exist := CompareByOperator(f.op, Float(lv), Float(rv));
    }
  }

  /** The filter loop of the correlated operators. */
  method TestDependency(fs: seq<Filter>, left: TableData, l: nat, right: TableData, r: nat) returns (exist: bool)
    requires WellFormed(left) && l < left.rowCount
    requires WellFormed(right) && r < right.rowCount
    requires DependencyColumns(fs, SchemaOf(left), SchemaOf(right))
    ensures exist == PassesNarrowed(fs, RowAt(left, l), RowAt(right, r))
  {
    exist := false;
    var f := 0;
    ghost var lr, rr := RowAt(left, l), RowAt(right, r);
    while f < |fs|
      invariant 0 <= f <= |fs| + 1 && f % 2 == 0
      invariant exist <==> f > 0
      invariant HeldSoFar(fs, f, lr, rr)
    {
      ghost var before := exist;
      exist := DependencyCondition(fs[f], left, l, right, r, exist);
      DependencyStep(fs, f, lr, rr, before, exist);
      if !exist {
        break;
      }
      f := f + 2;
    }
  }

  /** The filters before `f` have let the pair through. */
  ghost predicate HeldSoFar(fs: seq<Filter>, f: nat, l: Row, r: Row) {
    && (f > 0 && fs != [] ==> !Get(l, fs[0].lv).Date?)
    && forall k :: 0 <= k < |fs| && k < f && k % 2 == 0 ==> Get(l, fs[k].lv).Date? || NarrowCondition(fs[k], l, r)
  }

  lemma {:induction false} DependencyStep(fs: seq<Filter>, f: nat, l: Row, r: Row, before: bool, exist: bool)
    requires f < |fs| && f % 2 == 0 && HeldSoFar(fs, f, l, r) && (before <==> f > 0)
    requires exist == if Get(l, fs[f].lv).Date? then before else NarrowCondition(fs[f], l, r)
    ensures exist ==> HeldSoFar(fs, f + 2, l, r)
    ensures !exist ==> !PassesNarrowed(fs, l, r)
  {
    assert forall k :: k < f + 2 && k % 2 == 0 ==> k <= f;
  }

  // --------------------------------------------------------------- hash table

  function Lookup(h: map<string, seq<nat>>, key: string): seq<nat> {
    if key in h then h[key] else []
  }

  /** The table maps every key to its bucket; absent keys have none. */
  ghost predicate Indexes(h: map<string, seq<nat>>, rows: seq<Row>, cols: seq<string>) {
    forall key: string :: Lookup(h, key) == Bucket(rows, cols, key)
  }

  /** No key is present without a row: what `find` relies on. */
  ghost predicate NoEmptyBucket(h: map<string, seq<nat>>) {
    forall key :: key in h ==> h[key] != []
  }

  lemma {:induction false} IndexesStep(h: map<string, seq<nat>>, rows: seq<Row>, x: Row, cols: seq<string>, key: string)
    requires Indexes(h, rows, cols) && key == BuildKey(x, cols)
    ensures Indexes(h[key := Lookup(h, key) + [|rows|]], rows + [x], cols)
    ensures NoEmptyBucket(h) ==> NoEmptyBucket(h[key := Lookup(h, key) + [|rows|]])
  {
    forall k: string
      ensures Lookup(h[key := Lookup(h, key) + [|rows|]], k) == Bucket(rows + [x], cols, k)
    {
      assert Lookup(h, k) == Bucket(rows, cols, k);
      BucketStep(rows, x, cols, k);
    }
  }

  method CreateHashTable(t: TableData, cols: seq<string>) returns (h: map<string, seq<nat>>)
    requires WellFormed(t) && InSchema(cols, SchemaOf(t))
    ensures Indexes(h, Rows(t), cols) && NoEmptyBucket(h)
    ensures forall key :: key in h ==> Ascending(h[key])
  {
    h := map[];
    ghost var rows := Rows(t);
    for i := 0 to t.rowCount
      invariant Indexes(h, rows[..i], cols) && NoEmptyBucket(h)
    {
      var key := HashKey(t, cols, i, true);
      RowsPrefix(rows, i);
      IndexesStep(h, rows[..i], rows[i], cols, key);
      h := h[key := Lookup(h, key) + [i]];
    }
    assert rows[..t.rowCount] == rows;
    forall key | key in h ensures Ascending(h[key]) {
      assert Lookup(h, key) == Bucket(rows, cols, key);
      BucketAscending(rows, cols, key);
    }
  }

  lemma {:induction false} RowsPrefix(rows: seq<Row>, i: nat)
    requires i < |rows|
    ensures rows[..i + 1] == rows[..i] + [rows[i]] && |rows[..i]| == i
  {
  }

  lemma {:induction false} IndexesKeepsEmpty(h: map<string, seq<nat>>, rows: seq<Row>, cols: seq<string>, key: string)
    requires Indexes(h, rows, cols)
    ensures Lookup(h, key) == Bucket(rows, cols, key)
    ensures key !in h ==> Indexes(h[key := []], rows, cols)
  {
    if key !in h {
      forall k: string
        ensures Lookup(h[key := []], k) == Bucket(rows, cols, k)
      {
        assert Lookup(h, k) == Bucket(rows, cols, k);
      }
    }
  }
}
