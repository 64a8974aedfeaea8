/** `Filtering`: a list of tests with connectors between them, on the rows of a
    table (HAVING, and the filter snippet). */
module Having {
  import opened Tables
  import opened Filters
  import opened Grouping
  import opened Permutations
  import opened ResultPipeline
  import Rounding
  import opened Trimming

  /** The list as it is sent: tests at even positions, connectors at odd ones. */
  datatype Clause = Test(column: string, op: OperType, constant: Value) | And | OtherConnector

  ghost predicate Alternates(cs: seq<Clause>) {
    forall k :: 0 <= k < |cs| ==> (cs[k].Test? <==> k % 2 == 0)
  }

  /** A constant of a test on floats goes through `stof`. */
  function Constant(c: Clause): Value
    requires c.Test?
  {
    if c.constant.Float? then Narrow(c.constant) else c.constant
  }

  /** A test as the code makes it: on a string (trimmed), an integer or a float
      (narrowed to 32 bits), NULL standing for its default value. */
  predicate Passes(c: Clause, row: Row)
    requires c.Test?
  {
    CompareByOperator(c.op, Narrow(TrimValue(Get(row, c.column))), Constant(c))
  }

  /** A test as it is meant: on the value of the cell, and never true of NULL. */
  predicate Meant(c: Clause, row: Row)
    requires c.Test?
  {
    !IsNull(row, c.column) && CompareByOperator(c.op, Get(row, c.column), c.constant)
  }

  /** That is, with the column on the left and the constant on the right. */
  lemma {:induction false} MeantIs(c: Clause, row: Row)
    requires c.Test?
    ensures IsNull(row, c.column) ==> !Meant(c, row)
    ensures !IsNull(row, c.column) && Get(row, c.column).Int? && c.constant.Int? ==>
      (Meant(c, row) <==> Numerically(c.op, Get(row, c.column).i as real, c.constant.i as real))
    ensures !IsNull(row, c.column) && Get(row, c.column).Float? && c.constant.Float? ==>
      (Meant(c, row) <==> Numerically(c.op, Get(row, c.column).f, c.constant.f))
    ensures !IsNull(row, c.column) && Get(row, c.column).Str? && c.constant.Str? ==>
      (Meant(c, row) <==> Lexically(c.op, Get(row, c.column).s, c.constant.s))
  {
    var v := Get(row, c.column);
    if v.Str? && c.constant.Str? {
      OperatorsMean(c.op, 0, 0, 0.0, 0.0, v.s, c.constant.s);
    }
  }

  /** The code has no case for dates: the test is skipped. */
  predicate Skipped(c: Clause, row: Row) {
    c.Test? && Get(row, c.column).Date?
  }

  /** `passed` after clause `k` and the ones behind it; a failed AND stops. */
  predicate VerdictFrom(cs: seq<Clause>, k: nat, passed: bool, row: Row)
    requires k <= |cs|
    decreases |cs| - k
  {
    if k == |cs| then passed
    else if cs[k].And? then passed && VerdictFrom(cs, k + 1, passed, row)
    else if cs[k].OtherConnector? || Skipped(cs[k], row) then VerdictFrom(cs, k + 1, passed, row)
    else VerdictFrom(cs, k + 1, Passes(cs[k], row), row)
  }

  predicate Verdict(cs: seq<Clause>, row: Row) {
    VerdictFrom(cs, 0, true, row)
  }

  /** No test follows before the next AND or the end, skipped ones aside. */
  predicate LooksBack(cs: seq<Clause>, k: nat, row: Row)
    requires k <= |cs|
    decreases |cs| - k
  {
    k == |cs| || cs[k].And? || ((cs[k].OtherConnector? || Skipped(cs[k], row)) && LooksBack(cs, k + 1, row))
  }

  /** A test decides if it is the last one before an AND or the end. */
  predicate Decides(cs: seq<Clause>, k: nat, row: Row)
    requires k < |cs|
  {
    cs[k].Test? && !Skipped(cs[k], row) && LooksBack(cs, k + 1, row)
  }

  ghost predicate DecidingPass(cs: seq<Clause>, row: Row) {
    forall j :: 0 <= j < |cs| && Decides(cs, j, row) ==> Passes(cs[j], row)
  }

  lemma {:induction false} VerdictFromIff(cs: seq<Clause>, k: nat, passed: bool, row: Row)
    requires k <= |cs|
    ensures VerdictFrom(cs, k, passed, row) <==>
      ((LooksBack(cs, k, row) ==> passed) && forall j :: k <= j < |cs| && Decides(cs, j, row) ==> Passes(cs[j], row))
    decreases |cs| - k
  {
    if k < |cs| {
      var next := if cs[k].Test? && !Skipped(cs[k], row) then Passes(cs[k], row) else passed;
      VerdictFromIff(cs, k + 1, next, row);
    }
  }

  /** A row passes exactly when every test that is the last one before an AND or
      the end holds; the tests before it, and tests on dates, have no say. */
  lemma {:induction false} VerdictIff(cs: seq<Clause>, row: Row)
    ensures Verdict(cs, row) <==> DecidingPass(cs, row)
  {
    VerdictFromIff(cs, 0, true, row);
  }

  // ------------------------------------------------- what the filter list means

  ghost predicate AllMeant(cs: seq<Clause>, row: Row) {
    forall j :: 0 <= j < |cs| && cs[j].Test? ==> Meant(cs[j], row)
  }

  /** Comparing the low 32 bits of an integer outside their range gives the same
      as comparing the integer, which is beyond every constant within it. */
  predicate LowBitsTell(op: OperType, i: int, constant: int) {
    var low := ToInt32(i);
    match op
    case EQ => low != constant
    case NE => low != constant
    case GT => low > constant <==> i > 0
    case LE => low > constant <==> i > 0
    case GE => low >= constant <==> i > 0
    case LT => low >= constant <==> i > 0
    case _ => true
  }

  /** Whether an operator confuses two numbers that become one. */
  predicate Confused(op: OperType, x: real, y: real) {
    match op
    case EQ => x != y
    case NE => x != y
    case GT => x > y
    case LE => x > y
    case GE => x < y
    case LT => x < y
    case _ => false
  }

  /** When a test on a cell goes wrong: on NULL if it passes; on an integer outside
      32 bits if its low bits tell otherwise; on a float that becomes the same 32-bit
      float as the constant, if the operator tells the two apart; on a string if the
      blanks around it make a difference. */
  predicate Misjudged(c: Clause, row: Row)
    requires c.Test?
  {
    var v := Get(row, c.column);
    if IsNull(row, c.column) then Passes(c, row)
    else match v
      case Int(i) => !FitsInt32(v) && c.constant.Int? && !LowBitsTell(c.op, i, c.constant.i)
      case Float(f) =>
        && c.constant.Float? && Rounding.ToFloat32(f) == Rounding.ToFloat32(c.constant.f)
        && Confused(c.op, f, c.constant.f)
      case Str(s) =>
        Trim(s) != s && CompareByOperator(c.op, Str(Trim(s)), c.constant) != CompareByOperator(c.op, v, c.constant)
      case _ => false
  }

  /** The constant of a test on integers goes through `stoi`. */
  ghost predicate ConstantsFit(cs: seq<Clause>) {
    forall k :: 0 <= k < |cs| && cs[k].Test? ==> FitsInt32(cs[k].constant)
  }

  lemma {:induction false} MisjudgedIff(c: Clause, row: Row)
    requires c.Test? && FitsInt32(c.constant)
    ensures Passes(c, row) == Meant(c, row) <==> !Misjudged(c, row)
  {
    var v := Get(row, c.column);
    if !IsNull(row, c.column) && v.Int? && c.constant.Int? && FitsInt32(v) {
      assert Narrow(v) == v;
    }
    if v.Float? && c.constant.Float? {
      FloatMisjudgedIff(c.op, v.f, c.constant.f);
    }
  }

  /** Rounding both sides changes a comparison exactly where they become one. */
  lemma {:induction false} FloatMisjudgedIff(op: OperType, x: real, y: real)
    ensures var a, b := Rounding.ToFloat32(x), Rounding.ToFloat32(y);
      CompareByOperator(op, Float(a), Float(b)) != CompareByOperator(op, Float(x), Float(y))
      <==> a == b && Confused(op, x, y)
  {
    if x <= y {
      Rounding.Monotone(x, y);
    }
    if y <= x {
      Rounding.Monotone(y, x);
    }
  }

  /** A deciding test errs where it is misjudged, another one, which has no say, where
      it is meant to fail. */
  ghost predicate Errs(cs: seq<Clause>, j: nat, row: Row)
    requires j < |cs|
  {
    cs[j].Test? && if Decides(cs, j, row) then Misjudged(cs[j], row) else !Meant(cs[j], row)
  }

  /** Some test errs, all the others are meant to pass, and those that err are meant
      all to pass or all to fail. */
  ghost predicate Misled(cs: seq<Clause>, row: Row) {
    && (exists j :: 0 <= j < |cs| && Errs(cs, j, row))
    && (forall j :: 0 <= j < |cs| && cs[j].Test? && !Errs(cs, j, row) ==> Meant(cs[j], row))
    && (forall i, j :: 0 <= i < |cs| && 0 <= j < |cs| && Errs(cs, i, row) && Errs(cs, j, row) ==>
          Meant(cs[i], row) == Meant(cs[j], row))
  }

  /** What the verdict takes a test for. */
  ghost predicate TakenFor(cs: seq<Clause>, j: nat, row: Row)
    requires j < |cs| && cs[j].Test?
  {
    Decides(cs, j, row) ==> Passes(cs[j], row)
  }

  lemma {:induction false} ErrsIff(cs: seq<Clause>, j: nat, row: Row)
    requires ConstantsFit(cs) && j < |cs| && cs[j].Test?
    ensures Errs(cs, j, row) <==> TakenFor(cs, j, row) != Meant(cs[j], row)
  {
    MisjudgedIff(cs[j], row);
  }

  /** The verdict on a row is the conjunction of the tests as they are meant exactly
      when it is not misled. */
  lemma {:induction false} ConjunctionIff(cs: seq<Clause>, row: Row)
    requires ConstantsFit(cs)
    ensures Verdict(cs, row) == AllMeant(cs, row) <==> !Misled(cs, row)
  {
    VerdictIff(cs, row);
    assert Verdict(cs, row) <==> forall j :: 0 <= j < |cs| && cs[j].Test? ==> TakenFor(cs, j, row);
    forall j | 0 <= j < |cs| && cs[j].Test?
      ensures Errs(cs, j, row) <==> TakenFor(cs, j, row) != Meant(cs[j], row)
    {
      ErrsIff(cs, j, row);
    }
  }

  /** Joined by AND only, without tests on dates, and with no test misjudged, nothing
      is forgotten. */
  lemma {:induction false} AndsAreConjunction(cs: seq<Clause>, row: Row)
    requires Alternates(cs) && forall k :: 0 <= k < |cs| ==> !cs[k].OtherConnector? && !Skipped(cs[k], row)
    requires ConstantsFit(cs) && forall k :: 0 <= k < |cs| && cs[k].Test? ==> !Misjudged(cs[k], row)
    ensures Verdict(cs, row) <==> AllMeant(cs, row)
  {
    forall j | 0 <= j < |cs| && cs[j].Test? ensures Decides(cs, j, row) && !Errs(cs, j, row) {
      assert j + 1 < |cs| ==> !cs[j + 1].Test?;
    }
    ConjunctionIff(cs, row);
  }

  /** With another connector the first of two tests is forgotten: this is their
      disjunction exactly when the first implies the second, or, if the second is
      misjudged, when only the first is meant to pass. */
  lemma {:induction false} FirstTestForgotten(a: Clause, b: Clause, row: Row)
    requires a.Test? && b.Test? && !Skipped(a, row) && !Skipped(b, row) && FitsInt32(b.constant)
    ensures Verdict([a, OtherConnector, b], row) == Passes(b, row)
    ensures Verdict([a, OtherConnector, b], row) == (Meant(a, row) || Meant(b, row))
       <==> if Misjudged(b, row) then Meant(a, row) && !Meant(b, row) else Meant(a, row) ==> Meant(b, row)
  {
    var cs := [a, OtherConnector, b];
    VerdictIff(cs, row);
    assert !LooksBack(cs, 2, row);
    assert Decides(cs, 2, row) && !Decides(cs, 0, row) && !Decides(cs, 1, row);
    MisjudgedIff(b, row);
  }

  /** A sum of 2^32 is not above 5. */
  lemma {:induction false} WideSumFails(c: string, row: Row)
    requires c in row && row[c] == Cell(Int(0x1_0000_0000), false)
    ensures var cs := [Test(c, GT, Int(5))]; AllMeant(cs, row) && !Verdict(cs, row)
  {
    var cs := [Test(c, GT, Int(5))];
    assert VerdictFrom(cs, 0, true, row) == VerdictFrom(cs, 1, Passes(cs[0], row), row);
  }

  /** A cell 16777216.01 is not above 16777216. */
  lemma {:induction false} HundredthFails(c: string, row: Row)
    requires c in row && row[c] == Cell(Float(16777216.01), false)
    ensures var cs := [Test(c, GT, Float(16777216.0))]; AllMeant(cs, row) && !Verdict(cs, row)
  {
    var cs := [Test(c, GT, Float(16777216.0))];
    Rounding.HundredthLost();
    assert VerdictFrom(cs, 0, true, row) == VerdictFrom(cs, 1, Passes(cs[0], row), row);
  }

  /** The columns that were tested, whose strings have been trimmed in place. */
  function Tested(cs: seq<Clause>): seq<string> {
    if cs == [] then []
    else Tested(cs[..|cs| - 1]) + if cs[|cs| - 1].Test? then [cs[|cs| - 1].column] else []
  }

  /** The rows that pass, trimmed in the tested columns. */
  function Kept(rows: seq<Row>, cs: seq<Clause>): seq<Row> {
    if rows == [] then []
    else
      var x := rows[|rows| - 1];
      Kept(rows[..|rows| - 1], cs) + if Verdict(cs, x) then [TrimRow(x, Tested(cs))] else []
  }

  // ------------------------------------------------------- the rows of the result

  /** They are kept once each and in order. */
  lemma {:induction false} KeptMeans(rows: seq<Row>, cs: seq<Clause>) returns (idx: seq<nat>)
    ensures Selects(idx, rows, (r: Row) => Verdict(cs, r))
    ensures Images(idx, rows, (r: Row) => TrimRow(r, Tested(cs)), Kept(rows, cs))
  {
    var want, trimmed := (r: Row) => Verdict(cs, r), (r: Row) => TrimRow(r, Tested(cs));
    KeptPicked(rows, cs, want, trimmed);
    idx := PickedMeans(rows, want, trimmed);
  }

  lemma {:induction false} KeptPicked(rows: seq<Row>, cs: seq<Clause>, want: Row -> bool, trimmed: Row -> Row)
    requires forall r :: want(r) == Verdict(cs, r) && trimmed(r) == TrimRow(r, Tested(cs))
    ensures Kept(rows, cs) == Picked(rows, want, trimmed)
  {
    if rows != [] {
      KeptPicked(rows[..|rows| - 1], cs, want, trimmed);
    }
  }

  /** The rows that the filter list asks for. */
  ghost function AskedRows(rows: seq<Row>, cs: seq<Clause>): seq<Row> {
    if rows == [] then []
    else
      var x := rows[|rows| - 1];
      AskedRows(rows[..|rows| - 1], cs) + if AllMeant(cs, x) then [x] else []
  }

  /** The verdict on the row is right, and if it is kept, it has no outer blanks in
      the tested columns to lose. */
  ghost predicate RowRight(cs: seq<Clause>, row: Row) {
    Verdict(cs, row) == AllMeant(cs, row) && (Verdict(cs, row) ==> TrimRow(row, Tested(cs)) == row)
  }

  lemma {:induction false} TrimmedTest(c: Clause, row: Row, names: seq<string>)
    requires c.Test?
    ensures Passes(c, TrimRow(row, names)) == Passes(c, row)
    ensures Skipped(c, TrimRow(row, names)) == Skipped(c, row)
  {
    var v := Get(row, c.column);
    if v.Str? {
      TrimIdempotent(v.s);
    }
  }

  lemma {:induction false} TrimmedVerdictFrom(cs: seq<Clause>, k: nat, passed: bool, row: Row, names: seq<string>)
    requires k <= |cs|
    ensures VerdictFrom(cs, k, passed, TrimRow(row, names)) == VerdictFrom(cs, k, passed, row)
    decreases |cs| - k
  {
    if k < |cs| {
      var next := if cs[k].Test? && !Skipped(cs[k], row) then Passes(cs[k], row) else passed;
      if cs[k].Test? {
        TrimmedTest(cs[k], row, names);
      }
      TrimmedVerdictFrom(cs, k + 1, next, row, names);
    }
  }

  lemma {:induction false} TrimRowTwice(row: Row, names: seq<string>)
    ensures TrimRow(TrimRow(row, names), names) == TrimRow(row, names)
  {
    var once := TrimRow(row, names);
    assert TrimRow(once, names).Keys == once.Keys;
    forall c | c in row ensures TrimRow(once, names)[c] == once[c] {
      if row[c].value.Str? {
        TrimIdempotent(row[c].value.s);
      }
    }
  }

  lemma {:induction false} KeptWhenRight(rows: seq<Row>, cs: seq<Clause>)
    requires forall k :: 0 <= k < |rows| ==> RowRight(cs, rows[k])
    ensures Kept(rows, cs) == AskedRows(rows, cs)
  {
    if rows != [] {
      assert RowRight(cs, rows[|rows| - 1]);
      KeptWhenRight(rows[..|rows| - 1], cs);
    }
  }

  lemma {:induction false} CountOneMore(s: seq<Row>, t: seq<Row>, y: Row)
    requires |t| <= 1
    ensures multiset(s + t)[y] == multiset(s)[y] + if t == [y] then 1 else 0
  {
    if t != [] {
      assert t == [t[0]];
    }
  }

  lemma {:induction false} KeptStep(rows: seq<Row>, cs: seq<Clause>, y: Row)
    requires rows != []
    ensures var init, x := rows[..|rows| - 1], rows[|rows| - 1];
      && multiset(rows)[y] == multiset(init)[y] + (if x == y then 1 else 0)
      && multiset(Kept(rows, cs))[y]
        == multiset(Kept(init, cs))[y] + if Verdict(cs, x) && TrimRow(x, Tested(cs)) == y then 1 else 0
  {
    var init, x := rows[..|rows| - 1], rows[|rows| - 1];
    LastApart(rows);
    CountOneMore(init, [x], y);
    CountOneMore(Kept(init, cs), if Verdict(cs, x) then [TrimRow(x, Tested(cs))] else [], y);
  }

  /** How often a row without blanks to lose is kept. */
  lemma {:induction false} KeptCount(rows: seq<Row>, cs: seq<Clause>, y: Row)
    requires TrimRow(y, Tested(cs)) == y
    ensures multiset(Kept(rows, cs))[y] >= if Verdict(cs, y) then multiset(rows)[y] else 0
    ensures !Verdict(cs, y) ==> multiset(Kept(rows, cs))[y] == 0
  {
    if rows != [] {
      KeptStep(rows, cs, y);
      KeptCount(rows[..|rows| - 1], cs, y);
      TrimmedVerdictFrom(cs, 0, true, rows[|rows| - 1], Tested(cs));
    }
  }

  /** A kept row that loses blanks is one more of what it becomes. */
  lemma {:induction false} KeptMore(rows: seq<Row>, cs: seq<Clause>, i: nat)
    requires i < |rows| && Verdict(cs, rows[i]) && TrimRow(rows[i], Tested(cs)) != rows[i]
    ensures var y := TrimRow(rows[i], Tested(cs)); multiset(Kept(rows, cs))[y] >= multiset(rows)[y] + 1
  {
    TrimRowTwice(rows[i], Tested(cs));
    TrimmedVerdictFrom(cs, 0, true, rows[i], Tested(cs));
    BecomesOneMore(rows, cs, i, TrimRow(rows[i], Tested(cs)));
  }

  ghost predicate Becomes(x: Row, cs: seq<Clause>, y: Row) {
    Verdict(cs, x) && TrimRow(x, Tested(cs)) == y && x != y
  }

  lemma {:induction false} KeptGains(rows: seq<Row>, cs: seq<Clause>, y: Row)
    requires rows != [] && Verdict(cs, y) && TrimRow(y, Tested(cs)) == y
    ensures var init := rows[..|rows| - 1];
      multiset(Kept(rows, cs))[y] + multiset(init)[y]
      == multiset(rows)[y] + multiset(Kept(init, cs))[y] + if Becomes(rows[|rows| - 1], cs, y) then 1 else 0
  {
    KeptStep(rows, cs, y);
  }

  lemma {:induction false} BecomesOneMore(rows: seq<Row>, cs: seq<Clause>, i: nat, y: Row)
    requires i < |rows| && Becomes(rows[i], cs, y) && Verdict(cs, y) && TrimRow(y, Tested(cs)) == y
    ensures multiset(Kept(rows, cs))[y] > multiset(rows)[y]
  {
    var init := rows[..|rows| - 1];
    if i < |init| {
      assert init[i] == rows[i];
      BecomesOneMore(init, cs, i, y);
    } else {
      KeptCount(init, cs, y);
    }
    KeptGains(rows, cs, y);
  }

  lemma {:induction false} KeptTrimmed(rows: seq<Row>, cs: seq<Clause>, x: Row)
    requires TrimRow(x, Tested(cs)) != x
    ensures x !in Kept(rows, cs)
  {
    if rows != [] {
      KeptTrimmed(rows[..|rows| - 1], cs, x);
      TrimRowTwice(rows[|rows| - 1], Tested(cs));
    }
  }

  lemma {:induction false} AskedCount(rows: seq<Row>, cs: seq<Clause>, y: Row)
    ensures multiset(AskedRows(rows, cs))[y] == if AllMeant(cs, y) then multiset(rows)[y] else 0
  {
    if rows != [] {
      var init, x := rows[..|rows| - 1], rows[|rows| - 1];
      LastApart(rows);
      AskedCount(init, cs, y);
      CountOneMore(init, [x], y);
      CountOneMore(AskedRows(init, cs), if AllMeant(cs, x) then [x] else [], y);
    }
  }

  lemma {:induction false} SameCountsRight(rows: seq<Row>, cs: seq<Clause>, i: nat)
    requires i < |rows| && multiset(Kept(rows, cs)) == multiset(AskedRows(rows, cs))
    ensures RowRight(cs, rows[i])
  {
    var x := rows[i];
    var y := TrimRow(x, Tested(cs));
    assert multiset(rows)[x] > 0;
    AskedCount(rows, cs, x);
    if y == x {
      KeptCount(rows, cs, x);
    } else {
      KeptTrimmed(rows, cs, x);
      assert multiset(Kept(rows, cs))[x] == 0;
      AskedCount(rows, cs, y);
      if Verdict(cs, x) {
        KeptMore(rows, cs, i);
      }
    }
  }

  /** HAVING keeps the rows it is asked for, in whatever order they are compared,
      exactly when it is right on every row. */
  lemma {:induction false} HavingRightIff(rows: seq<Row>, cs: seq<Clause>)
    ensures multiset(Kept(rows, cs)) == multiset(AskedRows(rows, cs))
       <==> forall k :: 0 <= k < |rows| ==> RowRight(cs, rows[k])
    ensures Kept(rows, cs) == AskedRows(rows, cs) <==> forall k :: 0 <= k < |rows| ==> RowRight(cs, rows[k])
  {
    if multiset(Kept(rows, cs)) == multiset(AskedRows(rows, cs)) {
      forall k | 0 <= k < |rows| ensures RowRight(cs, rows[k]) {
        SameCountsRight(rows, cs, k);
      }
    }
    if forall k :: 0 <= k < |rows| ==> RowRight(cs, rows[k]) {
      KeptWhenRight(rows, cs);
    }
  }

  // ------------------------------------------------------------------ the methods

  /** Every test compares a column of the table with a constant of its kind, and
      integer constants fit `stoi`. */
  ghost predicate Testable(cs: seq<Clause>, t: TableData) {
    && Alternates(cs) && ConstantsFit(cs)
    && forall k :: 0 <= k < |cs| && cs[k].Test? ==>
         cs[k].column in t.columns && TypedAs(cs[k].constant, t.columns[cs[k].column].colType)
  }

  /** One test: the string is trimmed in the table before it is compared. */
  method TestCell(t: TableData, r: nat, c: Clause, passed: bool, ghost done: seq<string>, ghost before: TableData)
    returns (ok: bool, out: TableData)
    requires WellFormed(before) && r < before.rowCount && t == TrimTable(before, r, done)
    requires c.Test? && c.column in before.columns
    ensures ok == if Skipped(c, RowAt(before, r)) then passed else Passes(c, RowAt(before, r))
    ensures out == TrimTable(before, r, done + [c.column])
  {
    TrimOneMore(before, r, done, c.column);
    TrimTableRows(before, r, done);
    ok, out := passed, t;
    var col, constant := t.columns[c.column], Constant(c);
    match col.colType {
      case TypeString =>
        var trimmed := Trim(col.strvec[r]);
        out := t.(columns := t.columns[c.column := col.(strvec := col.strvec[r := trimmed])]);
        ok := CompareByOperator(c.op, Str(trimmed), constant);
      case TypeInt => ok := CompareByOperator(c.op, Int(ToInt32(col.intvec[r])), constant);
      case TypeFloat => ok := CompareByOperator(c.op, Float(Rounding.ToFloat32(col.floatvec[r])), constant);
      case _ =>
    }
    assert col.colType.TypeString? || t.columns[c.column := TrimCell(col, r)] == t.columns;
    PassesBy(c, RowAt(before, r), ValueAt(before.columns[c.column], r));
  }

  /** What a test compares. */
  lemma {:induction false} PassesBy(c: Clause, row: Row, v: Value)
    requires c.Test? && Get(row, c.column) == v
    ensures v.Str? ==> Passes(c, row) == CompareByOperator(c.op, Str(Trim(v.s)), Constant(c))
    ensures v.Int? ==> Passes(c, row) == CompareByOperator(c.op, Int(ToInt32(v.i)), Constant(c))
    ensures v.Float? ==> Passes(c, row) == CompareByOperator(c.op, Float(Rounding.ToFloat32(v.f)), Constant(c))
  {
  }

  /** The clause loop on one row. */
  method TestRow(t: TableData, r: nat, cs: seq<Clause>) returns (passed: bool, out: TableData, ghost done: seq<string>)
    requires WellFormed(t) && r < t.rowCount && Testable(cs, t)
    ensures passed == Verdict(cs, RowAt(t, r))
    ensures out == TrimTable(t, r, done) && done <= Tested(cs) && (passed ==> done == Tested(cs))
  {
    passed := true;
    out := t;
    ghost var row := RowAt(t, r);
    done := [];
    assert TrimTable(t, r, done) == t;
    for index := 0 to |cs|
      invariant Verdict(cs, row) == VerdictFrom(cs, index, passed, row)
      invariant done == Tested(cs[..index])
      invariant out == TrimTable(t, r, done)
    {
      TestedStep(cs, index);
      if index % 2 == 1 {
        if cs[index].And? {
          if passed == false {
            TestedPrefix(cs, index);
            return;
          }
        }
      } else {
        passed, out := TestCell(out, r, cs[index], passed, done, t);
        done := done + [cs[index].column];
      }
    }
    assert cs[..|cs|] == cs;
  }

  lemma {:induction false} TestedPrefix(cs: seq<Clause>, n: nat)
    requires n <= |cs|
    ensures Tested(cs[..n]) <= Tested(cs)
    decreases |cs| - n
  {
    if n < |cs| {
      TestedStep(cs, n);
      TestedPrefix(cs, n + 1);
    } else {
      assert cs[..n] == cs;
    }
  }

  lemma {:induction false} TestedStep(cs: seq<Clause>, index: nat)
    requires index < |cs|
    ensures Tested(cs[..index + 1]) == Tested(cs[..index]) + if cs[index].Test? then [cs[index].column] else []
  {
    assert cs[..index + 1][..index] == cs[..index];
  }

  /** The source while its rows are tested: tested rows may be trimmed, the
      others are as before. */
  ghost predicate Remaining(src: TableData, t: TableData, r: nat)
    requires WellFormed(t)
  {
    && WellFormed(src) && src.rowCount == t.rowCount
    && SchemaOf(src) == SchemaOf(t) && src.columns.Keys == t.columns.Keys
    && forall k :: r <= k < t.rowCount ==> RowAt(src, k) == RowAt(t, k)
  }

  lemma {:induction false} StillRemaining(src: TableData, t: TableData, r: nat, names: seq<string>)
    requires WellFormed(t) && r < t.rowCount && Remaining(src, t, r)
    ensures Remaining(TrimTable(src, r, names), t, r + 1)
    ensures WellFormed(TrimTable(src, r, names)) && RowAt(TrimTable(src, r, names), r) == TrimRow(RowAt(t, r), names)
  {
    TrimTableRows(src, r, names);
    forall k | r < k < t.rowCount ensures RowAt(TrimTable(src, r, names), k) == RowAt(t, k) {
      TrimmedRowAt(src, r, names, k);
    }
    TrimmedRowAt(src, r, names, r);
  }

  lemma {:induction false} SameTests(cs: seq<Clause>, t: TableData, src: TableData)
    requires Testable(cs, t) && SchemaOf(src) == SchemaOf(t) && src.columns.Keys == t.columns.Keys
    ensures Testable(cs, src)
  {
    forall k | 0 <= k < |cs| && cs[k].Test?
      ensures src.columns[cs[k].column].colType == t.columns[cs[k].column].colType
    {
      assert SchemaOf(src)[cs[k].column] == SchemaOf(t)[cs[k].column];
    }
  }

  /** The result holds exactly the rows that pass, in order. */
  method Filtering(t: TableData, cs: seq<Clause>) returns (dest: TableData)
    requires WellFormed(t) && Testable(cs, t)
    ensures Represents(dest, SchemaOf(t), Kept(Rows(t), cs))
    ensures WellFormed(dest) && Rows(dest) == Kept(Rows(t), cs)
  {
    var cols := CopyTypes(map[], t);
    dest := TableData(cols, 0);
    TypesOfOne(t);
    var src := t;
    ghost var rows := Rows(t);
    for r := 0 to t.rowCount
      invariant Remaining(src, t, r)
      invariant Represents(dest, SchemaOf(t), Kept(rows[..r], cs))
    {
      assert rows[..r + 1][..r] == rows[..r];
      SameTests(cs, t, src);
      dest, src := FilterOneRow(src, r, cs, dest, t, Kept(rows[..r], cs));
    }
    assert rows[..t.rowCount] == rows;
    RepresentsRows(dest, SchemaOf(t), Kept(rows, cs));
  }

  method FilterOneRow(src: TableData, r: nat, cs: seq<Clause>, dest: TableData, ghost t: TableData, ghost so: seq<Row>)
    returns (out: TableData, rest: TableData)
    requires WellFormed(t) && r < t.rowCount && Remaining(src, t, r) && Testable(cs, src)
    requires Represents(dest, SchemaOf(t), so)
    ensures Remaining(rest, t, r + 1)
    ensures Represents(out, SchemaOf(t),
                       so + if Verdict(cs, RowAt(t, r)) then [TrimRow(RowAt(t, r), Tested(cs))] else [])
  {
    var passed;
    ghost var done;
    passed, rest, done := TestRow(src, r, cs);
    StillRemaining(src, t, r, done);
    if passed {
      out := KeepTested(rest, r, dest, SchemaOf(t), so);
    } else {
      out := dest;
      assert so + [] == so;
    }
  }

  /** The row, as it is now, appended to the result. */
  method KeepTested(src: TableData, r: nat, dest: TableData, ghost schema: Schema, ghost so: seq<Row>)
    returns (out: TableData)
    requires WellFormed(src) && r < src.rowCount && SchemaOf(src) == schema
    requires Represents(dest, schema, so)
    ensures Represents(out, schema, so + [RowAt(src, r)])
  {
    RowsAreTyped(src, r, r);
    OwnFlags(src, r);
    KeepRow(dest, schema, so, RowAt(src, r));
    var cols := PushColumns(dest.columns, src, r, r);
    out := TableData(cols, dest.rowCount + 1);
  }
}
