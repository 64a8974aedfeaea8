/** The forms of a projection on one row: a postfix expression, CASE, SUBSTRING and
    EXTRACT. */
module Projections {
  import opened Tables
  import opened Filters
  import opened Expressions
  import opened Wrappers

  /** A test, and whether AND or OR follows it; behind the last one it is THEN. */
  datatype Test = Test(tokens: seq<Token>, andNext: bool)

  /** WHEN with its tests, and what comes after THEN. */
  datatype Branch = Branch(tests: seq<Test>, result: seq<Token>)

  datatype Source = FromColumn(name: string) | FromText(text: string)

  datatype Formula =
    | Terms(tokens: seq<Token>)
    | Case(branches: seq<Branch>, otherwise: Option<seq<Token>>)
    | Substring(source: Source, start: int, length: int)
    | ExtractOf(dateUnit: DateUnit, column: string)

  // ------------------------------------------------------------- as written

  /** A test before AND stops the condition if it fails, one before OR if it holds. */
  datatype Decision = Yes | No | Failed

  function Decide(b: Branch, k: nat, schema: Schema, row: Row): Decision
    requires k <= |b.tests|
    decreases |b.tests| - k
  {
    if k == |b.tests| then Failed
    else
      match Evaluate(b.tests[k].tokens, schema, row)
      case Fault => Failed
      case Done(t) =>
        if k == |b.tests| - 1 then (if t.boolean then Yes else No)
        else if b.tests[k].andNext then (if t.boolean then Decide(b, k + 1, schema, row) else No)
        else if t.boolean then Yes
        else Decide(b, k + 1, schema, row)
  }

  /** What CASE copies of a result: no date survives. */
  function Copied(t: T): T {
    match t.vtype
    case TypeInt => EMPTY_T.(varInt := t.varInt, vtype := t.vtype)
    case TypeString => EMPTY_T.(varString := t.varString, vtype := t.vtype)
    case TypeFloat => EMPTY_T.(varFloat := t.varFloat, realSize := t.realSize, vtype := t.vtype)
    case _ => EMPTY_T.(vtype := t.vtype)
  }

  function CopiedOf(out: Outcome): Outcome {
    match out case Done(t) => Done(Copied(t)) case Fault => Fault
  }

  /** The first branch whose condition holds, else ELSE; without one, what is read is
      undefined. */
  function CaseFrom(form: Formula, k: nat, schema: Schema, row: Row): Outcome
    requires form.Case? && k <= |form.branches|
    decreases |form.branches| - k
  {
    if k == |form.branches| then
      if form.otherwise.Some? then CopiedOf(Evaluate(form.otherwise.value, schema, row)) else Fault
    else
      match Decide(form.branches[k], 0, schema, row)
      case Failed => Fault
      case Yes => CopiedOf(Evaluate(form.branches[k].result, schema, row))
      case No => CaseFrom(form, k + 1, schema, row)
  }

  /** `substr`: a position behind the end throws, and so does a negative one, which
      becomes a large unsigned number, while a negative length means the rest. */
  function Substr(s: string, start: int, length: int): Option<string> {
    if start < 0 || start > |s| then None
    else if length < 0 || start + length > |s| then Some(s[start..])
    else Some(s[start..start + length])
  }

  /** The unit of a packed date, by C++ division of a 32-bit integer. */
  function UnitOf(u: DateUnit, value: int): int {
    match u
    case Year => TruncDiv(value, 512)
    case Month => TruncDiv(TruncRem(value, 512), 32)
    case Day => TruncRem(TruncRem(value, 512), 32)
  }

  /** The remainder that belongs to it. */
  function TruncRem(a: int, b: int): int
    requires b != 0
  {
    a - b * TruncDiv(a, b)
  }

  function Compute(form: Formula, schema: Schema, row: Row): Outcome
  {
    match form
    case Terms(tokens) => Evaluate(tokens, schema, row)
    case Case(_, _) => CaseFrom(form, 0, schema, row)
    case Substring(source, start, length) =>
      (match TextOf(source, row)
       case None => Fault
       case Some(s) =>
         match Substr(s, start, length)
         case None => Fault
         case Some(part) => Done(EMPTY_T.(varString := part, vtype := TypeString)))
    case ExtractOf(u, c) =>
      if !Integral(Get(row, c)) then Fault
      else Done(EMPTY_T.(varInt := UnitOf(u, ToInt32(Whole(Get(row, c)))), vtype := TypeDate))
  }

  /** The text SUBSTRING works on; other columns have no strings to read. */
  function TextOf(source: Source, row: Row): Option<string> {
    match source
    case FromText(text) => Some(text)
    case FromColumn(c) => if Get(row, c).Str? then Some(Get(row, c).s) else None
  }

  // -------------------------------------------------------------- the method

  /** `Projection` on one row. */
  method Project(t: TableData, form: Formula, r: nat) returns (out: Outcome)
    requires WellFormed(t) && r < t.rowCount
    ensures out == Compute(form, SchemaOf(t), RowAt(t, r))
  {
    match form
    case Terms(tokens) => out := Postfix(t, tokens, r);
    case Case(branches, otherwise) => out := ProjectCase(t, form, r);
    case Substring(source, start, length) => out := ProjectSubstring(t, source, start, length, r);
    case ExtractOf(u, c) => out := ProjectUnit(t, u, c, r);
  }

  /** The loop over the branches. */
  method ProjectCase(t: TableData, form: Formula, r: nat) returns (out: Outcome)
    requires WellFormed(t) && r < t.rowCount && form.Case?
    ensures out == CaseFrom(form, 0, SchemaOf(t), RowAt(t, r))
  {
    for k := 0 to |form.branches|
      invariant CaseFrom(form, 0, SchemaOf(t), RowAt(t, r)) == CaseFrom(form, k, SchemaOf(t), RowAt(t, r))
    {
      var passed := DecideWhen(t, form.branches[k], r);
      if passed.Failed? {
        return Fault;
      }
      if passed.Yes? {
        var value := Postfix(t, form.branches[k].result, r);
        return CopiedOf(value);
      }
    }
    if form.otherwise.None? {
      return Fault;
    }
    var value := Postfix(t, form.otherwise.value, r);
    out := CopiedOf(value);
  }

  /** The tests of one WHEN. */
  method DecideWhen(t: TableData, b: Branch, r: nat) returns (passed: Decision)
    requires WellFormed(t) && r < t.rowCount
    ensures passed == Decide(b, 0, SchemaOf(t), RowAt(t, r))
  {
    passed := Failed;
    for k := 0 to |b.tests|
      invariant k < |b.tests| || k == 0 ==>
        Decide(b, 0, SchemaOf(t), RowAt(t, r)) == Decide(b, k, SchemaOf(t), RowAt(t, r))
      invariant k == |b.tests| ==> Decide(b, 0, SchemaOf(t), RowAt(t, r)) == passed
    {
      var one := Postfix(t, b.tests[k].tokens, r);
      if one.Fault? {
        return Failed;
      }
      if k < |b.tests| - 1 && b.tests[k].andNext {
        if !one.t.boolean {
          return No;
        }
      } else if one.t.boolean {
        return Yes;
      }
      passed := No;
    }
  }

  method ProjectSubstring(t: TableData, source: Source, start: int, length: int, r: nat) returns (out: Outcome)
    requires WellFormed(t) && r < t.rowCount
    ensures out == Compute(Substring(source, start, length), SchemaOf(t), RowAt(t, r))
  {
    var text := "";
    match source {
      case FromText(s) => text := s;
      case FromColumn(c) =>
        if c !in t.columns || !t.columns[c].colType.TypeString? {
          return Fault;
        }
        text := t.columns[c].strvec[r];
        assert Get(RowAt(t, r), c) == Str(text);
    }
    var part := Substr(text, start, length);
    if part.None? {
      return Fault;
    }
    out := Done(EMPTY_T.(varString := part.value, vtype := TypeString));
  }

  method ProjectUnit(t: TableData, u: DateUnit, c: string, r: nat) returns (out: Outcome)
    requires WellFormed(t) && r < t.rowCount
    ensures out == Compute(ExtractOf(u, c), SchemaOf(t), RowAt(t, r))
  {
    if c !in t.columns || !(t.columns[c].colType.TypeInt? || t.columns[c].colType.TypeDate?) {
      return Fault;
    }
    var value := ToInt32(t.columns[c].intvec[r]);
    assert Whole(Get(RowAt(t, r), c)) == t.columns[c].intvec[r];
    var result := UnitOf(u, value);
    out := Done(EMPTY_T.(varInt := result, vtype := TypeDate));
  }

  // -------------------------------------------------------- conditions of CASE

  /** The tests one after the other, as the loop connects them. */
  predicate Chained(ts: seq<bool>, ands: seq<bool>)
    requires |ts| == |ands| + 1
  {
    if ands == [] then ts[0]
    else if ands[0] then ts[0] && Chained(ts[1..], ands[1..])
    else ts[0] || Chained(ts[1..], ands[1..])
  }

  /** AND binds closer than OR; `so` is the conjunction before the first test. */
  predicate Bound(ts: seq<bool>, ands: seq<bool>, so: bool)
    requires |ts| == |ands| + 1
  {
    if ands == [] then so && ts[0]
    else if ands[0] then Bound(ts[1..], ands[1..], so && ts[0])
    else (so && ts[0]) || Bound(ts[1..], ands[1..], true)
  }

  /** No test fails before an AND while an alternative behind the next OR holds. */
  predicate NothingCutOff(ts: seq<bool>, ands: seq<bool>)
    requires |ts| == |ands| + 1
  {
    if ands == [] then true
    else if ands[0] then if ts[0] then NothingCutOff(ts[1..], ands[1..]) else !Bound(ts[1..], ands[1..], false)
    else ts[0] || NothingCutOff(ts[1..], ands[1..])
  }

  /** The condition of a WHEN is decided as SQL reads it exactly when no failing AND
      cuts off an alternative that holds. */
  lemma {:induction false} ChainedIff(ts: seq<bool>, ands: seq<bool>)
    requires |ts| == |ands| + 1
    ensures Chained(ts, ands) == Bound(ts, ands, true) <==> NothingCutOff(ts, ands)
  {
    if ands != [] {
      ChainedIff(ts[1..], ands[1..]);
    }
  }

  /** `a AND b OR c` with only `c` is one that does. */
  lemma {:induction false} AlternativeCutOff()
    ensures !Chained([false, true, true], [true, false]) && Bound([false, true, true], [true, false], true)
  {
    assert [false, true, true][1..] == [true, true] && [true, true][1..] == [true];
    assert [true, false][1..] == [false] && [false][1..] == [];
  }

  lemma {:induction false} OneConnector(ts: seq<bool>, ands: seq<bool>, and: bool)
    requires |ts| == |ands| + 1 && forall k :: 0 <= k < |ands| ==> ands[k] == and
    ensures and ==> !Bound(ts, ands, false)
    ensures NothingCutOff(ts, ands)
    ensures Chained(ts, ands)
       <==> if and then forall k :: 0 <= k < |ts| ==> ts[k] else exists k :: 0 <= k < |ts| && ts[k]
  {
    if ands != [] {
      OneConnector(ts[1..], ands[1..], and);
      assert forall k :: 0 < k < |ts| ==> ts[k] == ts[1..][k - 1];
      assert forall k :: 0 <= k < |ts| - 1 ==> ts[1..][k] == ts[k + 1];
    }
  }

  ghost predicate TestIs(b: Branch, k: nat, t: bool, schema: Schema, row: Row)
    requires k < |b.tests|
  {
    var out := Evaluate(b.tests[k].tokens, schema, row);
    out.Done? && out.t.boolean == t
  }

  /** `ts` are the tests of the branch on the row. */
  ghost predicate TestsAre(b: Branch, ts: seq<bool>, schema: Schema, row: Row) {
    |ts| == |b.tests| > 0 && forall k :: 0 <= k < |b.tests| ==> TestIs(b, k, ts[k], schema, row)
  }

  /** The connectors from test `k` on. */
  function Ands(b: Branch, k: nat): (ands: seq<bool>)
    requires k < |b.tests|
    ensures |ands| == |b.tests| - 1 - k
  {
    seq(|b.tests| - 1 - k, i requires 0 <= i < |b.tests| - 1 - k => b.tests[k + i].andNext)
  }

  predicate ChainedFrom(b: Branch, k: nat, ts: seq<bool>)
    requires k < |b.tests| == |ts|
  {
    Chained(ts[k..], Ands(b, k))
  }

  lemma {:induction false} ChainedStep(b: Branch, k: nat, ts: seq<bool>)
    requires k < |b.tests| == |ts|
    ensures ChainedFrom(b, k, ts)
       <==> if k == |ts| - 1 then ts[k]
            else if b.tests[k].andNext then ts[k] && ChainedFrom(b, k + 1, ts)
            else ts[k] || ChainedFrom(b, k + 1, ts)
  {
    if k < |ts| - 1 {
      assert ts[k..][1..] == ts[k + 1..] && Ands(b, k)[1..] == Ands(b, k + 1);
    }
  }

  /** What is decided of a branch, if no test faults. */
  lemma {:induction false} DecideIsChained(b: Branch, k: nat, ts: seq<bool>, schema: Schema, row: Row)
    requires k < |b.tests| && TestsAre(b, ts, schema, row)
    ensures Decide(b, k, schema, row) == if ChainedFrom(b, k, ts) then Yes else No
    decreases |b.tests| - k
  {
    assert TestIs(b, k, ts[k], schema, row);
    ChainedStep(b, k, ts);
    if k < |b.tests| - 1 {
      DecideIsChained(b, k + 1, ts, schema, row);
    }
  }

  /** A branch is decided as SQL decides it exactly when nothing is cut off. */
  lemma {:induction false} BranchIsRightIff(b: Branch, ts: seq<bool>, schema: Schema, row: Row)
    requires TestsAre(b, ts, schema, row)
    ensures Decide(b, 0, schema, row) == (if Bound(ts, Ands(b, 0), true) then Yes else No)
       <==> NothingCutOff(ts, Ands(b, 0))
  {
    DecideIsChained(b, 0, ts, schema, row);
    assert ts[0..] == ts;
    ChainedIff(ts, Ands(b, 0));
  }

  /** Some tests between two ORs, or the first or last ones, all hold. */
  ghost predicate HoldsBetween(ts: seq<bool>, ands: seq<bool>, i: nat, j: nat)
    requires |ts| == |ands| + 1
  {
    && i <= j < |ts| && (i == 0 || !ands[i - 1]) && (j == |ands| || !ands[j])
    && (forall k :: i <= k < j ==> ands[k]) && forall k :: i <= k <= j ==> ts[k]
  }

  ghost predicate StartHolds(ts: seq<bool>, ands: seq<bool>)
    requires |ts| == |ands| + 1
  {
    exists j: nat :: HoldsBetween(ts, ands, 0, j)
  }

  ghost predicate LaterHolds(ts: seq<bool>, ands: seq<bool>)
    requires |ts| == |ands| + 1
  {
    exists i: nat, j: nat :: i > 0 && HoldsBetween(ts, ands, i, j)
  }

  lemma {:induction false} HeldShift(ts: seq<bool>, ands: seq<bool>, i: nat, j: nat)
    requires |ts| == |ands| + 1 && ands != []
    ensures HoldsBetween(ts, ands, i + 1, j + 1)
       <==> HoldsBetween(ts[1..], ands[1..], i, j) && (i == 0 ==> !ands[0])
  {
    if HoldsBetween(ts, ands, i + 1, j + 1) {
      forall k | i <= k < j ensures ands[1..][k] {
        assert ands[k + 1];
      }
      forall k | i <= k <= j ensures ts[1..][k] {
        assert ts[k + 1];
      }
    }
    if HoldsBetween(ts[1..], ands[1..], i, j) && (i == 0 ==> !ands[0]) {
      forall k | i + 1 <= k < j + 1 ensures ands[k] {
        assert ands[1..][k - 1];
      }
      forall k | i + 1 <= k <= j + 1 ensures ts[k] {
        assert ts[1..][k - 1];
      }
    }
  }

  lemma {:induction false} StartShift(ts: seq<bool>, ands: seq<bool>, j: nat)
    requires |ts| == |ands| + 1 && ands != []
    ensures HoldsBetween(ts, ands, 0, j + 1) <==> ts[0] && ands[0] && HoldsBetween(ts[1..], ands[1..], 0, j)
  {
    if HoldsBetween(ts, ands, 0, j + 1) {
      forall k | 0 <= k < j ensures ands[1..][k] {
        assert ands[k + 1];
      }
      forall k | 0 <= k <= j ensures ts[1..][k] {
        assert ts[k + 1];
      }
    }
    if HoldsBetween(ts[1..], ands[1..], 0, j) {
      forall k | 1 <= k < j + 1 ensures ands[k] {
        assert ands[1..][k - 1];
      }
      forall k | 1 <= k <= j + 1 ensures ts[k] {
        assert ts[1..][k - 1];
      }
    }
  }

  lemma {:induction false} StartStep(ts: seq<bool>, ands: seq<bool>)
    requires |ts| == |ands| + 1 && ands != []
    ensures StartHolds(ts, ands) <==> ts[0] && (!ands[0] || StartHolds(ts[1..], ands[1..]))
  {
    assert HoldsBetween(ts, ands, 0, 0) <==> ts[0] && !ands[0];
    if j: nat :| HoldsBetween(ts, ands, 0, j) && j > 0 {
      StartShift(ts, ands, j - 1);
    }
    if j: nat :| HoldsBetween(ts[1..], ands[1..], 0, j) {
      StartShift(ts, ands, j);
    }
  }

  lemma {:induction false} LaterStep(ts: seq<bool>, ands: seq<bool>)
    requires |ts| == |ands| + 1 && ands != []
    ensures LaterHolds(ts, ands) <==> (!ands[0] && StartHolds(ts[1..], ands[1..])) || LaterHolds(ts[1..], ands[1..])
  {
    if i: nat, j: nat :| i > 0 && HoldsBetween(ts, ands, i, j) {
      HeldShift(ts, ands, i - 1, j - 1);
    }
    if i: nat, j: nat :| HoldsBetween(ts[1..], ands[1..], i, j) && (i == 0 ==> !ands[0]) {
      HeldShift(ts, ands, i, j);
    }
  }

  lemma {:induction false} BoundIs(ts: seq<bool>, ands: seq<bool>)
    requires |ts| == |ands| + 1
    ensures Bound(ts, ands, true) <==> StartHolds(ts, ands) || LaterHolds(ts, ands)
    ensures Bound(ts, ands, false) <==> LaterHolds(ts, ands)
  {
    if ands == [] {
      assert HoldsBetween(ts, ands, 0, 0) <==> ts[0];
    } else {
      BoundIs(ts[1..], ands[1..]);
      StartStep(ts, ands);
      LaterStep(ts, ands);
    }
  }

  /** AND binds closer than OR: the value is that of a disjunction of conjunctions. */
  lemma {:induction false} BoundMeans(ts: seq<bool>, ands: seq<bool>)
    requires |ts| == |ands| + 1
    ensures Bound(ts, ands, true) <==> exists i: nat, j: nat :: HoldsBetween(ts, ands, i, j)
  {
    BoundIs(ts, ands);
  }

  // ------------------------------------------------------------ the chosen branch

  /** What a result becomes: its number or text, and its type. */
  ghost predicate ResultOf(out: Outcome, value: Outcome) {
    match value
    case Fault => out == Fault
    case Done(t) =>
      && out.Done? && out.t.vtype == t.vtype
      && (t.vtype.TypeInt? ==> out.t.varInt == t.varInt)
      && (t.vtype.TypeString? ==> out.t.varString == t.varString)
      && (t.vtype.TypeFloat? ==> out.t.varFloat == t.varFloat && out.t.realSize == t.realSize)
  }

  /** The tests of every branch on the row, none of which cuts an alternative off. */
  ghost predicate Decidable(form: Formula, ts: seq<seq<bool>>, schema: Schema, row: Row)
    requires form.Case?
  {
    |ts| == |form.branches| && forall j :: 0 <= j < |ts| ==>
      TestsAre(form.branches[j], ts[j], schema, row) && NothingCutOff(ts[j], Ands(form.branches[j], 0))
  }

  ghost predicate BranchHolds(form: Formula, ts: seq<seq<bool>>, j: nat)
    requires form.Case? && j < |ts| == |form.branches| && |ts[j]| == |form.branches[j].tests| > 0
  {
    Bound(ts[j], Ands(form.branches[j], 0), true)
  }

  /** CASE yields the result of the first branch whose condition holds as SQL reads it. */
  lemma {:induction false} CaseTakesBranch(form: Formula, ts: seq<seq<bool>>, k: nat, schema: Schema, row: Row)
    requires form.Case? && Decidable(form, ts, schema, row) && k < |ts|
    requires BranchHolds(form, ts, k) && forall j :: 0 <= j < k ==> !BranchHolds(form, ts, j)
    ensures ResultOf(Compute(form, schema, row), Evaluate(form.branches[k].result, schema, row))
  {
    forall j | 0 <= j < k ensures Passed(form, j, schema, row) {
      PassedOver(form, ts, j, schema, row);
    }
    PassesOver(form, k, schema, row);
    BranchIsRightIff(form.branches[k], ts[k], schema, row);
  }

  /** If none does, it yields ELSE; without one what it yields is undefined. */
  lemma {:induction false} CaseTakesElse(form: Formula, ts: seq<seq<bool>>, schema: Schema, row: Row)
    requires form.Case? && Decidable(form, ts, schema, row)
    requires forall j :: 0 <= j < |ts| ==> !BranchHolds(form, ts, j)
    ensures form.otherwise.Some? ==>
      ResultOf(Compute(form, schema, row), Evaluate(form.otherwise.value, schema, row))
    ensures form.otherwise.None? ==> Compute(form, schema, row) == Fault
  {
    forall j | 0 <= j < |ts| ensures Passed(form, j, schema, row) {
      PassedOver(form, ts, j, schema, row);
    }
    PassesOver(form, |ts|, schema, row);
  }

  ghost predicate Passed(form: Formula, j: nat, schema: Schema, row: Row)
    requires form.Case? && j < |form.branches|
  {
    CaseFrom(form, j, schema, row) == CaseFrom(form, j + 1, schema, row)
  }

  lemma {:induction false} PassedOver(form: Formula, ts: seq<seq<bool>>, j: nat, schema: Schema, row: Row)
    requires form.Case? && Decidable(form, ts, schema, row) && j < |ts| && !BranchHolds(form, ts, j)
    ensures Passed(form, j, schema, row)
  {
    BranchIsRightIff(form.branches[j], ts[j], schema, row);
  }

  lemma {:induction false} PassesOver(form: Formula, k: nat, schema: Schema, row: Row)
    requires form.Case? && k <= |form.branches| && forall j :: 0 <= j < k ==> Passed(form, j, schema, row)
    ensures CaseFrom(form, 0, schema, row) == CaseFrom(form, k, schema, row)
  {
    if k > 0 {
      PassesOver(form, k - 1, schema, row);
      assert Passed(form, k - 1, schema, row);
    }
  }

  /** SUBSTRING is defined exactly if the start lies in the text or behind its last
      character, counted from 0; it yields so many characters from there, or the rest. */
  lemma {:induction false} SubstringMeans(source: Source, start: int, length: int, s: string, schema: Schema, row: Row)
    requires source == FromText(s) || (source.FromColumn? && Get(row, source.name) == Str(s))
    ensures var out := Compute(Substring(source, start, length), schema, row);
      && (out.Done? <==> 0 <= start <= |s|)
      && (out.Done? ==>
            && out.t.vtype.TypeString?
            && |out.t.varString| == (if 0 <= length <= |s| - start then length else |s| - start)
            && forall i :: 0 <= i < |out.t.varString| ==> out.t.varString[i] == s[start + i])
  {
  }

  /** A result keeps its value exactly if it is no date; a date becomes 0. */
  lemma {:induction false} CopiedIff(v: Value, realSize: int)
    ensures Copied(LoadValue(v, realSize)) == LoadValue(v, realSize) <==> !(v.Date? && v.d != 0)
  {
  }

  // -------------------------------------------------------------------- dates

  /** Dates travel packed as year * 512 + month * 32 + day. */
  function PackDate(year: nat, month: nat, day: nat): nat {
    year * 512 + month * 32 + day
  }

  datatype DateUnit = Year | Month | Day

  function Extract(u: DateUnit, value: nat): nat {
    match u
    case Year => value / 512
    case Month => value % 512 / 32
    case Day => value % 512 % 32
  }

  lemma {:induction false} ExtractInvertsPack(year: nat, month: nat, day: nat)
    requires month < 16 && day < 32
    ensures Extract(Year, PackDate(year, month, day)) == year
    ensures Extract(Month, PackDate(year, month, day)) == month
    ensures Extract(Day, PackDate(year, month, day)) == day
  {
    var rest := month * 32 + day;
    assert PackDate(year, month, day) == year * 512 + rest && rest < 512;
    assert PackDate(year, month, day) / 512 == year && PackDate(year, month, day) % 512 == rest;
  }

  /** Packed dates sort chronologically. */
  lemma {:induction false} PackedOrderIsChronological(y1: nat, m1: nat, d1: nat, y2: nat, m2: nat, d2: nat)
    requires m1 < 16 && d1 < 32 && m2 < 16 && d2 < 32
    ensures PackDate(y1, m1, d1) < PackDate(y2, m2, d2)
       <==> y1 < y2 || (y1 == y2 && (m1 < m2 || (m1 == m2 && d1 < d2)))
  {
  }

  /** On packed dates the code extracts their parts. */
  lemma {:induction false} UnitIsExtract(u: DateUnit, value: nat)
    requires value < 0x8000_0000
    ensures UnitOf(u, ToInt32(value)) == Extract(u, value)
  {
    assert ToInt32(value) == value;
  }

  /** EXTRACT on a column of packed dates. */
  lemma {:induction false} ExtractMeans(c: string, year: nat, month: nat, day: nat, schema: Schema, row: Row)
    requires year < 0x40_0000 && month < 16 && day < 32
    requires Get(row, c) == Date(year * 512 + month * 32 + day)
    ensures var y, m, d := Compute(ExtractOf(Year, c), schema, row), Compute(ExtractOf(Month, c), schema, row),
                           Compute(ExtractOf(Day, c), schema, row);
      && y.Done? && m.Done? && d.Done?
      && y.t.varInt == year && m.t.varInt == month && d.t.varInt == day
  {
    var value := PackDate(year, month, day);
    ExtractInvertsPack(year, month, day);
    UnitIsExtract(Year, value);
    UnitIsExtract(Month, value);
    UnitIsExtract(Day, value);
  }

  // ------------------------------------------------- only float scales matter

  /** The two schemas give every float cell of the row the same scale. */
  ghost predicate SameScales(s: Schema, u: Schema, row: Row) {
    forall c :: c in row && row[c].value.Float? ==> ScaleOf(s, c) == ScaleOf(u, c)
  }

  lemma {:induction false} RunSame(st: Stack, tokens: seq<Token>, s: Schema, u: Schema, row: Row)
    requires SameScales(s, u, row)
    ensures Run(st, tokens, s, row) == Run(st, tokens, u, row)
  {
    if tokens != [] {
      RunSame(st, tokens[..|tokens| - 1], s, u, row);
    }
  }

  lemma {:induction false} EvaluateSame(tokens: seq<Token>, s: Schema, u: Schema, row: Row)
    requires SameScales(s, u, row)
    ensures Evaluate(tokens, s, row) == Evaluate(tokens, u, row)
  {
    RunSame(Stack([]), tokens, s, u, row);
  }

  lemma {:induction false} DecideSame(b: Branch, k: nat, s: Schema, u: Schema, row: Row)
    requires SameScales(s, u, row) && k <= |b.tests|
    ensures Decide(b, k, s, row) == Decide(b, k, u, row)
    decreases |b.tests| - k
  {
    if k < |b.tests| {
      EvaluateSame(b.tests[k].tokens, s, u, row);
      DecideSame(b, k + 1, s, u, row);
    }
  }

  lemma {:induction false} CaseSame(form: Formula, k: nat, s: Schema, u: Schema, row: Row)
    requires SameScales(s, u, row) && form.Case? && k <= |form.branches|
    ensures CaseFrom(form, k, s, row) == CaseFrom(form, k, u, row)
    decreases |form.branches| - k
  {
    if k < |form.branches| {
      DecideSame(form.branches[k], 0, s, u, row);
      EvaluateSame(form.branches[k].result, s, u, row);
      CaseSame(form, k + 1, s, u, row);
    } else if form.otherwise.Some? {
      EvaluateSame(form.otherwise.value, s, u, row);
    }
  }

  lemma {:induction false} ComputeSame(form: Formula, s: Schema, u: Schema, row: Row)
    requires SameScales(s, u, row)
    ensures Compute(form, s, row) == Compute(form, u, row)
  {
    if form.Terms? {
      EvaluateSame(form.tokens, s, u, row);
    } else if form.Case? {
      CaseSame(form, 0, s, u, row);
    }
  }
}
