/** Postfix expressions of a projection: the stack machine of the merge
    engine, expression trees, and what the machine computes on them. */
module Expressions {
  import opened Tables
  import opened Filters
  import opened Patterns
  import opened Trimming
  import Rounding
  import opened Wrappers

  /** The value record of the merge engine. */
  datatype T = T(varString: string, varInt: int, varFloat: real, boolean: bool, vtype: VectorType, realSize: int)

  const EMPTY_T := T("", 0, 0.0, false, TypeEmpty, 0)

  datatype Operator = Plus | Minus | Times | Divide | Equal | NotEqual | Like

  /** One entry of a projection: its text and its announced value type. The
      numbers that `stod` and `stoi` read from a literal are given with it. */
  datatype Token =
    | Column(name: string)
    | FloatLiteral(valueType: int, text: string, f: real)    // FLOAT32 (4), DOUBLE (5)
    | DecimalLiteral(d: real)                                // DECIMAL (6)
    | IntLiteral(valueType: int, i: int)                     // INT16 (1), INT32 (2), INT64 (3)
    | StringLiteral(s: string)
    | Oper(op: Operator)

  /** The machine ends with a value, or runs into an exception or what C++ leaves
      undefined: `substr` behind the end, `top` of an empty stack, a division by
      zero. */
  datatype Outcome = Done(t: T) | Fault

  datatype Stack = Stack(items: seq<T>) | Broken

  // ------------------------------------------------------------- as written

  function FindDot(s: string, start: nat): nat
    requires start <= |s|
    ensures start <= FindDot(s, start) <= |s|
    decreases |s| - start
  {
    if start < |s| && s[start] != '.' then FindDot(s, start + 1) else start
  }

  function CountDecimalPlaces(number: string): int {
    var pos := FindDot(number, 0);
    if pos == |number| then 0 else |number| - pos - 1
  }

  /** C++ integer division truncates toward zero. */
  function TruncDiv(a: int, b: int): int
    requires b != 0
  {
    var q := (if a < 0 then -a else a) / (if b < 0 then -b else b);
    if (a < 0) == (b < 0) then q else -q
  }

  function LoadValue(v: Value, realSize: int): T {
    match v
    case Str(s) => EMPTY_T.(varString := s, vtype := TypeString)
    case Int(i) => EMPTY_T.(varInt := i, vtype := TypeInt)
    case Date(d) => EMPTY_T.(varInt := d, vtype := TypeDate)
    case Float(f) => EMPTY_T.(varFloat := f, realSize := realSize, vtype := TypeFloat)
    case NoValue => EMPTY_T
  }

  function ScaleOf(schema: Schema, c: string): int {
    if c in schema then schema[c].realSize else 0
  }

  function LoadToken(tok: Token, schema: Schema, row: Row): T
    requires !tok.Oper?
  {
    match tok
    case Column(c) => LoadValue(Get(row, c), ScaleOf(schema, c))
    case FloatLiteral(_, text, f) => EMPTY_T.(varFloat := f, vtype := TypeFloat, realSize := CountDecimalPlaces(text))
    case DecimalLiteral(d) => EMPTY_T.(varFloat := d, vtype := TypeFloat, realSize := 2)
    case IntLiteral(_, i) => EMPTY_T.(varInt := i, vtype := TypeInt)
    case StringLiteral(s) => EMPTY_T.(varString := s, vtype := TypeString)
  }

  /** Whether the operation divides by zero in the branch it takes. */
  predicate DividesByZero(op: Operator, a: T, b: T) {
    op.Divide? &&
    ((b.vtype.TypeInt? && (a.vtype.TypeInt? || a.vtype.TypeFloat?) && b.varInt == 0) ||
     (b.vtype.TypeFloat? && (a.vtype.TypeInt? || a.vtype.TypeFloat?) && b.varFloat == 0.0))
  }

  predicate BothStrings(a: T, b: T) {
    a.vtype.TypeString? && b.vtype.TypeString?
  }

  predicate Throws(op: Operator, a: T, b: T) {
    DividesByZero(op, a, b) || (op.Like? && BothStrings(a, b) && LikeAsWritten(a.varString, b.varString).OutOfRange?)
  }

  /** The result of one operator, branch by branch; `[]` where the code only
      logs an error and pushes nothing. */
  function Apply(op: Operator, a: T, b: T): seq<T>
    requires !Throws(op, a, b)
  {
    match op
    case Plus =>
      if a.vtype.TypeInt? then [EMPTY_T.(varInt := a.varInt + b.varInt, vtype := TypeInt)]
      else if a.vtype.TypeFloat? then
        [EMPTY_T.(varFloat := a.varFloat + b.varFloat, vtype := TypeFloat, realSize := a.realSize)]
      else []
    case Minus =>
      if a.vtype.TypeInt? && b.vtype.TypeInt? then [EMPTY_T.(varInt := a.varInt - b.varInt, vtype := TypeInt)]
      else if a.vtype.TypeInt? && b.vtype.TypeFloat? then
        [EMPTY_T.(varFloat := a.varInt as real - b.varFloat, vtype := TypeFloat, realSize := b.realSize)]
      else if a.vtype.TypeFloat? && b.vtype.TypeInt? then
        [EMPTY_T.(vtype := TypeFloat, realSize := a.realSize,
                  varInt := Rounding.TruncReal(a.varFloat - b.varInt as real))]
      else if a.vtype.TypeFloat? && b.vtype.TypeFloat? then
        [EMPTY_T.(varFloat := a.varFloat - b.varFloat, vtype := TypeFloat, realSize := a.realSize)]
      else []
    case Times =>
      if a.vtype.TypeInt? && b.vtype.TypeInt? then [EMPTY_T.(varInt := a.varInt * b.varInt, vtype := TypeInt)]
      else if a.vtype.TypeInt? && b.vtype.TypeFloat? then
        [EMPTY_T.(varFloat := a.varInt as real * b.varFloat, vtype := TypeFloat, realSize := b.realSize)]
      else if a.vtype.TypeFloat? && b.vtype.TypeInt? then
        [EMPTY_T.(vtype := TypeFloat, realSize := a.realSize,
                  varInt := Rounding.TruncReal(a.varFloat * b.varInt as real))]
      else if a.vtype.TypeFloat? && b.vtype.TypeFloat? then
        [EMPTY_T.(varFloat := a.varFloat * b.varFloat, vtype := TypeFloat, realSize := a.realSize + b.realSize)]
      else []
    case Divide =>
      if a.vtype.TypeInt? && b.vtype.TypeInt? then [EMPTY_T.(varInt := TruncDiv(a.varInt, b.varInt), vtype := TypeInt)]
      else if a.vtype.TypeInt? && b.vtype.TypeFloat? then
        [EMPTY_T.(varFloat := a.varInt as real / b.varFloat, vtype := TypeFloat, realSize := b.realSize)]
      else if a.vtype.TypeFloat? && b.vtype.TypeInt? then
        [EMPTY_T.(vtype := TypeFloat, realSize := a.realSize,
                  varInt := Rounding.TruncReal(a.varFloat / b.varInt as real))]
      else if a.vtype.TypeFloat? && b.vtype.TypeFloat? then
        [EMPTY_T.(varFloat := a.varFloat / b.varFloat, vtype := TypeFloat, realSize := a.realSize + b.realSize)]
      else []
    case Equal => [EMPTY_T.(boolean := BothStrings(a, b) && a.vtype == b.vtype)]
    case NotEqual => [EMPTY_T.(boolean := BothStrings(a, b) && a.vtype != b.vtype)]
    case Like =>
      if BothStrings(a, b) then [EMPTY_T.(boolean := LikeAsWritten(a.varString, b.varString).yes)] else []
  }

  function Step(st: Stack, tok: Token, schema: Schema, row: Row): Stack {
    if st.Broken? then Broken
    else if !tok.Oper? then Stack(st.items + [LoadToken(tok, schema, row)])
    else if |st.items| < 2 then Broken
    else
      var n := |st.items|;
      var a, b := st.items[n - 2], st.items[n - 1];
      if Throws(tok.op, a, b) then Broken else Stack(st.items[..n - 2] + Apply(tok.op, a, b))
  }

  function Run(st: Stack, tokens: seq<Token>, schema: Schema, row: Row): Stack {
    if tokens == [] then st else Step(Run(st, tokens[..|tokens| - 1], schema, row), tokens[|tokens| - 1], schema, row)
  }

  function Result(st: Stack): Outcome {
    if st.Broken? || st.items == [] then Fault else Done(st.items[|st.items| - 1])
  }

  /** `Postfix` on one row. */
  function Evaluate(tokens: seq<Token>, schema: Schema, row: Row): Outcome {
    Result(Run(Stack([]), tokens, schema, row))
  }

  /** The stack loop, reading the columns of a table at a row index. */
  method Postfix(t: TableData, tokens: seq<Token>, rowIndex: nat) returns (r: Outcome)
    requires WellFormed(t) && rowIndex < t.rowCount
    ensures r == Evaluate(tokens, SchemaOf(t), RowAt(t, rowIndex))
  {
    ghost var schema, row := SchemaOf(t), RowAt(t, rowIndex);
    var stack: seq<T> := [];
    for i := 0 to |tokens|
      invariant Run(Stack([]), tokens[..i], schema, row) == Stack(stack)
    {
      assert tokens[..i + 1][..i] == tokens[..i];
      if tokens[i].Oper? {
        var st := ApplyTop(stack, tokens[i].op);
        if st.Broken? {
          RunBroken(tokens, i + 1, schema, row);
          return Fault;
        }
        stack := st.items;
      } else {
        var v := LoadCell(t, tokens[i], rowIndex);
        stack := stack + [v];
      }
    }
    assert tokens[..|tokens|] == tokens;
    if stack == [] {
      return Fault;
    }
    return Done(stack[|stack| - 1]);
  }

  /** Two pops, the operator, at most one push. */
  method ApplyTop(stack: seq<T>, op: Operator) returns (st: Stack)
    ensures forall schema: Schema, row: Row :: st == Step(Stack(stack), Oper(op), schema, row)
  {
    if |stack| < 2 {
      return Broken;
    }
    var rest := stack;
    var oper2 := rest[|rest| - 1];
    rest := rest[..|rest| - 1];
    var oper1 := rest[|rest| - 1];
    rest := rest[..|rest| - 1];
    if Throws(op, oper1, oper2) {
      return Broken;
    }
    return Stack(rest + Apply(op, oper1, oper2));
  }

  method LoadCell(t: TableData, tok: Token, rowIndex: nat) returns (v: T)
    requires WellFormed(t) && rowIndex < t.rowCount
    requires !tok.Oper?
    ensures v == LoadToken(tok, SchemaOf(t), RowAt(t, rowIndex))
  {
    v := EMPTY_T;
    match tok
    case Column(c) =>
      if c in t.columns {
        var col := t.columns[c];
        match col.colType {
          case TypeString => v := v.(varString := col.strvec[rowIndex]);
          case TypeInt => v := v.(varInt := col.intvec[rowIndex]);
          case TypeDate => v := v.(varInt := col.intvec[rowIndex]);
          case TypeFloat => v := v.(varFloat := col.floatvec[rowIndex], realSize := col.realSize);
          case _ =>
        }
        v := v.(vtype := col.colType);
      }
    case FloatLiteral(_, text, f) => v := v.(varFloat := f, vtype := TypeFloat, realSize := CountDecimalPlaces(text));
    case DecimalLiteral(d) => v := v.(varFloat := d, vtype := TypeFloat, realSize := 2);
    case IntLiteral(_, i) => v := v.(varInt := i, vtype := TypeInt);
    case StringLiteral(s) => v := v.(varString := s, vtype := TypeString);
  }

  lemma {:induction false} RunBroken(tokens: seq<Token>, n: nat, schema: Schema, row: Row)
    requires n <= |tokens|
    requires Run(Stack([]), tokens[..n], schema, row).Broken?
    ensures Run(Stack([]), tokens, schema, row).Broken?
    decreases |tokens| - n
  {
    if n < |tokens| {
      assert tokens[..n + 1][..n] == tokens[..n];
      RunBroken(tokens, n + 1, schema, row);
    } else {
      assert tokens[..n] == tokens;
    }
  }

  lemma {:induction false} RunAppend(st: Stack, xs: seq<Token>, ys: seq<Token>, schema: Schema, row: Row)
    ensures Run(st, xs + ys, schema, row) == Run(Run(st, xs, schema, row), ys, schema, row)
  {
    if ys == [] {
      assert xs + ys == xs;
    } else {
      var n := |ys| - 1;
      assert (xs + ys)[..|xs + ys| - 1] == xs + ys[..n];
      RunAppend(st, xs, ys[..n], schema, row);
    }
  }

  // -------------------------------------------------------------------- trees

  datatype Expr = Leaf(tok: Token) | Node(op: Operator, left: Expr, right: Expr)

  /** Literals announce one of their own value types. */
  predicate WellFormedLeaf(tok: Token) {
    match tok
    case FloatLiteral(vt, _, _) => 4 <= vt <= 5
    case IntLiteral(vt, _) => 1 <= vt <= 3
    case Oper(_) => false
    case _ => true
  }

  predicate ArithmeticExpr(e: Expr) {
    match e
    case Leaf(tok) => WellFormedLeaf(tok)
    case Node(op, l, r) => Arithmetic(op) && ArithmeticExpr(l) && ArithmeticExpr(r)
  }

  function Flatten(e: Expr): seq<Token> {
    match e
    case Leaf(tok) => [tok]
    case Node(op, l, r) => Flatten(l) + Flatten(r) + [Oper(op)]
  }

  /** Numbers as the queries mean them; a float carries its printed scale. */
  datatype Num = IntNum(i: int) | RealNum(f: real, scale: int)

  function AsReal(x: Num): real {
    if x.IntNum? then x.i as real else x.f
  }

  function Scale(x: Num): int {
    if x.IntNum? then 0 else x.scale
  }

  /** Scale of a float result: products and quotients add the scales, sums keep
      the scale of the first float operand. */
  function ResultScale(op: Operator, a: Num, b: Num): int {
    if a.IntNum? then Scale(b)
    else if b.IntNum? then Scale(a)
    else if op.Times? || op.Divide? then Scale(a) + Scale(b)
    else Scale(a)
  }

  predicate Arithmetic(op: Operator) {
    op.Plus? || op.Minus? || op.Times? || op.Divide?
  }

  /** What an arithmetic operator means: integer arithmetic (division truncates)
      on two integers, real arithmetic as soon as one operand is a float. */
  function Meaning(op: Operator, a: Num, b: Num): Num
    requires Arithmetic(op) && (op.Divide? ==> AsReal(b) != 0.0)
  {
    if a.IntNum? && b.IntNum? then
      IntNum(match op
             case Plus => a.i + b.i
             case Minus => a.i - b.i
             case Times => a.i * b.i
             case _ => TruncDiv(a.i, b.i))
    else
      RealNum(match op
              case Plus => AsReal(a) + AsReal(b)
              case Minus => AsReal(a) - AsReal(b)
              case Times => AsReal(a) * AsReal(b)
              case _ => AsReal(a) / AsReal(b),
              ResultScale(op, a, b))
  }

  function ToT(x: Num): T {
    match x
    case IntNum(i) => EMPTY_T.(varInt := i, vtype := TypeInt)
    case RealNum(f, s) => EMPTY_T.(varFloat := f, vtype := TypeFloat, realSize := s)
  }

  /** The operand kinds the code computes fully. */
  predicate Supported(op: Operator, aFloat: bool, bFloat: bool) {
    Arithmetic(op) && if op.Plus? then aFloat == bFloat else aFloat ==> bFloat
  }

  lemma {:induction false} SupportedIsRight(op: Operator, a: Num, b: Num)
    requires Supported(op, a.RealNum?, b.RealNum?) && (op.Divide? ==> AsReal(b) != 0.0)
    ensures !DividesByZero(op, ToT(a), ToT(b))
    ensures Apply(op, ToT(a), ToT(b)) == [ToT(Meaning(op, a, b))]
  {
    match op
    case Plus =>
    case Minus =>
    case Times =>
      var x, y := ToT(a), ToT(b);
      if a.IntNum? && b.IntNum? {
        assert x.varInt * y.varInt == a.i * b.i;
      } else {
        var p := AsReal(a) * AsReal(b);
        assert Meaning(op, a, b) == RealNum(p, ResultScale(op, a, b));
        assert Apply(op, x, y)[0] == EMPTY_T.(varFloat := p, vtype := TypeFloat, realSize := ResultScale(op, a, b));
      }
    case Divide =>
  }

  ghost predicate AlwaysRight(op: Operator, aFloat: bool, bFloat: bool)
    requires Arithmetic(op)
  {
    forall a: Num, b: Num :: a.RealNum? == aFloat && b.RealNum? == bFloat && (op.Divide? ==> AsReal(b) != 0.0) ==>
      !DividesByZero(op, ToT(a), ToT(b)) && Apply(op, ToT(a), ToT(b)) == [ToT(Meaning(op, a, b))]
  }

  /** The code is right for all operands of two kinds exactly on the supported
      combinations: with a float first and an integer second it loses the value,
      and a sum of an integer and a float drops the second operand. */
  lemma {:induction false} RightIffSupported(op: Operator, aFloat: bool, bFloat: bool)
    requires Arithmetic(op)
    ensures AlwaysRight(op, aFloat, bFloat) <==> Supported(op, aFloat, bFloat)
  {
    if Supported(op, aFloat, bFloat) {
      forall a: Num, b: Num | a.RealNum? == aFloat && b.RealNum? == bFloat && (op.Divide? ==> AsReal(b) != 0.0)
        ensures !DividesByZero(op, ToT(a), ToT(b)) && Apply(op, ToT(a), ToT(b)) == [ToT(Meaning(op, a, b))]
      {
        SupportedIsRight(op, a, b);
      }
    } else {
      UnsupportedIsWrong(op, aFloat, bFloat);
    }
  }

  lemma {:induction false} UnsupportedIsWrong(op: Operator, aFloat: bool, bFloat: bool)
    requires Arithmetic(op) && !Supported(op, aFloat, bFloat)
    ensures !AlwaysRight(op, aFloat, bFloat)
  {
    var a := if aFloat then RealNum(3.0, 2) else IntNum(3);
    var b := if bFloat then RealNum(2.0, 2) else IntNum(2);
    assert a.RealNum? == aFloat && b.RealNum? == bFloat && AsReal(b) == 2.0;
    var got, want := Apply(op, ToT(a), ToT(b))[0], ToT(Meaning(op, a, b));
    assert got.varFloat != want.varFloat;
  }

  // ----------------------------------------------------- trees with a meaning

  predicate LeafIsNumber(tok: Token, schema: Schema, row: Row) {
    match tok
    case Column(c) => Get(row, c).Int? || Get(row, c).Float?
    case FloatLiteral(_, _, _) => true
    case DecimalLiteral(_) => true
    case IntLiteral(_, _) => true
    case _ => false
  }

  function LeafNum(tok: Token, schema: Schema, row: Row): Num
    requires LeafIsNumber(tok, schema, row)
  {
    match tok
    case Column(c) => if Get(row, c).Int? then IntNum(Get(row, c).i) else RealNum(Get(row, c).f, ScaleOf(schema, c))
    case FloatLiteral(_, text, f) => RealNum(f, CountDecimalPlaces(text))
    case DecimalLiteral(d) => RealNum(d, 2)
    case IntLiteral(_, i) => IntNum(i)
  }

  /** Direct evaluation of a tree: `None` when an operand kind is not supported,
      a leaf is no number, or a divisor is zero. */
  function Eval(e: Expr, schema: Schema, row: Row): Option<Num> {
    match e
    case Leaf(tok) => if LeafIsNumber(tok, schema, row) then Some(LeafNum(tok, schema, row)) else None
    case Node(op, l, r) =>
      var a, b := Eval(l, schema, row), Eval(r, schema, row);
      if a.None? || b.None? || !Supported(op, a.value.RealNum?, b.value.RealNum?)
        || (op.Divide? && AsReal(b.value) == 0.0) then None
      else Some(Meaning(op, a.value, b.value))
  }

  // ------------------------------------------------- trees of any operand kinds

  /** All leaves are numbers and all operators arithmetic. */
  predicate Numeric(e: Expr, schema: Schema, row: Row) {
    match e
    case Leaf(tok) => LeafIsNumber(tok, schema, row)
    case Node(op, l, r) => Arithmetic(op) && Numeric(l, schema, row) && Numeric(r, schema, row)
  }

  /** What the branches of the operators make of a tree, supported or not; `None`
      where one divides by zero. */
  function Computed(e: Expr, schema: Schema, row: Row): (t: Option<T>)
    requires Numeric(e, schema, row)
    ensures t.Some? ==> t.value.vtype.TypeInt? || t.value.vtype.TypeFloat?
  {
    match e
    case Leaf(tok) => Some(LoadToken(tok, schema, row))
    case Node(op, l, r) =>
      var a, b := Computed(l, schema, row), Computed(r, schema, row);
      if a.None? || b.None? || DividesByZero(op, a.value, b.value) then None
      else Some(Apply(op, a.value, b.value)[0])
  }

  /** The machine computes every tree of numbers, or faults on a division by zero. */
  lemma {:induction false} MachineComputesTree(e: Expr, below: seq<T>, schema: Schema, row: Row)
    requires Numeric(e, schema, row)
    ensures Run(Stack(below), Flatten(e), schema, row)
         == match Computed(e, schema, row) case Some(t) => Stack(below + [t]) case None => Broken
  {
    match e
    case Leaf(tok) =>
      assert [tok][..0] == [];
      assert Run(Stack(below), [tok][..0], schema, row) == Stack(below);
    case Node(op, l, r) =>
      MachineComputesTree(l, below, schema, row);
      RunAppend(Stack(below), Flatten(l), Flatten(r), schema, row);
      var a := Computed(l, schema, row);
      if a.Some? {
        MachineComputesTree(r, below + [a.value], schema, row);
      } else {
        StaysBroken(Flatten(r), schema, row);
      }
      ComputedStep(Stack(below), Flatten(l) + Flatten(r), op, below, a, Computed(r, schema, row), schema, row);
  }

  lemma {:induction false} StaysBroken(tokens: seq<Token>, schema: Schema, row: Row)
    ensures Run(Broken, tokens, schema, row) == Broken
  {
    if tokens != [] {
      StaysBroken(tokens[..|tokens| - 1], schema, row);
    }
  }

  lemma {:induction false} ComputedStep(st: Stack, tokens: seq<Token>, op: Operator, below: seq<T>, a: Option<T>,
                                        b: Option<T>, schema: Schema, row: Row)
    requires Arithmetic(op)
    requires a.Some? ==> a.value.vtype.TypeInt? || a.value.vtype.TypeFloat?
    requires b.Some? ==> b.value.vtype.TypeInt? || b.value.vtype.TypeFloat?
    requires Run(st, tokens, schema, row)
          == if a.Some? && b.Some? then Stack(below + [a.value] + [b.value]) else Broken
    ensures Run(st, tokens + [Oper(op)], schema, row)
         == if a.None? || b.None? || DividesByZero(op, a.value, b.value) then Broken
            else Stack(below + [Apply(op, a.value, b.value)[0]])
  {
    assert (tokens + [Oper(op)])[..|tokens|] == tokens;
    if a.Some? && b.Some? {
      var items := below + [a.value] + [b.value];
      assert items[..|items| - 2] == below;
    }
  }

  /** `Postfix` on the flattening of any tree of numbers. */
  lemma {:induction false} PostfixIsComputed(e: Expr, schema: Schema, row: Row)
    requires Numeric(e, schema, row)
    ensures Evaluate(Flatten(e), schema, row)
         == match Computed(e, schema, row) case Some(t) => Done(t) case None => Fault
  {
    MachineComputesTree(e, [], schema, row);
  }

  // ------------------------------------------------------- supported trees only

  /** On supported operand kinds the branches compute what is meant. */
  lemma {:induction false} EvalIsComputed(e: Expr, schema: Schema, row: Row)
    requires Eval(e, schema, row).Some?
    ensures Numeric(e, schema, row)
    ensures Computed(e, schema, row) == Some(ToT(Eval(e, schema, row).value))
  {
    match e
    case Leaf(_) =>
    case Node(op, l, r) =>
      EvalIsComputed(l, schema, row);
      EvalIsComputed(r, schema, row);
      SupportedIsRight(op, Eval(l, schema, row).value, Eval(r, schema, row).value);
  }

  /** On the flattening of a tree the machine pushes exactly the tree's value:
      the stack below is untouched and nothing is consumed from it. */
  lemma {:induction false} MachineEvaluatesTree(e: Expr, below: seq<T>, schema: Schema, row: Row)
    requires Eval(e, schema, row).Some?
    ensures Run(Stack(below), Flatten(e), schema, row) == Stack(below + [ToT(Eval(e, schema, row).value)])
  {
    EvalIsComputed(e, schema, row);
    MachineComputesTree(e, below, schema, row);
  }

  /** Whatever tokens follow, the machine goes on from the tree's value. */
  lemma {:induction false} TreeThenRest(e: Expr, rest: seq<Token>, below: seq<T>, schema: Schema, row: Row)
    requires Eval(e, schema, row).Some?
    ensures Run(Stack(below), Flatten(e) + rest, schema, row)
         == Run(Stack(below + [ToT(Eval(e, schema, row).value)]), rest, schema, row)
  {
    MachineEvaluatesTree(e, below, schema, row);
    RunAppend(Stack(below), Flatten(e), rest, schema, row);
  }

  /** `Postfix` on a flattened tree is the tree's value. */
  lemma {:induction false} PostfixIsEval(e: Expr, schema: Schema, row: Row)
    requires Eval(e, schema, row).Some?
    ensures Evaluate(Flatten(e), schema, row) == Done(ToT(Eval(e, schema, row).value))
  {
    MachineEvaluatesTree(e, [], schema, row);
  }

  predicate HasFloat(e: Expr, schema: Schema, row: Row)
    requires Numeric(e, schema, row)
  {
    match e
    case Leaf(tok) => LeafNum(tok, schema, row).RealNum?
    case Node(_, l, r) => HasFloat(l, schema, row) || HasFloat(r, schema, row)
  }

  /** Of every operator the operand kinds are computed fully. */
  predicate AllSupported(e: Expr, schema: Schema, row: Row)
    requires Numeric(e, schema, row)
  {
    match e
    case Leaf(_) => true
    case Node(op, l, r) =>
      && AllSupported(l, schema, row) && AllSupported(r, schema, row)
      && Supported(op, HasFloat(l, schema, row), HasFloat(r, schema, row))
  }

  /** A tree of numbers has a value exactly if all its operators are computed fully and
      the machine does not fault on it. */
  lemma {:induction false} HasValueIff(e: Expr, schema: Schema, row: Row)
    requires Numeric(e, schema, row)
    ensures Eval(e, schema, row).Some?
       <==> AllSupported(e, schema, row) && !Evaluate(Flatten(e), schema, row).Fault?
    ensures Eval(e, schema, row).Some? ==> Eval(e, schema, row).value.RealNum? == HasFloat(e, schema, row)
  {
    ValueOrFault(e, schema, row);
    PostfixIsComputed(e, schema, row);
  }

  lemma {:induction false} ValueOrFault(e: Expr, schema: Schema, row: Row)
    requires Numeric(e, schema, row)
    ensures Eval(e, schema, row).Some? <==> AllSupported(e, schema, row) && Computed(e, schema, row).Some?
    ensures Eval(e, schema, row).Some? ==> Eval(e, schema, row).value.RealNum? == HasFloat(e, schema, row)
  {
    if e.Node? {
      ValueOrFault(e.left, schema, row);
      ValueOrFault(e.right, schema, row);
      if Eval(e.left, schema, row).Some? && Eval(e.right, schema, row).Some? {
        EvalIsComputed(e.left, schema, row);
        EvalIsComputed(e.right, schema, row);
      }
    }
  }

  // ---------------------------------------------------------- what operators mean

  lemma {:induction false} TwoPushed(x: Token, y: Token, a: T, b: T, schema: Schema, row: Row)
    requires !x.Oper? && !y.Oper? && a == LoadToken(x, schema, row) && b == LoadToken(y, schema, row)
    ensures Run(Stack([]), [x, y], schema, row) == Stack([a, b])
  {
    assert [x, y][..1] == [x] && [x][..0] == [];
    assert Run(Stack([]), [x], schema, row) == Stack([a]);
  }

  /** Two operands and an operator. */
  lemma {:induction false} EvaluateOperator(x: Token, y: Token, op: Operator, a: T, b: T, schema: Schema, row: Row)
    requires !x.Oper? && !y.Oper? && a == LoadToken(x, schema, row) && b == LoadToken(y, schema, row)
    ensures Evaluate([x, y, Oper(op)], schema, row)
         == if Throws(op, a, b) || Apply(op, a, b) == [] then Fault else Done(Apply(op, a, b)[0])
  {
    TwoPushed(x, y, a, b, schema, row);
    Applied(Stack([]), [x, y], op, a, b, schema, row);
    assert [x, y] + [Oper(op)] == [x, y, Oper(op)];
  }

  lemma {:induction false} Applied(st: Stack, tokens: seq<Token>, op: Operator, a: T, b: T, schema: Schema, row: Row)
    requires Run(st, tokens, schema, row) == Stack([a, b])
    ensures Run(st, tokens + [Oper(op)], schema, row) == if Throws(op, a, b) then Broken else Stack(Apply(op, a, b))
  {
    assert (tokens + [Oper(op)])[..|tokens|] == tokens;
    assert [a, b][..0] == [];
  }

  /** The quotient of two integers: what is left has the sign of the dividend. */
  predicate Quotient(i: int, j: int, q: int) {
    var rest := i - q * j;
    if i >= 0 then 0 <= rest < if j < 0 then -j else j else (if j < 0 then j else -j) < rest <= 0
  }

  lemma {:induction false} TruncDivIs(i: int, j: int)
    requires j != 0
    ensures Quotient(i, j, TruncDiv(i, j))
  {
    var a, b := if i < 0 then -i else i, if j < 0 then -j else j;
    var q := a / b;
    assert a == b * q + a % b;
    assert (-q) * j == -(q * j) && q * (-b) == -(q * b) && q * b == b * q;
  }

  /** The result of an operator on two integers. */
  predicate OfIntegers(op: Operator, i: int, j: int, r: int) {
    match op
    case Plus => r == i + j
    case Minus => r == i - j
    case Times => r == i * j
    case Divide => j != 0 && Quotient(i, j, r)
    case _ => false
  }

  /** ... and on two floats. */
  predicate OfFloats(op: Operator, f: real, g: real, r: real) {
    match op
    case Plus => r == f + g
    case Minus => r == f - g
    case Times => r == f * g
    case Divide => g != 0.0 && r == f / g
    case _ => false
  }

  /** Sum, difference, product and quotient of the left operand and the right one. */
  lemma {:induction false} IntegersMean(op: Operator, x: Token, y: Token, i: int, j: int, schema: Schema, row: Row)
    requires Arithmetic(op) && LeafIsNumber(x, schema, row) && LeafIsNumber(y, schema, row)
    requires LeafNum(x, schema, row) == IntNum(i) && LeafNum(y, schema, row) == IntNum(j)
    ensures var out := Evaluate([x, y, Oper(op)], schema, row);
      if op.Divide? && j == 0 then out.Fault?
      else out.Done? && out.t.vtype.TypeInt? && OfIntegers(op, i, j, out.t.varInt)
  {
    EvaluateOperator(x, y, op, ToT(IntNum(i)), ToT(IntNum(j)), schema, row);
    if j != 0 {
      TruncDivIs(i, j);
    }
  }

  /** The same of floats, and of an integer on the left of a float but for a sum. */
  lemma {:induction false} FloatsMean(op: Operator, x: Token, y: Token, a: Num, f: real, g: real, scale: int,
                                      schema: Schema, row: Row)
    requires Arithmetic(op) && LeafIsNumber(x, schema, row) && LeafIsNumber(y, schema, row)
    requires LeafNum(y, schema, row) == RealNum(g, scale) && LeafNum(x, schema, row) == a && AsReal(a) == f
    requires op.Plus? ==> a.RealNum?
    ensures var out := Evaluate([x, y, Oper(op)], schema, row);
      if op.Divide? && g == 0.0 then out.Fault?
      else out.Done? && out.t.vtype.TypeFloat? && OfFloats(op, f, g, out.t.varFloat)
  {
    EvaluateOperator(x, y, op, ToT(a), ToT(RealNum(g, scale)), schema, row);
    AppliedToFloats(op, a, f, g, scale);
  }

  lemma {:induction false} AppliedToFloats(op: Operator, a: Num, f: real, g: real, scale: int)
    requires Arithmetic(op) && AsReal(a) == f && (op.Plus? ==> a.RealNum?)
    ensures var x, y := ToT(a), ToT(RealNum(g, scale));
      if op.Divide? && g == 0.0 then Throws(op, x, y)
      else !Throws(op, x, y) && Apply(op, x, y) != [] && Apply(op, x, y)[0].vtype.TypeFloat?
           && OfFloats(op, f, g, Apply(op, x, y)[0].varFloat)
  {
  }

  /** The scale of a float literal: its digits behind the point. */
  lemma {:induction false} DecimalPlacesAre(whole: string, fraction: string)
    requires '.' !in whole
    ensures CountDecimalPlaces(whole) == 0 && CountDecimalPlaces(whole + "." + fraction) == |fraction|
  {
    var number := whole + "." + fraction;
    forall k | 0 <= k < |whole| ensures number[k] != '.' {
      assert number[k] == whole[k];
    }
    DotAt(number, 0, |whole|);
    NoDot(whole, 0);
  }

  lemma {:induction false} DotAt(s: string, start: nat, k: nat)
    requires start <= k < |s| && s[k] == '.' && forall i :: start <= i < k ==> s[i] != '.'
    ensures FindDot(s, start) == k
    decreases k - start
  {
    if start < k {
      DotAt(s, start + 1, k);
    }
  }

  lemma {:induction false} NoDot(s: string, start: nat)
    requires start <= |s| && '.' !in s
    ensures FindDot(s, start) == |s|
    decreases |s| - start
  {
    if start < |s| {
      assert s[start] in s;
      NoDot(s, start + 1);
    }
  }

  /** LIKE takes the pattern from the operand on the right: of operands without outer
      blanks and a simple pattern it has the meaning of SQL, and it faults exactly on the
      empty pattern and, for `%s`, on a column shorter than `s`. */
  lemma {:induction false} LikeMeans(c: string, s: string, p: string, schema: Schema, row: Row)
    requires Get(row, c) == Str(s)
    ensures var out := Evaluate([Column(c), StringLiteral(p), Oper(Like)], schema, row);
      && (Trimmed(s) && Trimmed(p) && Simple(p) ==> out.Done? && out.t.boolean == SqlLike(s, p))
      && (out.Fault? <==> Trim(p) == ""
                          || (StartsOpen(Trim(p)) && !EndsOpen(Trim(p)) && |Trim(s)| < |Trim(p)| - 1))
  {
    EvaluateOperator(Column(c), StringLiteral(p), Like, LoadValue(Str(s), ScaleOf(schema, c)),
                     EMPTY_T.(varString := p, vtype := TypeString), schema, row);
    LikeThrowsIff(s, p);
    if Simple(Trim(p)) {
      SimpleIsRight(s, p);
    }
  }

  // -------------------------------------------------------------- comparisons

  /** `=` and `<>` compare the types of the two topmost operands, whatever they
      are: `=` holds of any two strings and of nothing else, `<>` never. */
  lemma {:induction false} EqualIgnoresValues(below: seq<T>, a: T, b: T, schema: Schema, row: Row)
    ensures Step(Stack(below + [a, b]), Oper(Equal), schema, row)
         == Stack(below + [EMPTY_T.(boolean := BothStrings(a, b))])
    ensures Step(Stack(below + [a, b]), Oper(NotEqual), schema, row) == Stack(below + [EMPTY_T])
  {
    assert (below + [a, b])[..|below|] == below;
  }

  predicate Holds(op: Operator, a: Value, b: Value)
    requires op.Equal? || op.NotEqual?
  {
    Apply(op, LoadValue(a, 0), LoadValue(b, 0))[0].boolean
  }

  /** So `=` is right on two strings exactly if they are equal, and on two values
      of another type exactly if they differ; `<>` is right exactly on equal
      values. */
  lemma {:induction false} EqualIsRightIff(a: Value, b: Value)
    requires SameKind(a, b)
    ensures (Holds(Equal, a, b) <==> a == b) <==> (a.Str? <==> a == b)
    ensures (Holds(NotEqual, a, b) <==> a != b) <==> a == b
  {
    var p, q := LoadValue(a, 0), LoadValue(b, 0);
    assert BothStrings(p, q) <==> a.Str?;
  }
}
