/** The offloading side infers the type and length of a projected column from
    the same postfix tokens (`calcul_return_column_type`). */
module TypeInference {
  import opened Tables
  import opened Expressions
  import opened Wrappers

  const MYSQL_INT32 := 3
  const MYSQL_NEWDECIMAL := 246
  const VALUE_COLUMN := 10

  type ColumnTypes = map<string, int>

  /** Two parallel stacks: one entry per operand, one size per decimal operand. */
  datatype Stacks = Stacks(types: seq<int>, sizes: seq<int>) | Broken

  datatype ColumnKind = ColumnKind(colType: int, length: int) | Undefined

  // --------------------------------------------------------------- as written

  function ValueTypeOf(tok: Token): int {
    match tok
    case Column(_) => VALUE_COLUMN
    case FloatLiteral(vt, _, _) => vt
    case DecimalLiteral(_) => 6
    case IntLiteral(vt, _) => vt
    case StringLiteral(_) => 9
    case Oper(_) => 11
  }

  predicate IsArithmeticToken(tok: Token) {
    tok.Oper? && Arithmetic(tok.op)
  }

  function InferStep(st: Stacks, tok: Token, columns: ColumnTypes): Stacks {
    if st.Broken? then Stacks.Broken
    else if IsArithmeticToken(tok) then
      if |st.types| < 2 then Stacks.Broken
      else
        var n, m := |st.types|, |st.sizes|;
        var op1, op2, rest := st.types[n - 2], st.types[n - 1], st.types[..n - 2];
        if op2 == MYSQL_NEWDECIMAL && op1 == MYSQL_NEWDECIMAL then
          if m < 2 then Stacks.Broken
          else Stacks(rest + [MYSQL_NEWDECIMAL], st.sizes[..m - 2] + [st.sizes[m - 2] + st.sizes[m - 1]])
        else if op2 == MYSQL_NEWDECIMAL || op1 == MYSQL_NEWDECIMAL then
          if m < 1 then Stacks.Broken else Stacks(rest + [MYSQL_NEWDECIMAL], st.sizes)
        else Stacks(rest + [MYSQL_INT32], st.sizes)
    else if tok.Column? then
      if tok.name !in columns then Stacks.Broken
      else Stacks(st.types + [columns[tok.name]], st.sizes + if columns[tok.name] == MYSQL_NEWDECIMAL then [1] else [])
    else Stacks(st.types + [ValueTypeOf(tok)], st.sizes)
  }

  function InferRun(st: Stacks, tokens: seq<Token>, columns: ColumnTypes): Stacks {
    if tokens == [] then st else InferStep(InferRun(st, tokens[..|tokens| - 1], columns), tokens[|tokens| - 1], columns)
  }

  function Conclude(st: Stacks): ColumnKind {
    if st.Broken? || st.types == [] then Undefined
    else if st.types[|st.types| - 1] == MYSQL_INT32 then ColumnKind(MYSQL_INT32, 4)
    else if st.sizes == [] then Undefined
    else ColumnKind(MYSQL_NEWDECIMAL, 6 + st.sizes[|st.sizes| - 1])
  }

  /** The postfix branch: a loop over the tokens with two stacks. */
  method InferColumn(tokens: seq<Token>, columns: ColumnTypes) returns (kind: ColumnKind)
    ensures kind == Conclude(InferRun(Stacks([], []), tokens, columns))
  {
    var st := Stacks([], []);
    for j := 0 to |tokens|
      invariant InferRun(Stacks([], []), tokens[..j], columns) == st
    {
      assert tokens[..j + 1][..j] == tokens[..j];
      st := InferToken(st, tokens[j], columns);
      if st.Broken? {
        InferBroken(tokens, j + 1, columns);
        return Undefined;
      }
    }
    assert tokens[..|tokens|] == tokens;
    kind := TopKind(st);
  }

  /** What the top of the two stacks says about the returned column. */
  method TopKind(st: Stacks) returns (kind: ColumnKind)
    ensures kind == Conclude(st)
  {
    if st.Broken? || st.types == [] {
      return Undefined;
    }
    if st.types[|st.types| - 1] == MYSQL_INT32 {
      return ColumnKind(MYSQL_INT32, 4);
    }
    if st.sizes == [] {
      return Undefined;
    }
    return ColumnKind(MYSQL_NEWDECIMAL, 6 + st.sizes[|st.sizes| - 1]);
  }

  /** One token: an operator combines, anything else is pushed. */
  method InferToken(st: Stacks, tok: Token, columns: ColumnTypes) returns (out: Stacks)
    ensures out == InferStep(st, tok, columns)
  {
    if st.Broken? {
      return Stacks.Broken;
    }
    var types, sizes := st.types, st.sizes;
    if IsArithmeticToken(tok) {
      out := CombineTop(types, sizes, tok, columns);
      return;
    }
    var tokenType := ValueTypeOf(tok);
    if tokenType == VALUE_COLUMN && tok.Column? {
      if tok.name !in columns {
        return Stacks.Broken;
      }
      tokenType := columns[tok.name];
      if tokenType == MYSQL_NEWDECIMAL {
        sizes := sizes + [1];
      }
    }
    out := Stacks(types + [tokenType], sizes);
  }

  /** The operator branch: pops and pushes on the two stacks. */
  method CombineTop(types0: seq<int>, sizes0: seq<int>, tok: Token, columns: ColumnTypes) returns (st: Stacks)
    requires IsArithmeticToken(tok)
    ensures st == InferStep(Stacks(types0, sizes0), tok, columns)
  {
    var types, sizes := types0, sizes0;
    if |types| < 2 {
      return Stacks.Broken;
    }
    var op2 := types[|types| - 1];
    types := types[..|types| - 1];
    var op1 := types[|types| - 1];
    types := types[..|types| - 1];
    var tokenType := MYSQL_INT32;
    if op2 == MYSQL_NEWDECIMAL && op1 == MYSQL_NEWDECIMAL {
      tokenType := MYSQL_NEWDECIMAL;
      if |sizes| < 2 {
        return Stacks.Broken;
      }
      var op2Size := sizes[|sizes| - 1];
      sizes := sizes[..|sizes| - 1];
      var op1Size := sizes[|sizes| - 1];
      sizes := sizes[..|sizes| - 1];
      sizes := sizes + [op1Size + op2Size];
    } else if op2 == MYSQL_NEWDECIMAL || op1 == MYSQL_NEWDECIMAL {
      tokenType := MYSQL_NEWDECIMAL;
      if |sizes| < 1 {
        return Stacks.Broken;
      }
      var size := sizes[|sizes| - 1];
      sizes := sizes[..|sizes| - 1];
      sizes := sizes + [size];
    }
    return Stacks(types + [tokenType], sizes);
  }

  lemma {:induction false} InferBroken(tokens: seq<Token>, n: nat, columns: ColumnTypes)
    requires n <= |tokens|
    requires InferRun(Stacks([], []), tokens[..n], columns).Broken?
    ensures InferRun(Stacks([], []), tokens, columns).Broken?
    decreases |tokens| - n
  {
    if n < |tokens| {
      assert tokens[..n + 1][..n] == tokens[..n];
      InferBroken(tokens, n + 1, columns);
    } else {
      assert tokens[..n] == tokens;
    }
  }

  lemma {:induction false} InferAppend(st: Stacks, xs: seq<Token>, ys: seq<Token>, columns: ColumnTypes)
    ensures InferRun(st, xs + ys, columns) == InferRun(InferRun(st, xs, columns), ys, columns)
  {
    if ys == [] {
      assert xs + ys == xs;
    } else {
      var n := |ys| - 1;
      assert (xs + ys)[..|xs + ys| - 1] == xs + ys[..n];
      InferAppend(st, xs, ys[..n], columns);
    }
  }

  // -------------------------------------------------------------------- trees

  predicate Resolved(e: Expr, columns: ColumnTypes) {
    match e
    case Leaf(tok) => tok.Column? ==> tok.name in columns
    case Node(_, l, r) => Resolved(l, columns) && Resolved(r, columns)
  }

  predicate DecimalLeaf(tok: Token, columns: ColumnTypes) {
    tok.Column? && tok.name in columns && columns[tok.name] == MYSQL_NEWDECIMAL
  }

  /** The number of leaves that are decimal columns. */
  function DecimalLeaves(e: Expr, columns: ColumnTypes): nat {
    match e
    case Leaf(tok) => if DecimalLeaf(tok, columns) then 1 else 0
    case Node(_, l, r) => DecimalLeaves(l, columns) + DecimalLeaves(r, columns)
  }

  function TreeType(e: Expr, columns: ColumnTypes): int
    requires Resolved(e, columns)
  {
    match e
    case Leaf(tok) => if tok.Column? then columns[tok.name] else ValueTypeOf(tok)
    case Node(_, _, _) => if DecimalLeaves(e, columns) > 0 then MYSQL_NEWDECIMAL else MYSQL_INT32
  }

  /** The entry a decimal tree has on the size stack. */
  function SizeEntry(k: nat): seq<int> {
    if k > 0 then [k] else []
  }

  /** The stacks with one more operand of type `t` that has `k` decimal leaves. */
  function Pushed(types: seq<int>, sizes: seq<int>, t: int, k: nat): Stacks {
    Stacks(types + [t], sizes + SizeEntry(k))
  }

  lemma {:induction false} DecimalTypeMeansLeaves(e: Expr, columns: ColumnTypes)
    requires ArithmeticExpr(e) && Resolved(e, columns)
    ensures TreeType(e, columns) == MYSQL_NEWDECIMAL <==> DecimalLeaves(e, columns) > 0
  {
  }

  /** The machine along the tree instead of along its tokens. */
  function InferTree(st: Stacks, e: Expr, columns: ColumnTypes): Stacks
    decreases e
  {
    match e
    case Leaf(tok) => InferStep(st, tok, columns)
    case Node(op, l, r) => InferStep(InferTree(InferTree(st, l, columns), r, columns), Oper(op), columns)
  }

  lemma {:induction false} InferSnoc(st: Stacks, tokens: seq<Token>, tok: Token, columns: ColumnTypes)
    ensures InferRun(st, tokens + [tok], columns) == InferStep(InferRun(st, tokens, columns), tok, columns)
  {
    assert (tokens + [tok])[..|tokens|] == tokens;
  }

  lemma {:induction false} TokensFollowTree(st: Stacks, e: Expr, columns: ColumnTypes)
    ensures InferRun(st, Flatten(e), columns) == InferTree(st, e, columns)
    decreases e
  {
    match e
    case Leaf(tok) =>
      InferSnoc(st, [], tok, columns);
      assert [] + [tok] == [tok];
    case Node(op, l, r) =>
      TokensFollowTree(st, l, columns);
      TokensFollowTree(InferTree(st, l, columns), r, columns);
      InferAppend(st, Flatten(l), Flatten(r), columns);
      InferSnoc(st, Flatten(l) + Flatten(r), Oper(op), columns);
  }

  lemma {:induction false} InferOperator(st: Stacks, op: Operator, types: seq<int>, sizes: seq<int>,
                      t1: int, k1: nat, t2: int, k2: nat, columns: ColumnTypes)
    requires Arithmetic(op)
    requires t1 == MYSQL_NEWDECIMAL <==> k1 > 0
    requires t2 == MYSQL_NEWDECIMAL <==> k2 > 0
    requires st == Pushed(types + [t1], sizes + SizeEntry(k1), t2, k2)
    ensures InferStep(st, Oper(op), columns)
         == Pushed(types, sizes, if k1 + k2 > 0 then MYSQL_NEWDECIMAL else MYSQL_INT32, k1 + k2)
  {
    var ts, zs := types + [t1] + [t2], sizes + SizeEntry(k1) + SizeEntry(k2);
    assert ts[..|ts| - 2] == types && ts[|ts| - 2] == t1 && ts[|ts| - 1] == t2;
    if k1 > 0 && k2 > 0 {
      assert zs[..|zs| - 2] == sizes && zs[|zs| - 2] == k1 && zs[|zs| - 1] == k2;
    } else {
      assert zs == sizes + SizeEntry(k1 + k2);
    }
  }

  lemma {:induction false} InferLeafPushes(tok: Token, types: seq<int>, sizes: seq<int>, columns: ColumnTypes)
    requires ArithmeticExpr(Leaf(tok)) && Resolved(Leaf(tok), columns)
    ensures InferTree(Stacks(types, sizes), Leaf(tok), columns)
         == Pushed(types, sizes, TreeType(Leaf(tok), columns), DecimalLeaves(Leaf(tok), columns))
  {
    assert sizes + [] == sizes;
  }

  lemma {:induction false} InferTreePushes(e: Expr, types: seq<int>, sizes: seq<int>, columns: ColumnTypes)
    requires ArithmeticExpr(e) && Resolved(e, columns)
    ensures InferTree(Stacks(types, sizes), e, columns)
         == Pushed(types, sizes, TreeType(e, columns), DecimalLeaves(e, columns))
    decreases e, 1
  {
    match e
    case Leaf(tok) => InferLeafPushes(tok, types, sizes, columns);
    case Node(op, l, r) =>
      InferBothPush(op, l, r, types, sizes, columns);
      InferNodePushes(op, l, r, types, sizes, columns);
  }

  /** Both operands of a node, one after the other. */
  lemma {:induction false} InferBothPush(op: Operator, l: Expr, r: Expr, types: seq<int>, sizes: seq<int>,
                                         columns: ColumnTypes)
    requires ArithmeticExpr(Node(op, l, r)) && Resolved(Node(op, l, r), columns)
    ensures InferTree(InferTree(Stacks(types, sizes), l, columns), r, columns)
         == Pushed(types + [TreeType(l, columns)], sizes + SizeEntry(DecimalLeaves(l, columns)),
                   TreeType(r, columns), DecimalLeaves(r, columns))
    decreases Node(op, l, r), 0
  {
    InferTreePushes(l, types, sizes, columns);
    InferTreePushes(r, types + [TreeType(l, columns)], sizes + SizeEntry(DecimalLeaves(l, columns)), columns);
  }

  lemma {:induction false} InferNodePushes(op: Operator, l: Expr, r: Expr, types: seq<int>, sizes: seq<int>,
                                           columns: ColumnTypes)
    requires ArithmeticExpr(Node(op, l, r)) && Resolved(Node(op, l, r), columns)
    requires InferTree(InferTree(Stacks(types, sizes), l, columns), r, columns)
          == Pushed(types + [TreeType(l, columns)], sizes + SizeEntry(DecimalLeaves(l, columns)),
                    TreeType(r, columns), DecimalLeaves(r, columns))
    ensures InferTree(Stacks(types, sizes), Node(op, l, r), columns)
         == Pushed(types, sizes, TreeType(Node(op, l, r), columns), DecimalLeaves(Node(op, l, r), columns))
  {
    NodeResult(op, l, r, types, sizes, TreeType(l, columns), DecimalLeaves(l, columns),
               TreeType(r, columns), DecimalLeaves(r, columns), columns);
  }

  lemma {:induction false} NodeResult(op: Operator, l: Expr, r: Expr, types: seq<int>, sizes: seq<int>,
                   t1: int, k1: nat, t2: int, k2: nat, columns: ColumnTypes)
    requires Arithmetic(op) && ArithmeticExpr(l) && ArithmeticExpr(r) && Resolved(l, columns) && Resolved(r, columns)
    requires t1 == TreeType(l, columns) && k1 == DecimalLeaves(l, columns)
    requires t2 == TreeType(r, columns) && k2 == DecimalLeaves(r, columns)
    ensures InferStep(Pushed(types + [t1], sizes + SizeEntry(k1), t2, k2), Oper(op), columns)
         == Pushed(types, sizes, TreeType(Node(op, l, r), columns), k1 + k2)
  {
    DecimalTypeMeansLeaves(l, columns);
    DecimalTypeMeansLeaves(r, columns);
    InferOperator(Pushed(types + [t1], sizes + SizeEntry(k1), t2, k2), op, types, sizes, t1, k1, t2, k2, columns);
  }

  /** The machine pushes the tree's type, and exactly for a decimal tree the
      number of its decimal leaves; both stacks below stay as they were. */
  lemma {:induction false} MachineInfersTree(e: Expr, types: seq<int>, sizes: seq<int>, columns: ColumnTypes)
    requires ArithmeticExpr(e) && Resolved(e, columns)
    ensures InferRun(Stacks(types, sizes), Flatten(e), columns)
         == Pushed(types, sizes, TreeType(e, columns), DecimalLeaves(e, columns))
  {
    TokensFollowTree(Stacks(types, sizes), e, columns);
    InferTreePushes(e, types, sizes, columns);
  }

  /** An expression with at least one operator is a decimal exactly when a leaf
      is a decimal column, with one length unit per such leaf. */
  lemma {:induction false} InferredKind(e: Expr, columns: ColumnTypes)
    requires e.Node? && ArithmeticExpr(e) && Resolved(e, columns)
    ensures var k := DecimalLeaves(e, columns);
      Conclude(InferRun(Stacks([], []), Flatten(e), columns))
      == if k > 0 then ColumnKind(MYSQL_NEWDECIMAL, 6 + k) else ColumnKind(MYSQL_INT32, 4)
  {
    MachineInfersTree(e, [], [], columns);
  }

  // ------------------------------------------- agreement with the merge engine

  /** `save_table_column_type` on the receiving side. */
  function ReceivedScale(length: int): int {
    (length - 6) * 2
  }

  /** The two sides know the same columns: what is announced as a decimal is a float
      of some scale, the other columns are integers or floats. */
  predicate SameWorld(e: Expr, columns: ColumnTypes, schema: Schema, row: Row) {
    match e
    case Leaf(tok) =>
      && WellFormedLeaf(tok) && LeafIsNumber(tok, schema, row)
      && (tok.Column? ==> tok.name in columns && (columns[tok.name] == MYSQL_NEWDECIMAL ==> Get(row, tok.name).Float?))
    case Node(op, l, r) => Arithmetic(op) && SameWorld(l, columns, schema, row) && SameWorld(r, columns, schema, row)
  }

  lemma {:induction false} SameWorldResolves(e: Expr, columns: ColumnTypes, schema: Schema, row: Row)
    requires SameWorld(e, columns, schema, row)
    ensures ArithmeticExpr(e) && Resolved(e, columns) && Numeric(e, schema, row)
  {
    match e
    case Leaf(_) =>
    case Node(_, l, r) =>
      SameWorldResolves(l, columns, schema, row);
      SameWorldResolves(r, columns, schema, row);
  }

  /** Float columns, and literals announced as FLOAT32, DOUBLE or DECIMAL. */
  predicate FloatLeaf(tok: Token, row: Row) {
    match tok
    case Column(c) => Get(row, c).Float?
    case FloatLiteral(_, _, _) => true
    case DecimalLiteral(_) => true
    case _ => false
  }

  /** Whether a float comes out of the tree: a sum has the type of its first operand. */
  predicate ComesOutFloat(e: Expr, row: Row) {
    match e
    case Leaf(tok) => FloatLeaf(tok, row)
    case Node(op, l, r) => ComesOutFloat(l, row) || (!op.Plus? && ComesOutFloat(r, row))
  }

  /** The scales of the leaves that reach the result: of a sum or difference of two
      floats those of the first operand, of an integer plus a float none. */
  function Contributed(e: Expr, schema: Schema, row: Row): int {
    match e
    case Leaf(tok) => if LeafIsNumber(tok, schema, row) then Scale(LeafNum(tok, schema, row)) else 0
    case Node(op, l, r) =>
      var a, b := Contributed(l, schema, row), Contributed(r, schema, row);
      if !ComesOutFloat(l, row) then if op.Plus? then 0 else b
      else if !ComesOutFloat(r, row) || op.Plus? || op.Minus? then a
      else a + b
  }

  /** The value the merge engine computes is a float exactly if one comes out, and has
      the scales that reach it. */
  lemma {:induction false} ScaleOfTree(e: Expr, schema: Schema, row: Row)
    requires Numeric(e, schema, row) && Computed(e, schema, row).Some?
    ensures var t := Computed(e, schema, row).value;
      && t.vtype == (if ComesOutFloat(e, row) then TypeFloat else TypeInt)
      && t.realSize == Contributed(e, schema, row)
  {
    match e
    case Leaf(_) =>
    case Node(op, l, r) =>
      ScaleOfTree(l, schema, row);
      ScaleOfTree(r, schema, row);
      if !ComesOutFloat(e, row) {
        IntegersHaveNoScale(e, schema, row);
      }
  }

  lemma {:induction false} IntegersHaveNoScale(e: Expr, schema: Schema, row: Row)
    requires Numeric(e, schema, row) && !ComesOutFloat(e, row)
    ensures Contributed(e, schema, row) == 0
  {
    if e.Node? && !e.op.Plus? {
      IntegersHaveNoScale(e.right, schema, row);
    }
  }

  /** The announced column takes the computed value: a decimal column a float of its
      scale, an INT32 column an integer. */
  predicate Takes(kind: ColumnKind, t: T) {
    && kind.ColumnKind?
    && if kind.colType == MYSQL_NEWDECIMAL then t.vtype.TypeFloat? && t.realSize == ReceivedScale(kind.length)
       else t.vtype.TypeInt?
  }

  /** Of every expression that does not divide by zero, what the offloading side
      announces is what the merge engine computes exactly when a float comes out just
      if there is a decimal column among the leaves, and the scales that reach the
      result are two per decimal column. */
  lemma {:induction false} InferredAgreesIff(e: Expr, columns: ColumnTypes, schema: Schema, row: Row)
    requires e.Node? && SameWorld(e, columns, schema, row)
    ensures var kind, out := Conclude(InferRun(Stacks([], []), Flatten(e), columns)), Evaluate(Flatten(e), schema, row);
      && kind.ColumnKind?
      && (out.Done? ==>
            (Takes(kind, out.t)
             <==> && (ComesOutFloat(e, row) <==> DecimalLeaves(e, columns) > 0)
                  && Contributed(e, schema, row) == 2 * DecimalLeaves(e, columns)))
  {
    SameWorldResolves(e, columns, schema, row);
    InferredKind(e, columns);
    PostfixIsComputed(e, schema, row);
    if Computed(e, schema, row).Some? {
      ScaleOfTree(e, schema, row);
      if !ComesOutFloat(e, row) {
        IntegersHaveNoScale(e, schema, row);
      }
    }
  }

  // ------------------------------------------------- decimal columns of scale two

  /** All floats are decimal columns of scale 2. */
  predicate PlainDecimals(e: Expr, columns: ColumnTypes, schema: Schema, row: Row) {
    match e
    case Leaf(tok) =>
      && (FloatLeaf(tok, row) <==> DecimalLeaf(tok, columns))
      && (FloatLeaf(tok, row) ==> tok.Column? && ScaleOf(schema, tok.name) == 2)
    case Node(_, l, r) => PlainDecimals(l, columns, schema, row) && PlainDecimals(r, columns, schema, row)
  }

  /** No sum has a decimal in its second operand, and no difference in both. */
  predicate NoDecimalDropped(e: Expr, columns: ColumnTypes) {
    match e
    case Leaf(_) => true
    case Node(op, l, r) =>
      && NoDecimalDropped(l, columns) && NoDecimalDropped(r, columns)
      && (op.Plus? ==> DecimalLeaves(r, columns) == 0)
      && (op.Minus? ==> DecimalLeaves(l, columns) == 0 || DecimalLeaves(r, columns) == 0)
  }

  lemma {:induction false} PlainScale(e: Expr, columns: ColumnTypes, schema: Schema, row: Row)
    requires SameWorld(e, columns, schema, row) && PlainDecimals(e, columns, schema, row)
    ensures ComesOutFloat(e, row) ==> DecimalLeaves(e, columns) > 0
    ensures !ComesOutFloat(e, row) ==> Contributed(e, schema, row) == 0
    ensures Contributed(e, schema, row) <= 2 * DecimalLeaves(e, columns)
    ensures Contributed(e, schema, row) == 2 * DecimalLeaves(e, columns) <==> NoDecimalDropped(e, columns)
  {
    match e
    case Leaf(_) =>
    case Node(_, l, r) =>
      PlainScale(l, columns, schema, row);
      PlainScale(r, columns, schema, row);
  }

  /** Where all floats are decimal columns of scale 2, that is exactly when no decimal
      is dropped; otherwise an INT32 is computed for a decimal, or the announced scale
      is too large. */
  lemma {:induction false} InferredScaleAgreesIff(e: Expr, columns: ColumnTypes, schema: Schema, row: Row)
    requires e.Node? && SameWorld(e, columns, schema, row) && PlainDecimals(e, columns, schema, row)
    ensures var kind, out := Conclude(InferRun(Stacks([], []), Flatten(e), columns)), Evaluate(Flatten(e), schema, row);
      && kind.ColumnKind?
      && (out.Done? ==> (Takes(kind, out.t) <==> NoDecimalDropped(e, columns)))
      && (out.Done? && !NoDecimalDropped(e, columns) ==>
            && kind.colType == MYSQL_NEWDECIMAL
            && (out.t.vtype.TypeInt? || out.t.realSize < ReceivedScale(kind.length)))
  {
    InferredAgreesIff(e, columns, schema, row);
    PlainScale(e, columns, schema, row);
    SameWorldResolves(e, columns, schema, row);
    InferredKind(e, columns);
    PostfixIsComputed(e, schema, row);
    if Computed(e, schema, row).Some? {
      ScaleOfTree(e, schema, row);
    }
  }

  /** 1 plus a decimal column is announced as a decimal and computed as an integer. */
  lemma {:induction false} IntegerPlusDecimal(c: string, columns: ColumnTypes, schema: Schema, row: Row, e: Expr)
    requires c in columns && columns[c] == MYSQL_NEWDECIMAL && Get(row, c).Float?
    requires e == Node(Plus, Leaf(IntLiteral(2, 1)), Leaf(Column(c)))
    ensures var kind, out := Conclude(InferRun(Stacks([], []), Flatten(e), columns)), Evaluate(Flatten(e), schema, row);
      kind == ColumnKind(MYSQL_NEWDECIMAL, 7) && out.Done? && out.t.vtype.TypeInt?
  {
    InferredKind(e, columns);
    PostfixIsComputed(e, schema, row);
  }

  /** A decimal column times 2 is computed as it is announced. */
  lemma {:induction false} DecimalTimesInteger(c: string, columns: ColumnTypes, schema: Schema, row: Row, e: Expr)
    requires c in columns && columns[c] == MYSQL_NEWDECIMAL && Get(row, c).Float? && ScaleOf(schema, c) == 2
    requires e == Node(Times, Leaf(Column(c)), Leaf(IntLiteral(2, 2)))
    ensures var kind, out := Conclude(InferRun(Stacks([], []), Flatten(e), columns)), Evaluate(Flatten(e), schema, row);
      kind == ColumnKind(MYSQL_NEWDECIMAL, 7) && out.Done? && Takes(kind, out.t)
  {
    InferredKind(e, columns);
    PostfixIsComputed(e, schema, row);
  }

  /** A DECIMAL literal is not counted: beside a decimal column the announced scale is
      2 and the computed one 4, beside an integer column an INT32 is announced for a
      float. */
  lemma {:induction false} LiteralIsNotCounted(c: string, d: real, columns: ColumnTypes, schema: Schema, row: Row)
    requires c in columns
    ensures var tokens := Flatten(Node(Times, Leaf(Column(c)), Leaf(DecimalLiteral(d))));
      var kind, out := Conclude(InferRun(Stacks([], []), tokens, columns)), Evaluate(tokens, schema, row);
      && (columns[c] == MYSQL_NEWDECIMAL && Get(row, c).Float? && ScaleOf(schema, c) == 2 ==>
            kind == ColumnKind(MYSQL_NEWDECIMAL, 7) && out.Done? && out.t.vtype.TypeFloat? && out.t.realSize == 4)
      && (columns[c] != MYSQL_NEWDECIMAL && Get(row, c).Int? ==>
            kind == ColumnKind(MYSQL_INT32, 4) && out.Done? && out.t.vtype.TypeFloat?)
  {
    var e := Node(Times, Leaf(Column(c)), Leaf(DecimalLiteral(d)));
    if Get(row, c).Int? || Get(row, c).Float? {
      InferredKind(e, columns);
      var a := Eval(Leaf(Column(c)), schema, row).value;
      var b := Eval(Leaf(DecimalLiteral(d)), schema, row).value;
      assert Eval(e, schema, row) == Some(Meaning(Times, a, b));
      PostfixIsEval(e, schema, row);
    }
  }
}
