/** Filter conditions of a snippet and their evaluation on values
    (`compareByOperator`), and the key a row contributes to a hash table. */
module Filters {
  import opened Tables
  import opened Keys
  import Rounding

  datatype OperType =
    GE | LE | GT | LT | EQ | NE | LIKE | NOTLIKE | BETWEEN | IN | NOTIN | IS | ISNOT | AND | OR

  /** One entry of a filter list; `lv` and `rv` name the left and right column. */
  datatype Filter = Filter(lv: string, op: OperType, rv: string)

  predicate NonEquality(op: OperType) {
    op.GE? || op.LE? || op.GT? || op.LT? || op.NE?
  }

  predicate Comparison(op: OperType) {
    op.EQ? || NonEquality(op)
  }

  // -------------------------------------------------------------- comparison

  /** `operator<` of `std::string`. */
  predicate StrLess(a: string, b: string) {
    if b == [] then false
    else if a == [] then true
    else a[0] < b[0] || (a[0] == b[0] && StrLess(a[1..], b[1..]))
  }

  predicate Less(a: Value, b: Value) {
    match (a, b)
    case (Str(s), Str(t)) => StrLess(s, t)
    case (Int(i), Int(j)) => i < j
    case (Date(i), Date(j)) => i < j
    case (Float(x), Float(y)) => x < y
    case _ => false
  }

  predicate CompareByOperator(op: OperType, a: Value, b: Value) {
    match op
    case EQ => a == b
    case GE => Less(b, a) || a == b
    case LE => Less(a, b) || a == b
    case GT => Less(b, a)
    case LT => Less(a, b)
    case NE => a != b
    case _ => false
  }

  lemma {:induction false} StrLessTotal(a: string, b: string)
    ensures !StrLess(a, a)
    ensures StrLess(a, b) || a == b || StrLess(b, a)
    ensures !(StrLess(a, b) && StrLess(b, a))
  {
    if a != [] {
      StrLessTotal(a[1..], if b == [] then [] else b[1..]);
      if b != [] && a[0] == b[0] && a[1..] == b[1..] {
        assert a == [a[0]] + a[1..] && b == [b[0]] + b[1..];
      }
    }
  }

  lemma {:induction false} StrLessTransitive(a: string, b: string, c: string)
    requires StrLess(a, b) && StrLess(b, c)
    ensures StrLess(a, c)
  {
    if a != [] && a[0] == b[0] && b[0] == c[0] {
      StrLessTransitive(a[1..], b[1..], c[1..]);
    }
  }

  /** The strings agree up to character `k`. */
  predicate AgreeUpTo(a: string, b: string, k: nat) {
    k <= |a| && k <= |b| && a[..k] == b[..k]
  }

  /** The first character on which they differ decides, or one is a proper prefix of
      the other. */
  ghost predicate Before(a: string, b: string) {
    || (|a| < |b| && AgreeUpTo(a, b, |a|))
    || exists k: nat :: k < |a| && k < |b| && AgreeUpTo(a, b, k) && a[k] < b[k]
  }

  /** `operator<` of strings is the order of dictionaries. */
  lemma {:induction false} StrLessIff(a: string, b: string)
    ensures StrLess(a, b) <==> Before(a, b)
  {
    if a != [] && b != [] {
      StrLessIff(a[1..], b[1..]);
      BeforeStep(a, b);
    } else if b != [] {
      assert AgreeUpTo(a, b, |a|);
    }
  }

  lemma {:induction false} BeforeStep(a: string, b: string)
    requires a != [] && b != []
    ensures Before(a, b) <==> a[0] < b[0] || (a[0] == b[0] && Before(a[1..], b[1..]))
  {
    assert AgreeUpTo(a, b, 0);
    forall k: nat ensures AgreeUpTo(a, b, k + 1) <==> a[0] == b[0] && AgreeUpTo(a[1..], b[1..], k) {
      AgreeStep(a, b, k);
    }
    if k: nat :| k < |a| && k < |b| && AgreeUpTo(a, b, k) && a[k] < b[k] {
      if k > 0 {
        assert AgreeUpTo(a, b, (k - 1) + 1);
        assert AgreeUpTo(a[1..], b[1..], k - 1) && a[1..][k - 1] < b[1..][k - 1];
      }
    }
    if k: nat :| k < |a[1..]| && k < |b[1..]| && AgreeUpTo(a[1..], b[1..], k) && a[1..][k] < b[1..][k] {
      if a[0] == b[0] {
        assert AgreeUpTo(a, b, k + 1) && a[k + 1] < b[k + 1];
      }
    }
    assert AgreeUpTo(a, b, |a[1..]| + 1) <==> a[0] == b[0] && AgreeUpTo(a[1..], b[1..], |a[1..]|);
  }

  lemma {:induction false} AgreeStep(a: string, b: string, k: nat)
    requires a != [] && b != []
    ensures AgreeUpTo(a, b, k + 1) <==> a[0] == b[0] && AgreeUpTo(a[1..], b[1..], k)
  {
    if k < |a| && k < |b| {
      assert a[..k + 1] == [a[0]] + a[1..][..k] && b[..k + 1] == [b[0]] + b[1..][..k];
      if a[..k + 1] == b[..k + 1] {
        assert a[..k + 1][0] == a[0] && b[..k + 1][0] == b[0];
        assert a[..k + 1][1..] == a[1..][..k] && b[..k + 1][1..] == b[1..][..k];
      }
    }
  }

  /** The six operators on numbers. */
  predicate Numerically(op: OperType, x: real, y: real) {
    match op
    case LT => x < y
    case LE => x <= y
    case GT => x > y
    case GE => x >= y
    case EQ => x == y
    case NE => x != y
    case _ => false
  }

  /** The six operators on strings. */
  ghost predicate Lexically(op: OperType, s: string, t: string) {
    match op
    case LT => Before(s, t)
    case LE => Before(s, t) || s == t
    case GT => Before(t, s)
    case GE => Before(t, s) || s == t
    case EQ => s == t
    case NE => s != t
    case _ => false
  }

  /** The operators compare the left value with the right one. */
  lemma {:induction false} OperatorsMean(op: OperType, i: int, j: int, x: real, y: real, s: string, t: string)
    ensures CompareByOperator(op, Int(i), Int(j)) <==> Numerically(op, i as real, j as real)
    ensures CompareByOperator(op, Date(i), Date(j)) <==> Numerically(op, i as real, j as real)
    ensures CompareByOperator(op, Float(x), Float(y)) <==> Numerically(op, x, y)
    ensures CompareByOperator(op, Str(s), Str(t)) <==> Lexically(op, s, t)
  {
    StrLessIff(s, t);
    StrLessIff(t, s);
  }

  predicate SameKind(a: Value, b: Value) {
    match (a, b)
    case (Str(_), Str(_)) => true
    case (Int(_), Int(_)) => true
    case (Date(_), Date(_)) => true
    case (Float(_), Float(_)) => true
    case _ => false
  }

  lemma {:induction false} LessIsStrictTotal(a: Value, b: Value)
    requires SameKind(a, b)
    ensures !(Less(a, b) && Less(b, a)) && !Less(a, a)
    ensures Less(a, b) || a == b || Less(b, a)
  {
    if a.Str? {
      StrLessTotal(a.s, b.s);
      StrLessTotal(a.s, a.s);
    }
  }

  lemma {:induction false} LessTransitive(a: Value, b: Value, c: Value)
    requires Less(a, b) && Less(b, c)
    ensures Less(a, c)
  {
    if a.Str? {
      StrLessTransitive(a.s, b.s, c.s);
    }
  }

  /** On two values of one type the six operators are consistent: exactly one
      of LT, EQ, GT holds and GE, LE, NE are the complements. */
  lemma {:induction false} OperatorsConsistent(a: Value, b: Value)
    requires SameKind(a, b)
    ensures CompareByOperator(GE, a, b) == !CompareByOperator(LT, a, b)
    ensures CompareByOperator(LE, a, b) == !CompareByOperator(GT, a, b)
    ensures CompareByOperator(NE, a, b) == !CompareByOperator(EQ, a, b)
    ensures CompareByOperator(LT, a, b) == CompareByOperator(GT, b, a)
    ensures (if CompareByOperator(LT, a, b) then 1 else 0) + (if CompareByOperator(EQ, a, b) then 1 else 0)
          + (if CompareByOperator(GT, a, b) then 1 else 0) == 1
  {
    LessIsStrictTotal(a, b);
    LessIsStrictTotal(b, a);
  }

  // -------------------------------------------------------------- key columns

  /** `std::to_string` of a double prints six decimals; rounding is to nearest. */
  function FloatToString(f: real): string {
    var n: nat := ((if f < 0.0 then -f else f) * 1000000.0 + 0.5).Floor;
    (if f < 0.0 then "-" else "") + NatToString(n / 1000000) + "." + NatToString(1000000 + n % 1000000)[1..]
  }

  /** The text a key column contributes. The build side of a hash table also
      prints dates; the probe sides have no case for them. */
  function KeyPart(v: Value, build: bool): seq<string> {
    match v
    case Str(s) => [s]
    case Int(i) => [ToString(i)]
    case Date(d) => if build then [ToString(d)] else []
    case Float(f) => [FloatToString(f)]
    case NoValue => []
  }

  function KeyParts(row: Row, cols: seq<string>, build: bool): seq<string> {
    if cols == [] then []
    else KeyParts(row, cols[..|cols| - 1], build) + KeyPart(Get(row, cols[|cols| - 1]), build)
  }

  function BuildKey(row: Row, cols: seq<string>): string {
    JoinKey(KeyParts(row, cols, true))
  }

  function ProbeKey(row: Row, cols: seq<string>): string {
    JoinKey(KeyParts(row, cols, false))
  }

  function EqLeft(fs: seq<Filter>): seq<string> {
    if fs == [] then [] else EqLeft(fs[..|fs| - 1]) + (if fs[|fs| - 1].op.EQ? then [fs[|fs| - 1].lv] else [])
  }

  function EqRight(fs: seq<Filter>): seq<string> {
    if fs == [] then [] else EqRight(fs[..|fs| - 1]) + (if fs[|fs| - 1].op.EQ? then [fs[|fs| - 1].rv] else [])
  }

  // -------------------------------------------------- filters over a row pair

  /** One condition on a pair of rows. */
  predicate Condition(f: Filter, l: Row, r: Row) {
    CompareByOperator(f.op, Get(l, f.lv), Get(r, f.rv))
  }

  /** A condition compares the column of the left row with that of the right row. */
  lemma {:induction false} ConditionMeans(f: Filter, l: Row, r: Row)
    ensures Get(l, f.lv).Int? && Get(r, f.rv).Int? ==>
      (Condition(f, l, r) <==> Numerically(f.op, Get(l, f.lv).i as real, Get(r, f.rv).i as real))
    ensures Get(l, f.lv).Date? && Get(r, f.rv).Date? ==>
      (Condition(f, l, r) <==> Numerically(f.op, Get(l, f.lv).d as real, Get(r, f.rv).d as real))
    ensures Get(l, f.lv).Float? && Get(r, f.rv).Float? ==>
      (Condition(f, l, r) <==> Numerically(f.op, Get(l, f.lv).f, Get(r, f.rv).f))
    ensures Get(l, f.lv).Str? && Get(r, f.rv).Str? ==>
      (Condition(f, l, r) <==> Lexically(f.op, Get(l, f.lv).s, Get(r, f.rv).s))
  {
    var a, b := Get(l, f.lv), Get(r, f.rv);
    if SameKind(a, b) {
      OperatorsMean(f.op, if a.Int? then a.i else if a.Date? then a.d else 0,
                    if b.Int? then b.i else if b.Date? then b.d else 0,
                    if a.Float? then a.f else 0.0, if b.Float? then b.f else 0.0,
                    if a.Str? then a.s else "", if b.Str? then b.s else "");
    }
  }

  /** The hash operators test the non-equality filters one by one; a left date
      column has no case and leaves the test passed. */
  predicate PassesNonEquality(fs: seq<Filter>, l: Row, r: Row) {
    forall k :: 0 <= k < |fs| && NonEquality(fs[k].op) ==> Get(l, fs[k].lv).Date? || Condition(fs[k], l, r)
  }

  /** The plain meaning of a filter list: conditions at the even positions,
      connectives between them, everything must hold; no condition, no match. */
  predicate PassesAll(fs: seq<Filter>, l: Row, r: Row) {
    && fs != []
    && forall k :: 0 <= k < |fs| && k % 2 == 0 ==> Condition(fs[k], l, r)
  }

  /** A comparison with NULL does not hold in SQL. */
  predicate NoNulls(fs: seq<Filter>, l: Row, r: Row) {
    forall k :: 0 <= k < |fs| && k % 2 == 0 ==> !IsNull(l, fs[k].lv) && !IsNull(r, fs[k].rv)
  }

  /** What the nested loop tests: its flag starts as false and a left date column
      has no case, so a date condition counts as failed if it comes first and as
      passed otherwise. */
  predicate PassesLoop(fs: seq<Filter>, l: Row, r: Row) {
    && fs != [] && !Get(l, fs[0].lv).Date?
    && forall k :: 0 <= k < |fs| && k % 2 == 0 ==> Get(l, fs[k].lv).Date? || Condition(fs[k], l, r)
  }

  /** The correlated operators copy `int64` cells into `int` variables. */
  function ToInt32(i: int): int {
    (i + 0x8000_0000) % 0x1_0000_0000 - 0x8000_0000
  }

  /** They copy doubles into `float` variables. */
  function Narrow(v: Value): Value {
    match v
    case Int(i) => Int(ToInt32(i))
    case Float(f) => Float(Rounding.ToFloat32(f))
    case _ => v
  }

  predicate FitsInt32(v: Value) {
    v.Int? ==> -0x8000_0000 <= v.i < 0x8000_0000
  }

  /** The integer vector of a column also holds its dates. */
  predicate Integral(v: Value) {
    v.Int? || v.Date?
  }

  function Whole(v: Value): int
    requires Integral(v)
  {
    if v.Int? then v.i else v.d
  }

  /** The right cell as it is compared with the left one: beside an integer or a
      float the integer vector is read, and a date goes through a `float`. */
  function Converted(a: Value, b: Value): Value {
    if a.Int? && b.Date? then Int(Rounding.TruncReal(Rounding.ToFloat32(b.d as real)))
    else if a.Float? && Integral(b) then Float(Rounding.ToFloat32(ToInt32(Whole(b)) as real))
    else Narrow(b)
  }

  predicate NarrowCondition(f: Filter, l: Row, r: Row) {
    var a, b := Get(l, f.lv), Get(r, f.rv);
    CompareByOperator(f.op, Narrow(a), Converted(a, b))
  }

  /** What is kept of a wide integer: the number within 32 bits that differs from it by
      a multiple of 2^32. */
  lemma {:induction false} ToInt32Is(i: int, k: int)
    ensures -0x8000_0000 <= ToInt32(i) < 0x8000_0000 && (i - ToInt32(i)) % 0x1_0000_0000 == 0
    ensures -0x8000_0000 <= i < 0x8000_0000 ==> ToInt32(i) == i && ToInt32(i + k * 0x1_0000_0000) == i
  {
    assert (i + k * 0x1_0000_0000 + 0x8000_0000) % 0x1_0000_0000 == (i + 0x8000_0000) % 0x1_0000_0000;
  }

  /** A number that an `int` and a `float` both hold. */
  predicate Holdable(i: int) {
    -Rounding.DIGITS < i < Rounding.DIGITS
  }

  /** A condition of a correlated EXISTS compares numbers of different kinds as numbers,
      as far as 24 bits go; of floats it compares the nearest 32-bit float. */
  lemma {:induction false} NarrowConditionMeans(f: Filter, l: Row, r: Row)
    ensures Get(l, f.lv).Int? && Integral(Get(r, f.rv)) && Holdable(Get(l, f.lv).i) && Holdable(Whole(Get(r, f.rv))) ==>
      (NarrowCondition(f, l, r) <==> Numerically(f.op, Get(l, f.lv).i as real, Whole(Get(r, f.rv)) as real))
    ensures Get(l, f.lv).Float? && Integral(Get(r, f.rv)) && Holdable(Whole(Get(r, f.rv))) ==>
      (NarrowCondition(f, l, r)
       <==> Numerically(f.op, Rounding.ToFloat32(Get(l, f.lv).f), Whole(Get(r, f.rv)) as real))
    ensures Get(l, f.lv).Str? && Get(r, f.rv).Str? ==>
      (NarrowCondition(f, l, r) <==> Lexically(f.op, Get(l, f.lv).s, Get(r, f.rv).s))
  {
    var a, b := Get(l, f.lv), Get(r, f.rv);
    if a.Str? && b.Str? {
      OperatorsMean(f.op, 0, 0, 0.0, 0.0, a.s, b.s);
    }
    if Integral(b) && Holdable(Whole(b)) && (a.Float? || (a.Int? && Holdable(a.i))) {
      var j := Whole(b);
      ConvertedIs(a, b, j);
      if a.Int? {
        ToInt32Is(a.i, 0);
        OperatorsMean(f.op, a.i, j, 0.0, 0.0, "", "");
      } else {
        OperatorsMean(f.op, 0, 0, Rounding.ToFloat32(a.f), j as real, "", "");
      }
    }
  }

  lemma {:induction false} ConvertedIs(a: Value, b: Value, j: int)
    requires (a.Int? || a.Float?) && Integral(b) && j == Whole(b) && Holdable(j)
    ensures Converted(a, b) == if a.Int? then Int(j) else Float(j as real)
  {
    Rounding.IntegersStay(j);
    ToInt32Is(j, 0);
  }

  /** The dependency filters of a correlated EXISTS on one pair of rows, dates as
      in the nested loop. */
  predicate PassesNarrowed(fs: seq<Filter>, l: Row, r: Row) {
    && fs != [] && !Get(l, fs[0].lv).Date?
    && forall k :: 0 <= k < |fs| && k % 2 == 0 ==> Get(l, fs[k].lv).Date? || NarrowCondition(fs[k], l, r)
  }

  predicate PassesEqualities(fs: seq<Filter>, l: Row, r: Row) {
    forall k :: 0 <= k < |fs| && fs[k].op.EQ? ==> Condition(fs[k], l, r)
  }

  /** The equality filters with values replaced by what a key prints of them. */
  predicate PassesPrinted(fs: seq<Filter>, l: Row, r: Row) {
    forall k :: 0 <= k < |fs| && fs[k].op.EQ? ==> SamePrint(Get(l, fs[k].lv), Get(r, fs[k].rv))
  }

  predicate SamePrint(a: Value, b: Value) {
    KeyPart(a, false) == KeyPart(b, false)
  }

  /** Conditions and connectives alternate; condition columns have one common
      type, and equality columns are no dates. */
  ghost predicate Typed(fs: seq<Filter>, l: Row, r: Row) {
    && (forall k :: 0 <= k < |fs| && k % 2 == 1 ==> !Comparison(fs[k].op))
    && (forall k :: 0 <= k < |fs| && k % 2 == 0 ==>
          && Comparison(fs[k].op)
          && SameKind(Get(l, fs[k].lv), Get(r, fs[k].rv))
          && (fs[k].op.EQ? ==> !Get(l, fs[k].lv).Date?))
  }

  predicate NoDates(fs: seq<Filter>, l: Row) {
    forall k :: 0 <= k < |fs| && k % 2 == 0 ==> !Get(l, fs[k].lv).Date?
  }

  ghost predicate WellTyped(fs: seq<Filter>, l: Row, r: Row) {
    Typed(fs, l, r) && NoDates(fs, l)
  }

  /** Equality columns have one type on both sides, and are no dates. */
  ghost predicate EqTyped(fs: seq<Filter>, l: Row, r: Row) {
    forall k :: 0 <= k < |fs| && fs[k].op.EQ? ==>
      SameKind(Get(l, fs[k].lv), Get(r, fs[k].rv)) && !Get(l, fs[k].lv).Date?
  }

  // ----------------------------------------------------------- printed floats

  /** What is printed of a float besides its sign: its millionths, rounded. */
  function Millionths(f: real): nat {
    ((if f < 0.0 then -f else f) * 1000000.0 + 0.5).Floor
  }

  lemma {:induction false} NatToStringLength(n: nat, k: nat)
    requires Power10(k) <= n < Power10(k + 1)
    ensures |NatToString(n)| == k + 1
  {
    if k > 0 {
      NatToStringLength(n / 10, k - 1);
    }
  }

  function Power10(k: nat): (p: nat)
    ensures p >= 1
  {
    if k == 0 then 1 else 10 * Power10(k - 1)
  }

  lemma {:induction false} SixDecimals(n: nat)
    ensures |NatToString(1000000 + n % 1000000)| == 7
    ensures NatToString(1000000 + n % 1000000)[0] == '1'
  {
    var m := 1000000 + n % 1000000;
    assert Power10(6) == 1000000 && Power10(7) == 10000000;
    NatToStringLength(m, 6);
    FirstDigit(m, 6);
  }

  /** The digit in front. */
  lemma {:induction false} FirstDigit(n: nat, k: nat)
    requires Power10(k) <= n < 2 * Power10(k)
    ensures NatToString(n)[0] == '1'
    ensures NatToString(n) != []
  {
    if k > 0 {
      FirstDigit(n / 10, k - 1);
    }
  }

  /** Two floats print alike exactly when they have one sign and round to the same
      millionths. */
  lemma {:induction false} FloatsPrintAlikeIff(x: real, y: real)
    ensures FloatToString(x) == FloatToString(y) <==> (x < 0.0 <==> y < 0.0) && Millionths(x) == Millionths(y)
  {
    var m, n := Millionths(x), Millionths(y);
    NatToStringDigits(m / 1000000);
    NatToStringDigits(n / 1000000);
    assert FloatToString(x)[0] == '-' <==> x < 0.0;
    assert FloatToString(y)[0] == '-' <==> y < 0.0;
    if FloatToString(x) == FloatToString(y) {
      AlikeParts(m, n, if x < 0.0 then "-" else "");
    }
  }

  lemma {:induction false} AlikeParts(m: nat, n: nat, sign: string)
    requires sign + NatToString(m / 1000000) + "." + NatToString(1000000 + m % 1000000)[1..]
          == sign + NatToString(n / 1000000) + "." + NatToString(1000000 + n % 1000000)[1..]
    ensures m == n
  {
    var a, b := NatToString(m / 1000000), NatToString(n / 1000000);
    var c, d := NatToString(1000000 + m % 1000000), NatToString(1000000 + n % 1000000);
    SixDecimals(m);
    SixDecimals(n);
    var s, t := sign + a + "." + c[1..], sign + b + "." + d[1..];
    assert |s| == |sign| + |a| + 7 && |t| == |sign| + |b| + 7;
    assert s[|sign|..|sign| + |a|] == a && t[|sign|..|sign| + |b|] == b;
    assert s[|s| - 6..] == c[1..] && t[|t| - 6..] == d[1..];
    assert c == [c[0]] + c[1..] && d == [d[0]] + d[1..];
    NatToStringInjective(m / 1000000, n / 1000000);
    NatToStringInjective(1000000 + m % 1000000, 1000000 + n % 1000000);
  }

  /** Two different floats with one key. */
  lemma {:induction false} FloatsPrintAlike(l: Row, r: Row, f: Filter)
    requires f.op.EQ? && Get(l, f.lv) == Float(0.0000001) && Get(r, f.rv) == Float(0.0)
    ensures PassesPrinted([f], l, r) && !PassesEqualities([f], l, r)
  {
    assert Millionths(0.0000001) == 0 && Millionths(0.0) == 0;
    FloatsPrintAlikeIff(0.0000001, 0.0);
    assert [f][0] == f && !Condition([f][0], l, r);
  }

  /** Strings and integers print alike only if they are equal. */
  lemma {:induction false} PrintedIffEqual(a: Value, b: Value)
    requires SameKind(a, b) && !a.Date?
    ensures a == b ==> SamePrint(a, b)
    ensures a.Float? ==> (SamePrint(a, b) <==> FloatToString(a.f) == FloatToString(b.f))
    ensures !a.Float? ==> (SamePrint(a, b) <==> a == b)
  {
    var p, q := KeyPart(a, false), KeyPart(b, false);
    assert p == q <==> p[0] == q[0];
    if a.Int? {
      ToStringInjective(a.i, b.i);
    }
  }

  // ------------------------------------------------------------ equal key tuples

  lemma {:induction false} OnePart(v: Value, build: bool)
    requires !v.Date? && !v.NoValue?
    ensures KeyPart(v, build) == KeyPart(v, false) && |KeyPart(v, build)| == 1
  {
  }

  lemma {:induction false} AppendsAgree<T>(p: seq<T>, a: seq<T>, q: seq<T>, b: seq<T>)
    requires |p| == |q|
    ensures p + a == q + b <==> p == q && a == b
  {
    if p + a == q + b {
      assert (p + a)[..|p|] == p && (q + b)[..|q|] == q;
      assert (p + a)[|p|..] == a && (q + b)[|q|..] == b;
    }
  }

  lemma {:induction false} LastApart<T>(s: seq<T>)
    requires s != []
    ensures s == s[..|s| - 1] + [s[|s| - 1]]
  {
  }

  lemma {:induction false} KeyPartsStep(row: Row, cols: seq<string>, c: string, build: bool)
    ensures KeyParts(row, cols + [c], build) == KeyParts(row, cols, build) + KeyPart(Get(row, c), build)
  {
    assert (cols + [c])[..|cols|] == cols;
  }

  lemma {:induction false} KeyPartsAgreeStep(l: Row, lcols: seq<string>, lv: string, r: Row, rcols: seq<string>,
                                             rv: string, bl: bool, br: bool)
    requires |KeyParts(l, lcols, bl)| == |KeyParts(r, rcols, br)| == |lcols|
    requires SameKind(Get(l, lv), Get(r, rv)) && !Get(l, lv).Date?
    ensures |KeyParts(l, lcols + [lv], bl)| == |KeyParts(r, rcols + [rv], br)| == |lcols| + 1
    ensures KeyParts(l, lcols + [lv], bl) == KeyParts(r, rcols + [rv], br)
       <==> KeyParts(l, lcols, bl) == KeyParts(r, rcols, br) && SamePrint(Get(l, lv), Get(r, rv))
  {
    KeyPartsStep(l, lcols, lv, bl);
    KeyPartsStep(r, rcols, rv, br);
    var a, b := Get(l, lv), Get(r, rv);
    OnePart(a, bl);
    OnePart(b, br);
    AppendsAgree(KeyParts(l, lcols, bl), KeyPart(a, bl), KeyParts(r, rcols, br), KeyPart(b, br));
  }

  /** Equal key tuples mean values that print alike. */
  lemma {:induction false} KeyPartsAgree(fs: seq<Filter>, l: Row, r: Row, bl: bool, br: bool)
    requires EqTyped(fs, l, r)
    ensures |KeyParts(l, EqLeft(fs), bl)| == |KeyParts(r, EqRight(fs), br)| == |EqLeft(fs)| == |EqRight(fs)|
    ensures KeyParts(l, EqLeft(fs), bl) == KeyParts(r, EqRight(fs), br) <==> PassesPrinted(fs, l, r)
  {
    if fs != [] {
      var init, f := fs[..|fs| - 1], fs[|fs| - 1];
      assert EqTyped(init, l, r);
      KeyPartsAgree(init, l, r, bl, br);
      PrintedStep(fs, l, r);
      if f.op.EQ? {
        KeyPartsAgreeStep(l, EqLeft(init), f.lv, r, EqRight(init), f.rv, bl, br);
      } else {
        assert EqLeft(fs) == EqLeft(init) && EqRight(fs) == EqRight(init);
      }
    }
  }

  lemma {:induction false} PrintedStep(fs: seq<Filter>, l: Row, r: Row)
    requires fs != []
    ensures var n := |fs| - 1;
      PassesPrinted(fs, l, r)
      <==> PassesPrinted(fs[..n], l, r) && (fs[n].op.EQ? ==> SamePrint(Get(l, fs[n].lv), Get(r, fs[n].rv)))
  {
    var n := |fs| - 1;
    assert forall k :: 0 <= k < n ==> fs[..n][k] == fs[k];
  }

  /** Either there is a single key column, or the key strings of this row do
      not contain the separator. */
  predicate SafeKey(row: Row, cols: seq<string>, build: bool) {
    |cols| <= 1 || BarFree(KeyParts(row, cols, build))
  }

  /** The hash keys of a typed row pair agree exactly when all equality filters
      hold of the values as they are printed. */
  lemma {:induction false} KeysAgree(fs: seq<Filter>, l: Row, r: Row, bl: bool, br: bool)
    requires EqTyped(fs, l, r)
    requires SafeKey(l, EqLeft(fs), bl) || SafeKey(r, EqRight(fs), br)
    ensures JoinKey(KeyParts(l, EqLeft(fs), bl)) == JoinKey(KeyParts(r, EqRight(fs), br))
      <==> PassesPrinted(fs, l, r)
  {
    KeyPartsAgree(fs, l, r, bl, br);
    var p, q := KeyParts(l, EqLeft(fs), bl), KeyParts(r, EqRight(fs), br);
    SameKeySameTuple(p, q);
  }

  lemma {:induction false} FiltersSplit(fs: seq<Filter>, l: Row, r: Row)
    requires fs != [] && Typed(fs, l, r) && !Get(l, fs[0].lv).Date?
    ensures PassesEqualities(fs, l, r) && PassesNonEquality(fs, l, r) <==> PassesLoop(fs, l, r)
  {
    assert forall k :: 0 <= k < |fs| && Comparison(fs[k].op) ==> k % 2 == 0;
  }

  lemma {:induction false} TypedIsEqTyped(fs: seq<Filter>, l: Row, r: Row)
    requires Typed(fs, l, r)
    ensures EqTyped(fs, l, r)
  {
    assert forall k :: 0 <= k < |fs| && Comparison(fs[k].op) ==> k % 2 == 0;
  }

  /** What the hash join tests of a pair. */
  predicate HashTest(fs: seq<Filter>, l: Row, r: Row) {
    BuildKey(l, EqLeft(fs)) == ProbeKey(r, EqRight(fs)) && PassesNonEquality(fs, l, r)
  }

  /** Some equality filter compares different floats that print alike. */
  predicate Rounded(fs: seq<Filter>, l: Row, r: Row) {
    exists k :: 0 <= k < |fs| && fs[k].op.EQ? && Get(l, fs[k].lv).Float? && Get(l, fs[k].lv) != Get(r, fs[k].rv)
  }

  /** What the hash join tests is what the nested loop tests, unless the first
      condition is on a date or different floats print alike. */
  lemma {:induction false} HashTestIsLoopTest(fs: seq<Filter>, l: Row, r: Row)
    requires fs != [] && Typed(fs, l, r) && !Get(l, fs[0].lv).Date?
    requires SafeKey(l, EqLeft(fs), true) || SafeKey(r, EqRight(fs), false)
    ensures PassesLoop(fs, l, r) ==> HashTest(fs, l, r)
    ensures HashTest(fs, l, r) == PassesLoop(fs, l, r)
       <==> !(Rounded(fs, l, r) && PassesPrinted(fs, l, r) && PassesNonEquality(fs, l, r))
  {
    TypedIsEqTyped(fs, l, r);
    KeysAgree(fs, l, r, true, false);
    FiltersSplit(fs, l, r);
    RoundedIff(fs, l, r);
  }

  lemma {:induction false} RoundedIff(fs: seq<Filter>, l: Row, r: Row)
    requires EqTyped(fs, l, r)
    ensures PassesEqualities(fs, l, r) <==> PassesPrinted(fs, l, r) && !Rounded(fs, l, r)
  {
    forall k | 0 <= k < |fs| && fs[k].op.EQ?
      ensures Condition(fs[k], l, r)
         <==> SamePrint(Get(l, fs[k].lv), Get(r, fs[k].rv))
              && !(Get(l, fs[k].lv).Float? && Get(l, fs[k].lv) != Get(r, fs[k].rv))
    {
      PrintedIffEqual(Get(l, fs[k].lv), Get(r, fs[k].rv));
    }
  }

  /** What a correlated EXISTS tests is what the filter list means, of strings and of
      integers within 32 bits. */
  lemma {:induction false} NarrowedIsFilterTest(fs: seq<Filter>, l: Row, r: Row)
    requires WellTyped(fs, l, r)
    requires forall k :: 0 <= k < |fs| && k % 2 == 0 ==>
      !Get(l, fs[k].lv).Float? && FitsInt32(Get(l, fs[k].lv)) && FitsInt32(Get(r, fs[k].rv))
    ensures PassesNarrowed(fs, l, r) <==> PassesAll(fs, l, r)
    ensures PassesNarrowed(fs, l, r)
       <==> fs != [] && forall k :: 0 <= k < |fs| && Comparison(fs[k].op) ==> Condition(fs[k], l, r)
  {
    forall k | 0 <= k < |fs| && k % 2 == 0 ensures NarrowCondition(fs[k], l, r) <==> Condition(fs[k], l, r) {
      var a, b := Get(l, fs[k].lv), Get(r, fs[k].rv);
      assert SameKind(a, b) && Narrow(a) == a && Narrow(b) == b;
    }
    assert forall k :: 0 <= k < |fs| ==> (Comparison(fs[k].op) <==> k % 2 == 0);
  }

  /** What the hash operators test is what the filter list means, but for floats. */
  lemma {:induction false} HashTestIsFilterTest(fs: seq<Filter>, l: Row, r: Row)
    requires fs != [] && WellTyped(fs, l, r)
    requires SafeKey(l, EqLeft(fs), true) || SafeKey(r, EqRight(fs), false)
    ensures PassesAll(fs, l, r) ==> HashTest(fs, l, r)
    ensures HashTest(fs, l, r) == PassesAll(fs, l, r)
       <==> !(Rounded(fs, l, r) && PassesPrinted(fs, l, r) && PassesNonEquality(fs, l, r))
  {
    HashTestIsLoopTest(fs, l, r);
    assert PassesLoop(fs, l, r) <==> PassesAll(fs, l, r);
  }
}
