/** Aggregates over cells that are NULL: what SQL asks for, and when the code, which
    takes the default values of such cells, computes it. */
module NullCells {
  import opened Tables
  import opened Filters
  import opened Expressions
  import opened Projections
  import opened Aggregates
  import opened Permutations
  import Rounding

  // ------------------------------------------------------------ known and unknown

  /** The expression of a projection is NULL on a row with a NULL operand. */
  predicate NullOn(tokens: seq<Token>, row: Row) {
    exists k :: 0 <= k < |tokens| && NullOperand(tokens[k], row)
  }

  predicate NullOperand(token: Token, row: Row) {
    token.Column? && IsNull(row, token.name)
  }

  /** The rows on which it is not. */
  function Known(rows: seq<Row>, tokens: seq<Token>): (known: seq<Row>)
    ensures |known| <= |rows|
  {
    if rows == [] then []
    else
      var x := rows[|rows| - 1];
      Known(rows[..|rows| - 1], tokens) + if NullOn(tokens, x) then [] else [x]
  }

  function Unknown(rows: seq<Row>, tokens: seq<Token>): seq<Row> {
    if rows == [] then []
    else
      var x := rows[|rows| - 1];
      Unknown(rows[..|rows| - 1], tokens) + if NullOn(tokens, x) then [x] else []
  }

  lemma {:induction false} Separated(rows: seq<Row>, tokens: seq<Token>)
    ensures |Known(rows, tokens)| + |Unknown(rows, tokens)| == |rows|
    ensures forall x :: x in rows <==> x in Known(rows, tokens) || x in Unknown(rows, tokens)
    ensures forall x :: x in Known(rows, tokens) ==> !NullOn(tokens, x)
    ensures forall x :: x in Unknown(rows, tokens) ==> NullOn(tokens, x)
  {
    if rows != [] {
      var n := |rows| - 1;
      Separated(rows[..n], tokens);
      LastApart(rows);
      assert forall x :: x in rows <==> x in rows[..n] || x == rows[n];
    }
  }

  // --------------------------------------------------------------------- numbers

  /** The number a value stands for. */
  function Number(t: T): real {
    if t.vtype.TypeInt? then t.varInt as real else t.varFloat
  }

  /** The expression is an integer on all rows, or a float on all rows. */
  ghost predicate AllNumbers(rows: seq<Row>, f: Row -> T, ints: bool) {
    forall r :: 0 <= r < |rows| ==> if ints then f(rows[r]).vtype.TypeInt? else f(rows[r]).vtype.TypeFloat?
  }

  /** `val` is the number that `f` yields. */
  ghost predicate NumberOf(val: Row -> real, rows: seq<Row>, f: Row -> T) {
    forall r :: 0 <= r < |rows| ==> val(rows[r]) == Number(f(rows[r]))
  }

  function Total(rows: seq<Row>, val: Row -> real): real {
    if rows == [] then 0.0 else Total(rows[..|rows| - 1], val) + val(rows[|rows| - 1])
  }

  lemma {:induction false} TotalStep(rows: seq<Row>, x: Row, val: Row -> real)
    ensures Total(rows + [x], val) == Total(rows, val) + val(x)
    ensures Total(rows + [], val) == Total(rows, val)
  {
    assert (rows + [x])[..|rows|] == rows;
    assert rows + [] == rows;
  }

  lemma {:induction false} TotalApart(rows: seq<Row>, tokens: seq<Token>, val: Row -> real)
    ensures Total(rows, val) == Total(Known(rows, tokens), val) + Total(Unknown(rows, tokens), val)
  {
    if rows != [] {
      var n := |rows| - 1;
      TotalApart(rows[..n], tokens, val);
      TotalStep(Known(rows[..n], tokens), rows[n], val);
      TotalStep(Unknown(rows[..n], tokens), rows[n], val);
    }
  }

  lemma {:induction false} SumOfNumbers(rows: seq<Row>, f: Row -> T, val: Row -> real, ints: bool)
    requires AllNumbers(rows, f, ints) && NumberOf(val, rows, f)
    ensures rows != [] ==> if ints then SumT(rows, f).vtype.TypeInt? else SumT(rows, f).vtype.TypeFloat?
    ensures (if ints then SumT(rows, f).varInt as real else SumT(rows, f).varFloat) == Total(rows, val)
  {
    if rows != [] {
      var n := |rows| - 1;
      SumOfNumbers(rows[..n], f, val, ints);
      assert AllNumbers([rows[n]], f, ints);
    }
  }

  // ------------------------------------------------------------------------- SUM

  /** SUM of an expression `f` over `tokens` is the sum of the values that are not
      NULL exactly when there is one and the default values of the others add up to
      nothing. */
  lemma {:induction false} SumRightIff(rows: seq<Row>, tokens: seq<Token>, f: Row -> T, val: Row -> real, ints: bool)
    requires rows != [] && AllNumbers(rows, f, ints) && NumberOf(val, rows, f)
    ensures Known(rows, tokens) != [] && Number(SumT(rows, f)) == Total(Known(rows, tokens), val)
       <==> Known(rows, tokens) != [] && Total(Unknown(rows, tokens), val) == 0.0
  {
    SumOfNumbers(rows, f, val, ints);
    TotalApart(rows, tokens, val);
  }

  // ------------------------------------------------------------------------- AVG

  lemma {:induction false} QuotientIs(a: real, n: real, b: real)
    requires n > 0.0
    ensures a == b / n <==> a * n == b
  {
    if a == b / n {
      assert a * n == b;
    }
  }

  /** The quotient that AVG rounds to a 32-bit float. */
  function Averaged(total: real, n: nat, ints: bool): real
    requires n > 0
  {
    if ints then TruncDiv(total.Floor, n) as real else total / n as real
  }

  lemma {:induction false} AvgIsAveraged(rows: seq<Row>, f: Row -> T, val: Row -> real, ints: bool)
    requires rows != [] && AllNumbers(rows, f, ints) && NumberOf(val, rows, f)
    ensures AvgT(rows, f).varFloat == Rounding.ToFloat32(Averaged(Total(rows, val), |rows|, ints))
  {
    SumOfNumbers(rows, f, val, ints);
    if ints {
      assert (SumT(rows, f).varInt as real).Floor == SumT(rows, f).varInt;
    }
  }

  /** `k` known values of this total and `u` NULLs whose stored values have that one:
      of floats the means agree; of integers the known values have an integer as their
      mean, and what the stored values add beyond it is truncated away. */
  predicate NullsHarmless(known: real, k: nat, unknown: real, u: nat, ints: bool)
    requires k > 0
  {
    if ints then
      var mean := TruncDiv(known.Floor, k);
      Distance(known.Floor) % k == 0 && Truncated(unknown.Floor - mean * u, mean, k + u)
    else u == 0 || unknown / u as real == known / k as real
  }

  /** AVG rounds the mean of the values that are not NULL exactly when the stored
      values of the NULLs are harmless. */
  lemma {:induction false} AvgRightIff(rows: seq<Row>, tokens: seq<Token>, f: Row -> T, val: Row -> real, ints: bool)
    requires rows != [] && AllNumbers(rows, f, ints) && NumberOf(val, rows, f) && Known(rows, tokens) != []
    ensures AvgT(rows, f).varFloat == Rounding.ToFloat32(Averaged(Total(rows, val), |rows|, ints))
    ensures var known, unknown := Known(rows, tokens), Unknown(rows, tokens);
      Averaged(Total(rows, val), |rows|, ints) == Total(known, val) / |known| as real
      <==> NullsHarmless(Total(known, val), |known|, Total(unknown, val), |unknown|, ints)
  {
    AvgIsAveraged(rows, f, val, ints);
    TotalsMeet(rows, tokens, f, val, ints, Total(Known(rows, tokens), val), Total(Unknown(rows, tokens), val));
  }

  lemma {:induction false} TotalsMeet(rows: seq<Row>, tokens: seq<Token>, f: Row -> T, val: Row -> real, ints: bool,
                                      known: real, unknown: real)
    requires rows != [] && AllNumbers(rows, f, ints) && NumberOf(val, rows, f) && Known(rows, tokens) != []
    requires known == Total(Known(rows, tokens), val) && unknown == Total(Unknown(rows, tokens), val)
    ensures var k, u := |Known(rows, tokens)|, |Unknown(rows, tokens)|;
      Averaged(Total(rows, val), |rows|, ints) == known / k as real <==> NullsHarmless(known, k, unknown, u, ints)
  {
    TotalApart(rows, tokens, val);
    Separated(rows, tokens);
    if ints {
      WholeApart(rows, tokens, f, val);
    }
    MeansMeet(known, |Known(rows, tokens)|, unknown, |Unknown(rows, tokens)|, ints, Total(rows, val), |rows|);
  }

  predicate IsWhole(x: real) {
    x == x.Floor as real
  }

  lemma {:induction false} WholeSum(x: real, y: real)
    requires IsWhole(x) && IsWhole(y)
    ensures IsWhole(x + y)
  {
    assert x + y == (x.Floor + y.Floor) as real;
  }

  ghost predicate AllWhole(rows: seq<Row>, val: Row -> real) {
    forall k :: 0 <= k < |rows| ==> IsWhole(val(rows[k]))
  }

  lemma {:induction false} WholeTotal(rows: seq<Row>, val: Row -> real)
    requires AllWhole(rows, val)
    ensures IsWhole(Total(rows, val))
  {
    if rows != [] {
      var n := |rows| - 1;
      assert AllWhole(rows[..n], val);
      WholeTotal(rows[..n], val);
      assert IsWhole(val(rows[n]));
      WholeSum(Total(rows[..n], val), val(rows[n]));
    }
  }

  /** The totals of integers, apart. */
  lemma {:induction false} WholeApart(rows: seq<Row>, tokens: seq<Token>, f: Row -> T, val: Row -> real)
    requires AllNumbers(rows, f, true) && NumberOf(val, rows, f)
    ensures IsWhole(Total(Known(rows, tokens), val)) && IsWhole(Total(Unknown(rows, tokens), val))
  {
    forall k | 0 <= k < |rows| ensures IsWhole(val(rows[k])) {
      assert (f(rows[k]).varInt as real).Floor == f(rows[k]).varInt;
    }
    Separated(rows, tokens);
    var known, unknown := Known(rows, tokens), Unknown(rows, tokens);
    forall k | 0 <= k < |known| ensures IsWhole(val(known[k])) {
      assert known[k] in rows;
    }
    forall k | 0 <= k < |unknown| ensures IsWhole(val(unknown[k])) {
      assert unknown[k] in rows;
    }
    WholeTotal(known, val);
    WholeTotal(unknown, val);
  }

  lemma {:induction false} MeansMeet(known: real, k: nat, unknown: real, u: nat, ints: bool, total: real,
                                     n: nat)
    requires k > 0 && total == known + unknown && n == k + u
    requires (ints ==> IsWhole(known) && IsWhole(unknown)) && (u == 0 ==> unknown == 0.0)
    ensures Averaged(total, n, ints) == known / k as real <==> NullsHarmless(known, k, unknown, u, ints)
  {
    if ints {
      WholeMeansMeet(known, known.Floor, k, unknown, unknown.Floor, u, total, n);
    } else {
      FloatsMeet(known, k as real, unknown, u as real, n as real);
    }
  }

  lemma {:induction false} WholeMeansMeet(known: real, a: int, k: nat, unknown: real, b: int, u: nat, total: real,
                                          n: nat)
    requires k > 0 && total == known + unknown && n == k + u && known == a as real && unknown == b as real
    ensures Averaged(total, n, true) == known / k as real <==> NullsHarmless(known, k, unknown, u, true)
  {
    assert known.Floor == a && unknown.Floor == b && total.Floor == a + b;
    IntegersMeet(a, k, b, u);
  }

  lemma {:induction false} FloatsMeet(known: real, k: real, unknown: real, u: real, n: real)
    requires k > 0.0 && u >= 0.0 && n == k + u && (u == 0.0 ==> unknown == 0.0)
    ensures (known + unknown) / n == known / k <==> u == 0.0 || unknown / u == known / k
  {
    var m := known / k;
    QuotientIs(m, k, known);
    QuotientIs(m, n, known + unknown);
    assert m * n == m * k + m * u;
    if u > 0.0 {
      QuotientIs(m, u, unknown);
    }
  }

  lemma {:induction false} IntegersMeet(known: int, k: nat, unknown: int, u: nat)
    requires k > 0
    ensures TruncDiv(known + unknown, k + u) as real == known as real / k as real
       <==> Distance(known) % k == 0 && Truncated(unknown - TruncDiv(known, k) * u, TruncDiv(known, k), k + u)
  {
    var q, mean := TruncDiv(known + unknown, k + u), TruncDiv(known, k);
    WholeQuotient(q, known, k);
    TruncatesIff(known, k);
    TruncDivIff(known + unknown, k + u, mean);
    if q * k == known {
      ExactMultiple(known, k, q);
    }
    Spread(mean, k, u);
  }

  lemma {:induction false} Spread(m: int, k: nat, u: nat)
    ensures m * (k + u) == m * k + m * u
  {
  }

  /** Beside NULLs that stand for 0 that is exactly when the total is 0, or there is no
      NULL and, for integers, the row count divides the total. */
  lemma {:induction false} AvgOfPaddedIff(rows: seq<Row>, tokens: seq<Token>, f: Row -> T, val: Row -> real,
                                          ints: bool)
    requires rows != [] && AllNumbers(rows, f, ints) && NumberOf(val, rows, f) && Known(rows, tokens) != []
    requires forall x :: x in Unknown(rows, tokens) ==> val(x) == 0.0
    ensures var known := Known(rows, tokens);
      Averaged(Total(rows, val), |rows|, ints) == Total(known, val) / |known| as real
      <==> || Total(rows, val) == 0.0
           || (Unknown(rows, tokens) == [] && (ints ==> Distance(Total(rows, val).Floor) % |rows| == 0))
  {
    AvgRightIff(rows, tokens, f, val, ints);
    TotalApart(rows, tokens, val);
    Separated(rows, tokens);
    NothingTotal(Unknown(rows, tokens), val);
    if ints {
      WholeApart(rows, tokens, f, val);
    }
    PaddedHarmless(Total(rows, val), |Known(rows, tokens)|, |Unknown(rows, tokens)|, ints);
  }

  lemma {:induction false} NothingTotal(rows: seq<Row>, val: Row -> real)
    requires forall x :: x in rows ==> val(x) == 0.0
    ensures Total(rows, val) == 0.0
  {
    if rows != [] {
      NothingTotal(rows[..|rows| - 1], val);
    }
  }

  lemma {:induction false} PaddedHarmless(total: real, k: nat, u: nat, ints: bool)
    requires k > 0 && (ints ==> IsWhole(total))
    ensures NullsHarmless(total, k, 0.0, u, ints)
       <==> total == 0.0 || (u == 0 && (ints ==> Distance(total.Floor) % (k + u) == 0))
  {
    if ints {
      var mean := TruncDiv(total.Floor, k);
      TruncatesIff(total.Floor, k);
      SignOf(mean, u);
      assert (0.0).Floor == 0;
    } else {
      QuotientIs(0.0, k as real, total);
    }
  }

  lemma {:induction false} SignOf(q: int, u: nat)
    ensures q > 0 && u > 0 ==> q * u > 0
    ensures q < 0 && u > 0 ==> q * u < 0
    ensures q == 0 || u == 0 ==> q * u == 0
  {
  }

  // ----------------------------------------------------------------- MIN and MAX

  /** `m` is the least number on the rows, or the greatest. */
  ghost predicate Extreme(rows: seq<Row>, val: Row -> real, m: real, least: bool) {
    && (exists k :: 0 <= k < |rows| && val(rows[k]) == m)
    && forall k :: 0 <= k < |rows| ==> if least then m <= val(rows[k]) else val(rows[k]) <= m
  }

  lemma {:induction false} ExtremeStep(rows: seq<Row>, val: Row -> real, m: real, least: bool)
    requires |rows| > 1 && Extreme(rows[..|rows| - 1], val, m, least)
    ensures var x := val(rows[|rows| - 1]);
      Extreme(rows, val, if least then (if m < x then m else x) else (if m > x then m else x), least)
  {
    var n := |rows| - 1;
    var k :| 0 <= k < n && val(rows[..n][k]) == m;
    assert rows[k] == rows[..n][k];
    assert forall j :: 0 <= j < n ==> rows[..n][j] == rows[j];
    assert val(rows[n]) == val(rows[|rows| - 1]);
  }

  lemma {:induction false} MinOfNumbers(rows: seq<Row>, f: Row -> T, val: Row -> real, ints: bool)
    requires rows != [] && AllNumbers(rows, f, ints) && NumberOf(val, rows, f)
    ensures if ints then MinT(rows, f).vtype.TypeInt? else MinT(rows, f).vtype.TypeFloat?
    ensures Extreme(rows, val, Number(MinT(rows, f)), true)
  {
    var n := |rows| - 1;
    assert val(rows[n]) == Number(f(rows[n]));
    if n > 0 {
      MinOfNumbers(rows[..n], f, val, ints);
      ExtremeStep(rows, val, Number(MinT(rows[..n], f)), true);
    }
  }

  lemma {:induction false} MaxOfNumbers(rows: seq<Row>, f: Row -> T, val: Row -> real, ints: bool)
    requires rows != [] && AllNumbers(rows, f, ints) && NumberOf(val, rows, f)
    ensures if ints then MaxT(rows, f).vtype.TypeInt? else MaxT(rows, f).vtype.TypeFloat?
    ensures Extreme(rows, val, Number(MaxT(rows, f)), false)
  {
    var n := |rows| - 1;
    assert val(rows[n]) == Number(f(rows[n]));
    if n > 0 {
      MaxOfNumbers(rows[..n], f, val, ints);
      ExtremeStep(rows, val, Number(MaxT(rows[..n], f)), false);
    }
  }

  /** MIN (MAX) is the least (greatest) of the values that are not NULL exactly when
      one of them is beyond all default values of the others. */
  lemma {:induction false} ExtremeRightIff(rows: seq<Row>, tokens: seq<Token>, f: Row -> T, val: Row -> real,
                                           ints: bool, least: bool)
    requires rows != [] && AllNumbers(rows, f, ints) && NumberOf(val, rows, f)
    ensures Extreme(Known(rows, tokens), val, Number(if least then MinT(rows, f) else MaxT(rows, f)), least)
       <==> exists k :: 0 <= k < |Known(rows, tokens)|
              && Beyond(Unknown(rows, tokens), val, val(Known(rows, tokens)[k]), least)
  {
    if least {
      MinOfNumbers(rows, f, val, ints);
    } else {
      MaxOfNumbers(rows, f, val, ints);
    }
    ExtremeApart(rows, tokens, val, Number(if least then MinT(rows, f) else MaxT(rows, f)), least);
  }

  ghost predicate Beyond(rows: seq<Row>, val: Row -> real, m: real, least: bool) {
    forall k :: 0 <= k < |rows| ==> if least then m <= val(rows[k]) else val(rows[k]) <= m
  }

  lemma {:induction false} ExtremeApart(rows: seq<Row>, tokens: seq<Token>, val: Row -> real, m: real, least: bool)
    requires Extreme(rows, val, m, least)
    ensures Extreme(Known(rows, tokens), val, m, least)
       <==> exists k :: 0 <= k < |Known(rows, tokens)|
              && Beyond(Unknown(rows, tokens), val, val(Known(rows, tokens)[k]), least)
  {
    var known, unknown := Known(rows, tokens), Unknown(rows, tokens);
    Separated(rows, tokens);
    forall k | 0 <= k < |known| ensures if least then m <= val(known[k]) else val(known[k]) <= m {
      assert known[k] in known;
      var i :| 0 <= i < |rows| && rows[i] == known[k];
    }
    forall k | 0 <= k < |unknown| ensures if least then m <= val(unknown[k]) else val(unknown[k]) <= m {
      assert unknown[k] in unknown;
      var i :| 0 <= i < |rows| && rows[i] == unknown[k];
    }
    var i :| 0 <= i < |rows| && val(rows[i]) == m;
    assert rows[i] in rows;
    if k :| 0 <= k < |known| && Beyond(unknown, val, val(known[k]), least) {
      if rows[i] in known {
        var j :| 0 <= j < |known| && known[j] == rows[i];
        assert val(known[j]) == m;
      } else {
        var j :| 0 <= j < |unknown| && unknown[j] == rows[i];
        assert val(known[k]) == m;
      }
    }
    if Extreme(known, val, m, least) {
      var k :| 0 <= k < |known| && val(known[k]) == m;
      assert Beyond(unknown, val, val(known[k]), least);
    }
  }

  // -------------------------------------------------------------- MIN of strings

  /** `val` is the string that `f` yields. */
  ghost predicate StringOf(val: Row -> string, rows: seq<Row>, f: Row -> T) {
    forall r :: 0 <= r < |rows| ==> f(rows[r]).vtype.TypeString? && val(rows[r]) == f(rows[r]).varString
  }

  ghost predicate First(rows: seq<Row>, val: Row -> string, m: string) {
    (exists k :: 0 <= k < |rows| && val(rows[k]) == m) && NotBefore(rows, val, m)
  }

  ghost predicate NotBefore(rows: seq<Row>, val: Row -> string, m: string) {
    forall k :: 0 <= k < |rows| ==> !StrLess(val(rows[k]), m)
  }

  lemma {:induction false} NotBeforeLess(rows: seq<Row>, val: Row -> string, m: string, x: string)
    requires NotBefore(rows, val, m) && !StrLess(m, x)
    ensures NotBefore(rows, val, x)
  {
    forall k | 0 <= k < |rows| ensures !StrLess(val(rows[k]), x) {
      StrLessTotal(val(rows[k]), m);
      if StrLess(val(rows[k]), x) {
        StrLessTotal(m, x);
        if m != val(rows[k]) {
          StrLessTransitive(m, val(rows[k]), x);
        }
      }
    }
  }

  lemma {:induction false} MinOfStrings(rows: seq<Row>, f: Row -> T, val: Row -> string)
    requires rows != [] && StringOf(val, rows, f)
    ensures MinT(rows, f).vtype.TypeString? && First(rows, val, MinT(rows, f).varString)
  {
    var n := |rows| - 1;
    StrLessTotal(val(rows[n]), val(rows[n]));
    if n > 0 {
      MinOfStrings(rows[..n], f, val);
      var m := MinT(rows[..n], f).varString;
      FirstStep(rows, val, m);
    }
  }

  lemma {:induction false} FirstStep(rows: seq<Row>, val: Row -> string, m: string)
    requires |rows| > 1 && First(rows[..|rows| - 1], val, m)
    ensures var x := val(rows[|rows| - 1]); First(rows, val, if StrLess(m, x) then m else x)
  {
    var n := |rows| - 1;
    var x := val(rows[n]);
    StrLessTotal(m, x);
    StrLessTotal(x, x);
    if !StrLess(m, x) {
      NotBeforeLess(rows[..n], val, m, x);
    }
    var k :| 0 <= k < n && val(rows[..n][k]) == m;
    assert val(rows[k]) == m;
    assert forall j :: 0 <= j < n ==> rows[j] == rows[..n][j];
  }

  /** MIN of strings is the first of the values that are not NULL exactly when no
      stored string of a NULL comes before some such value. */
  lemma {:induction false} StringMinRightIff(rows: seq<Row>, tokens: seq<Token>, f: Row -> T, val: Row -> string)
    requires rows != [] && StringOf(val, rows, f)
    ensures First(Known(rows, tokens), val, MinT(rows, f).varString)
       <==> exists k :: 0 <= k < |Known(rows, tokens)|
              && NotBefore(Unknown(rows, tokens), val, val(Known(rows, tokens)[k]))
  {
    MinOfStrings(rows, f, val);
    FirstApart(rows, tokens, val, MinT(rows, f).varString);
  }

  lemma {:induction false} FirstApart(rows: seq<Row>, tokens: seq<Token>, val: Row -> string, m: string)
    requires First(rows, val, m)
    ensures First(Known(rows, tokens), val, m)
       <==> exists k :: 0 <= k < |Known(rows, tokens)|
              && NotBefore(Unknown(rows, tokens), val, val(Known(rows, tokens)[k]))
  {
    var known, unknown := Known(rows, tokens), Unknown(rows, tokens);
    Separated(rows, tokens);
    forall k | 0 <= k < |known| ensures !StrLess(val(known[k]), m) {
      assert known[k] in known;
      var i :| 0 <= i < |rows| && rows[i] == known[k];
    }
    forall k | 0 <= k < |unknown| ensures !StrLess(val(unknown[k]), m) {
      assert unknown[k] in unknown;
      var i :| 0 <= i < |rows| && rows[i] == unknown[k];
    }
    var i :| 0 <= i < |rows| && val(rows[i]) == m;
    assert rows[i] in rows;
    if k :| 0 <= k < |known| && NotBefore(unknown, val, val(known[k])) {
      StrLessTotal(m, val(known[k]));
      if rows[i] in known {
        var j :| 0 <= j < |known| && known[j] == rows[i];
        assert val(known[j]) == m;
      } else {
        var j :| 0 <= j < |unknown| && unknown[j] == rows[i];
        assert val(known[k]) == m;
      }
    }
    if First(known, val, m) {
      var k :| 0 <= k < |known| && val(known[k]) == m;
      assert NotBefore(unknown, val, val(known[k]));
    }
  }

  // ------------------------------------------------------------- by select type

  /** What SUM, AVG, MIN and MAX yield for a group of numbers, whichever of them a
      projection selects. */
  lemma {:induction false} NumbersMean(p: Projection, schema: Schema, rows: seq<Row>, val: Row -> real, ints: bool)
    requires rows != []
    requires AllNumbers(rows, EvalOn(p.form, schema), ints) && NumberOf(val, rows, EvalOn(p.form, schema))
    ensures p.select.SumOf? ==> Number(AggT(p, schema, rows)) == Total(rows, val)
    ensures p.select.AvgOf? ==>
      && AggT(p, schema, rows).vtype.TypeFloat? && AggT(p, schema, rows).realSize == 6
      && AggT(p, schema, rows).varFloat == Rounding.ToFloat32(Averaged(Total(rows, val), |rows|, ints))
    ensures p.select.MinOfAll? ==> Extreme(rows, val, Number(AggT(p, schema, rows)), true)
    ensures p.select.MaxOfAll? ==> Extreme(rows, val, Number(AggT(p, schema, rows)), false)
  {
    var f := EvalOn(p.form, schema);
    if p.select.SumOf? {
      SumOfNumbers(rows, f, val, ints);
    } else if p.select.AvgOf? {
      AvgIsAveraged(rows, f, val, ints);
    } else if p.select.MinOfAll? {
      MinOfNumbers(rows, f, val, ints);
    } else {
      MaxOfNumbers(rows, f, val, ints);
    }
  }

  /** MIN of strings is the first of them in the order of dictionaries. */
  lemma {:induction false} StringMinMeans(p: Projection, schema: Schema, rows: seq<Row>, val: Row -> string)
    requires rows != [] && p.select.MinOfAll? && StringOf(val, rows, EvalOn(p.form, schema))
    ensures exists k :: 0 <= k < |rows| && val(rows[k]) == AggT(p, schema, rows).varString
    ensures forall k :: 0 <= k < |rows| ==> !Before(val(rows[k]), AggT(p, schema, rows).varString)
  {
    MinOfStrings(rows, EvalOn(p.form, schema), val);
    forall k | 0 <= k < |rows| ensures !Before(val(rows[k]), AggT(p, schema, rows).varString) {
      StrLessIff(val(rows[k]), AggT(p, schema, rows).varString);
    }
  }

  // ----------------------------------------------------------------------- COUNT

  /** COUNT of a column counts its values that are not NULL. */
  lemma {:induction false} CountIsRight(p: Projection, schema: Schema, rows: seq<Row>, c: string)
    requires rows != [] && p == Projection(Count, Terms([Column(c)])) && forall r :: 0 <= r < |rows| ==> c in rows[r]
    ensures AggT(p, schema, rows).varInt == |Known(rows, [Column(c)])|
  {
    NotNullCount(rows, c);
  }

  lemma {:induction false} NotNullCount(rows: seq<Row>, c: string)
    requires forall r :: 0 <= r < |rows| ==> c in rows[r]
    ensures Sum(rows, NotNull(c)) == |Known(rows, [Column(c)])|
  {
    if rows != [] {
      var n := |rows| - 1;
      NotNullCount(rows[..n], c);
      assert NullOn([Column(c)], rows[n]) <==> NullOperand([Column(c)][0], rows[n]);
      assert c in rows[n];
    }
  }

  /** On a column without dates COUNT DISTINCT is the number of distinct values that
      are not NULL exactly when as many of them are merged for agreeing in their low
      32 bits as the default values of NULLs add. */
  lemma {:induction false} CountDistinctRightIff(rows: seq<Row>, c: string)
    requires forall k :: 0 <= k < |rows| ==> !Get(rows[k], c).Date?
    ensures var values := Values(Known(rows, [Column(c)]), c);
      |Told(rows, c)| == |values| <==> |values| - |Image(values)| == |Told(rows, c) - Image(values)|
  {
    var known := Known(rows, [Column(c)]);
    var values := Values(known, c);
    Separated(rows, [Column(c)]);
    forall v | v in Image(values) ensures v in Told(rows, c) {
      var w :| w in values && Narrow(w) == v;
      var k :| 0 <= k < |known| && Get(known[k], c) == w;
      assert known[k] in known;
      var i :| 0 <= i < |rows| && rows[i] == known[k];
    }
    assert Told(rows, c) == Image(values) + (Told(rows, c) - Image(values));
  }

  /** Dates are not counted at all. */
  lemma {:induction false} CountDistinctDatesIff(rows: seq<Row>, c: string)
    requires forall k :: 0 <= k < |rows| ==> Get(rows[k], c).Date?
    ensures |Told(rows, c)| == 0
    ensures |Told(rows, c)| == |Values(Known(rows, [Column(c)]), c)| <==> Known(rows, [Column(c)]) == []
  {
    var known := Known(rows, [Column(c)]);
    assert Told(rows, c) == {};
    if known != [] {
      assert Get(known[0], c) in Values(known, c);
    } else {
      assert Values(known, c) == {};
    }
  }

  // ------------------------------------------------------------------- an example

  lemma {:induction false} HalfOfFour(s: T)
    requires s.vtype.TypeInt? && s.varInt == 4
    ensures Average(s, 2).varFloat == 2.0
  {
    Rounding.IntegersStay(2);
  }

  /** 4 beside a NULL that stands for 0: the average is 2 and the minimum is 0. */
  lemma {:induction false} PaddedRowCounts(schema: Schema, a: Row, b: Row, c: string)
    requires c in a && a[c] == Cell(Int(4), false) && c in b && b[c] == Cell(Int(0), true)
    ensures AggT(Projection(AvgOf, Terms([Column(c)])), schema, [a, b]).varFloat == 2.0
    ensures AggT(Projection(MinOfAll, Terms([Column(c)])), schema, [a, b]).varInt == 0
    ensures Known([a, b], [Column(c)]) == [a]
  {
    var f := EvalOn(Terms([Column(c)]), schema);
    EvalColumn(c, schema, a);
    EvalColumn(c, schema, b);
    assert [a, b][..1] == [a] && [a][..0] == [];
    assert f(a) == EMPTY_T.(varInt := 4, vtype := TypeInt) && f(b) == EMPTY_T.(varInt := 0, vtype := TypeInt);
    assert SumT([a], f) == EMPTY_T.(varInt := 4, vtype := TypeInt);
    assert MinT([a], f) == f(a);
    assert NullOperand([Column(c)][0], b) && NullOn([Column(c)], b) && !NullOn([Column(c)], a);
    assert SumT([a, b], f).varInt == 4 && SumT([a, b], f).vtype.TypeInt?;
    HalfOfFour(SumT([a, b], f));
  }
}
