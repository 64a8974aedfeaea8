/** The LIKE operator of a projection: what the code tests, what the patterns of
    SQL mean, and for which patterns the two are the same. */
module Patterns {
  import opened Trimming

  /** `substr` from a position behind the end throws. */
  datatype Answer = Matches(yes: bool) | OutOfRange

  predicate At(s: string, part: string, k: int) {
    0 <= k <= |s| - |part| && s[k..k + |part|] == part
  }

  predicate Contains(s: string, part: string) {
    exists k :: 0 <= k <= |s| && At(s, part, k)
  }

  predicate StartsOpen(p: string) {
    p != "" && p[0] == '%'
  }

  predicate EndsOpen(p: string) {
    p != "" && p[|p| - 1] == '%'
  }

  /** The text between the outer `%`. */
  function Inner(p: string): string {
    if StartsOpen(p) && EndsOpen(p) then (if |p| == 1 then "" else p[1..|p| - 1])
    else if StartsOpen(p) then p[1..]
    else if EndsOpen(p) then p[..|p| - 1]
    else p
  }

  /** The cases `%s%`, `%s`, `s%` and `s`, on trimmed operands. The empty pattern
      and, for `%s`, a column shorter than `s` make `substr` throw. */
  function LikeAsWritten(column: string, pattern: string): Answer {
    var col, p := Trim(column), Trim(pattern);
    var find := Inner(p);
    if p == "" then OutOfRange
    else if StartsOpen(p) && EndsOpen(p) then Matches(Contains(col, find))
    else if StartsOpen(p) then
      if |find| > |col| then OutOfRange else Matches(col[|col| - |find|..] == find)
    else if EndsOpen(p) then Matches(col[..if |find| < |col| then |find| else |col|] == find)
    else Matches(col == p)
  }

  /** `%` stands for any text, `_` for any character. */
  predicate SqlLike(s: string, p: string)
    decreases |p|, |s|
  {
    if p == "" then s == ""
    else if p[0] == '%' then SqlLike(s, p[1..]) || (s != "" && SqlLike(s[1..], p))
    else s != "" && (p[0] == '_' || p[0] == s[0]) && SqlLike(s[1..], p[1..])
  }

  predicate Plain(p: string) {
    '%' !in p && '_' !in p
  }

  // ------------------------------------------------------------ SQL's meaning

  lemma {:induction false} PlainStart(s: string, q: string, rest: string)
    requires Plain(q)
    ensures SqlLike(s, q + rest) <==> q <= s && SqlLike(s[|q|..], rest)
  {
    if q == "" {
      assert q + rest == rest;
    } else {
      assert (q + rest)[1..] == q[1..] + rest;
      assert q[0] in q;
      if s != "" {
        PlainStart(s[1..], q[1..], rest);
        assert q <= s <==> q[0] == s[0] && q[1..] <= s[1..];
        if q <= s {
          assert s[1..][|q| - 1..] == s[|q|..];
        }
      }
    }
  }

  lemma {:induction false} OpenStart(s: string, rest: string)
    ensures SqlLike(s, "%" + rest) <==> exists k :: 0 <= k <= |s| && SqlLike(s[k..], rest)
  {
    assert ("%" + rest)[1..] == rest;
    assert s[0..] == s;
    if s != "" {
      OpenStart(s[1..], rest);
      if k :| 0 <= k <= |s| && SqlLike(s[k..], rest) && k > 0 {
        assert s[1..][k - 1..] == s[k..];
      }
      if k :| 0 <= k <= |s[1..]| && SqlLike(s[1..][k..], rest) {
        assert s[1..][k..] == s[k + 1..];
      }
    }
  }

  lemma {:induction false} OpenMatchesAll(s: string)
    ensures SqlLike(s, "%")
  {
    assert "%" == "%" + "";
    OpenStart(s, "");
    assert s[|s|..] == "";
  }

  lemma {:induction false} PlainMeans(s: string, q: string)
    requires Plain(q)
    ensures SqlLike(s, q) <==> s == q
    ensures SqlLike(s, q + "%") <==> q <= s
  {
    assert q + "" == q;
    PlainStart(s, q, "");
    PlainStart(s, q, "%");
    if q <= s {
      OpenMatchesAll(s[|q|..]);
      assert s == q + s[|q|..];
    }
  }

  lemma {:induction false} SuffixMeans(s: string, q: string)
    requires Plain(q)
    ensures SqlLike(s, "%" + q) <==> |q| <= |s| && s[|s| - |q|..] == q
  {
    OpenStart(s, q);
    forall k | 0 <= k <= |s| ensures SqlLike(s[k..], q) <==> s[k..] == q {
      PlainMeans(s[k..], q);
    }
    if k :| 0 <= k <= |s| && s[k..] == q {
      assert k == |s| - |q|;
    }
  }

  lemma {:induction false} InfixMeans(s: string, q: string)
    requires Plain(q)
    ensures SqlLike(s, "%" + (q + "%")) <==> Contains(s, q)
  {
    OpenStart(s, q + "%");
    forall k | 0 <= k <= |s|
      ensures SqlLike(s[k..], q + "%") <==> At(s, q, k)
    {
      PlainMeans(s[k..], q);
      if k <= |s| - |q| {
        assert s[k..][..|q|] == s[k..k + |q|];
      }
    }
  }

  /** `_` is any one character. */
  lemma {:induction false} UnderscoreMeans(s: string, rest: string)
    ensures SqlLike(s, "_" + rest) <==> s != "" && SqlLike(s[1..], rest)
  {
    assert ("_" + rest)[1..] == rest;
  }

  // -------------------------------------------------------- when the code is right

  /** One of the forms `%s%`, `s%` and `s` with a plain `s`. */
  predicate Simple(p: string) {
    p != "" && Plain(Inner(p)) && (StartsOpen(p) ==> EndsOpen(p))
  }

  lemma {:induction false} SimpleIsRight(column: string, pattern: string)
    requires Simple(Trim(pattern))
    ensures LikeAsWritten(column, pattern) == Matches(SqlLike(Trim(column), Trim(pattern)))
  {
    var col, p := Trim(column), Trim(pattern);
    var q := Inner(p);
    if StartsOpen(p) {
      if |p| == 1 {
        assert p == "%";
        OpenMatchesAll(col);
        assert At(col, q, 0);
      } else {
        assert p == "%" + (q + "%");
        InfixMeans(col, q);
      }
    } else if EndsOpen(p) {
      assert p == q + "%";
      PlainMeans(col, q);
    } else {
      PlainMeans(col, q);
    }
  }

  /** The text with every wildcard replaced: a column that the pattern matches
      without containing it. */
  function Filled(p: string): (s: string)
    ensures |s| == |p| && Plain(s)
    ensures forall k :: 0 <= k < |p| ==> s[k] == if p[k] == '%' || p[k] == '_' then 'x' else p[k]
  {
    seq(|p|, k requires 0 <= k < |p| => if p[k] == '%' || p[k] == '_' then 'x' else p[k])
  }

  lemma {:induction false} FilledMatches(p: string, more: string, rest: string)
    requires SqlLike(more, rest)
    ensures SqlLike(Filled(p) + more, p + rest)
  {
    if p == "" {
      assert Filled(p) + more == more && p + rest == rest;
    } else {
      FilledMatches(p[1..], more, rest);
      var s := Filled(p) + more;
      assert Filled(p)[1..] == Filled(p[1..]);
      assert s[1..] == Filled(p[1..]) + more;
      assert (p + rest)[1..] == p[1..] + rest;
      if p[0] == '%' {
        OpenStart(s, (p + rest)[1..]);
        assert p + rest == "%" + (p + rest)[1..];
        assert SqlLike(s[1..], (p + rest)[1..]);
      }
    }
  }

  /** A column on which the code and the pattern's meaning part. */
  lemma {:induction false} OtherwiseWrong(pattern: string) returns (column: string)
    requires !Simple(Trim(pattern))
    ensures LikeAsWritten(column, pattern) != Matches(SqlLike(Trim(column), Trim(pattern)))
  {
    var p := Trim(pattern);
    var q := Inner(p);
    TrimmedEnds(pattern);
    column := "";
    if p != "" && !Plain(q) && (StartsOpen(p) ==> EndsOpen(p)) {
      if StartsOpen(p) {
        column := "x" + Filled(q) + "x";
        TrimFixes(column);
        InfixFilled(q);
        assert p == "%" + (q + "%");
        NotContained(column, q);
      } else if EndsOpen(p) {
        column := Filled(q) + "x";
        assert p == q + "%" && q[0] == p[0];
        TrimFixes(column);
        OpenMatchesAll("x");
        FilledMatches(q, "x", "%");
        NotContained(column, q);
      } else {
        column := Filled(p);
        TrimFixes(column);
        FilledMatches(p, "", "");
        assert column + "" == column && p + "" == p;
      }
    }
  }

  lemma {:induction false} InfixFilled(q: string)
    ensures SqlLike("x" + Filled(q) + "x", "%" + (q + "%"))
  {
    var s := "x" + Filled(q) + "x";
    OpenMatchesAll("x");
    FilledMatches(q, "x", "%");
    assert s[1..] == Filled(q) + "x";
    OpenStart(s, q + "%");
  }

  /** Text without wildcards does not contain text with one. */
  lemma {:induction false} NotContained(s: string, q: string)
    requires Plain(s) && !Plain(q)
    ensures !Contains(s, q)
    ensures !(q <= s)
  {
    var k :| 0 <= k < |q| && (q[k] == '%' || q[k] == '_');
    forall j | 0 <= j <= |s| ensures !At(s, q, j) {
      if j <= |s| - |q| {
        assert s[j + k] in s;
        assert s[j..j + |q|][k] == s[j + k];
      }
    }
    if |q| <= |s| {
      assert s[k] in s;
      assert s[..|q|][k] == s[k];
    }
  }

  // ------------------------------------------------- operands without outer blanks

  predicate Trimmed(s: string) {
    Trim(s) == s
  }

  lemma {:induction false} TrimmedIff(s: string)
    ensures Trimmed(s) <==> s == "" || (!Blank(s[0]) && !Blank(s[|s| - 1]))
  {
    TrimmedEnds(s);
    if s != "" && !Blank(s[0]) && !Blank(s[|s| - 1]) {
      TrimFixes(s);
    }
  }

  /** A pattern that ends with a plain character matches only what ends with it. */
  lemma {:induction false} EndsAlike(s: string, p: string)
    requires p != "" && Plain([p[|p| - 1]]) && SqlLike(s, p)
    ensures s != "" && s[|s| - 1] == p[|p| - 1]
    decreases |p|, |s|
  {
    assert [p[|p| - 1]][0] == p[|p| - 1];
    if p[0] == '%' {
      assert |p| > 1 by {
        assert p[|p| - 1] in [p[|p| - 1]];
      }
      if SqlLike(s, p[1..]) {
        EndsAlike(s, p[1..]);
      } else {
        EndsAlike(s[1..], p);
      }
    } else if |p| > 1 {
      EndsAlike(s[1..], p[1..]);
    } else {
      assert p[1..] == "" && s[1..] == "";
      assert p[0] in [p[0]];
    }
  }

  /** SQL keeps the blanks of a pattern: with outer ones it matches no column that
      has none. */
  lemma {:induction false} BlankPatternMatchesNothing(column: string, pattern: string)
    requires Trimmed(column) && !Trimmed(pattern)
    ensures !SqlLike(column, pattern)
  {
    TrimmedIff(column);
    TrimmedIff(pattern);
    var last := pattern[|pattern| - 1];
    if SqlLike(column, pattern) && Blank(last) {
      assert Plain([last]);
      EndsAlike(column, pattern);
    }
  }

  /** But the code strips them, and then finds a match, or throws. */
  lemma {:induction false} StrippedMatches(pattern: string) returns (column: string)
    ensures Trimmed(column) && LikeAsWritten(column, pattern) != Matches(false)
  {
    var p := Trim(pattern);
    var q := Inner(p);
    TrimmedEnds(pattern);
    column := (if StartsOpen(p) then "x" else "") + q + (if EndsOpen(p) then "x" else "");
    if p == "" {
      column := "";
    } else {
      assert column != "" && !Blank(column[0]) && !Blank(column[|column| - 1]);
      TrimmedIff(column);
      if StartsOpen(p) && EndsOpen(p) {
        assert column[1..1 + |q|] == q;
        assert At(column, q, 1);
      } else if StartsOpen(p) {
        assert column[|column| - |q|..] == q;
      } else if EndsOpen(p) {
        assert column[..|q|] == q;
      }
    }
  }

  /** What `trim` leaves, and what it takes. */
  lemma {:induction false} TrimIsMiddle(s: string) returns (a: nat, b: nat)
    ensures a <= b <= |s| && Trim(s) == s[a..b]
    ensures forall k :: 0 <= k < a || b <= k < |s| ==> Blank(s[k])
  {
    b := RightEnd(s);
    var c := LeftEnd(s[..b]);
    a := c;
    assert s[..b][a..] == s[a..b];
  }

  lemma {:induction false} RightEnd(s: string) returns (b: nat)
    ensures b <= |s| && TrimRight(s) == s[..b]
    ensures forall k :: b <= k < |s| ==> Blank(s[k])
  {
    b := |s|;
    if s != "" && Blank(s[|s| - 1]) {
      b := RightEnd(s[..|s| - 1]);
      assert s[..|s| - 1][..b] == s[..b];
      forall k | b <= k < |s| ensures Blank(s[k]) {
        assert k < |s| - 1 ==> s[..|s| - 1][k] == s[k];
      }
    } else {
      assert s[..b] == s;
    }
  }

  lemma {:induction false} LeftEnd(s: string) returns (a: nat)
    ensures a <= |s| && TrimLeft(s) == s[a..]
    ensures forall k :: 0 <= k < a ==> Blank(s[k])
  {
    a := 0;
    if s != "" && Blank(s[0]) {
      var b := LeftEnd(s[1..]);
      a := b + 1;
      assert s[1..][b..] == s[a..];
      forall k | 0 <= k < a ensures Blank(s[k]) {
        assert k > 0 ==> s[1..][k - 1] == s[k];
      }
    } else {
      assert s[0..] == s;
    }
  }

  lemma {:induction false} SliceOfSlice(s: string, a: nat, b: nat, k: nat, n: nat)
    requires a <= b <= |s| && k + n <= b - a
    ensures s[a..b][k..k + n] == s[a + k..a + k + n]
  {
    var t, u := s[a..b][k..k + n], s[a + k..a + k + n];
    assert |t| == |u|;
    forall i | 0 <= i < n ensures t[i] == u[i] {
    }
  }

  /** Stripping a column does not change whether it contains a text without outer
      blanks. */
  lemma {:induction false} StrippedContains(column: string, q: string)
    requires Trimmed(q)
    ensures Contains(Trim(column), q) == Contains(column, q)
  {
    var a, b := TrimIsMiddle(column);
    var t := Trim(column);
    TrimmedIff(q);
    if q == "" {
      assert At(t, q, 0) && At(column, q, 0);
    } else {
      if k :| 0 <= k <= |column| && At(column, q, k) {
        assert column[k..k + |q|][0] == column[k];
        assert column[k..k + |q|][|q| - 1] == column[k + |q| - 1];
        assert a <= k && k + |q| <= b;
        SliceOfSlice(column, a, b, k - a, |q|);
        assert At(t, q, k - a);
      }
      if k :| 0 <= k <= |t| && At(t, q, k) {
        SliceOfSlice(column, a, b, k, |q|);
        assert At(column, q, a + k);
      }
    }
  }

  // ------------------------------------------------------------- the exact condition

  ghost predicate RightOn(column: string, pattern: string) {
    LikeAsWritten(column, pattern) == Matches(SqlLike(column, pattern))
  }

  /** The pattern is `%s%` with a plain `s` that has no outer blanks either. */
  predicate Infix(p: string) {
    Trimmed(p) && Simple(p) && StartsOpen(p) && Trimmed(Inner(p))
  }

  /** On the columns without outer blanks the operator has the meaning of SQL exactly
      for the patterns `%s%`, `s%` and `s` without outer blanks and with no further
      wildcard; on all columns exactly for `%s%` where `s` has none either. */
  lemma {:induction false} LikeIsRightIff(pattern: string)
    ensures (forall column: string :: Trimmed(column) ==> RightOn(column, pattern))
       <==> Trimmed(pattern) && Simple(pattern)
    ensures (forall column: string :: RightOn(column, pattern)) <==> Infix(pattern)
  {
    if Trimmed(pattern) && Simple(pattern) {
      forall column: string | Trimmed(column) ensures RightOn(column, pattern) {
        SimpleIsRight(column, pattern);
      }
      if Infix(pattern) {
        forall column: string ensures RightOn(column, pattern) {
          InfixIsRight(column, pattern);
        }
      } else {
        var column := BlanksMatter(pattern);
        assert !RightOn(column, pattern);
      }
    } else {
      var column := NotSimpleIsWrong(pattern);
      assert Trimmed(column) && !RightOn(column, pattern);
    }
  }

  lemma {:induction false} InfixIsRight(column: string, pattern: string)
    requires Infix(pattern)
    ensures RightOn(column, pattern)
  {
    var q := Inner(pattern);
    StrippedContains(column, q);
    if |pattern| == 1 {
      assert pattern == "%";
      OpenMatchesAll(column);
      assert At(column, q, 0);
    } else {
      assert pattern == "%" + (q + "%");
      InfixMeans(column, q);
    }
  }

  lemma {:induction false} NotSimpleIsWrong(pattern: string) returns (column: string)
    requires !(Trimmed(pattern) && Simple(pattern))
    ensures Trimmed(column) && !RightOn(column, pattern)
  {
    if Trimmed(pattern) {
      var c := OtherwiseWrong(pattern);
      column := Trim(c);
      TrimIdempotent(c);
    } else {
      column := StrippedMatches(pattern);
      BlankPatternMatchesNothing(column, pattern);
    }
  }

  /** A column with outer blanks that is read otherwise. */
  lemma {:induction false} BlanksMatter(pattern: string) returns (column: string)
    requires Trimmed(pattern) && Simple(pattern) && !Infix(pattern)
    ensures !RightOn(column, pattern)
  {
    var q := Inner(pattern);
    TrimmedIff(pattern);
    if StartsOpen(pattern) {
      column := q;
      ShorterTrim(q);
      assert At(q, q, 0);
      assert pattern == "%" + (q + "%");
      InfixMeans(column, q);
    } else {
      var tail := if EndsOpen(pattern) then "x" else "";
      column := " " + (q + tail);
      assert q != "" && !Blank((q + tail)[0]) && !Blank((q + tail)[|q + tail| - 1]);
      LeadingBlank(q + tail);
      assert !(q <= column) by {
        assert column[0] == ' ';
      }
      PlainMeans(column, q);
      assert EndsOpen(pattern) ==> pattern == q + "%" && (q + tail)[..|q|] == q;
      assert q + "" == q;
    }
  }

  lemma {:induction false} ShorterTrim(q: string)
    requires !Trimmed(q)
    ensures !Contains(Trim(q), q)
  {
    var a, b := TrimIsMiddle(q);
    assert q[0..|q|] == q;
  }

  lemma {:induction false} LeadingBlank(s: string)
    requires s != "" && !Blank(s[0]) && !Blank(s[|s| - 1])
    ensures Trim(" " + s) == s
  {
    var t := " " + s;
    assert t[|t| - 1] == s[|s| - 1];
    assert TrimRight(t) == t;
    assert t[1..] == s;
    assert TrimLeft(t) == TrimLeft(s);
  }

  predicate EndsWith(s: string, part: string) {
    |part| <= |s| && s[|s| - |part|..] == part
  }

  /** On a pattern `%s` with a plain `s` it is right exactly on the columns that,
      stripped, are not shorter than `s`, and do not end with it if blanks follow. */
  lemma {:induction false} SuffixIsRightIff(column: string, pattern: string)
    requires Trimmed(pattern) && StartsOpen(pattern) && !EndsOpen(pattern) && Plain(Inner(pattern))
    ensures RightOn(column, pattern)
       <==> |Trim(column)| >= |Inner(pattern)|
            && (column != "" && Blank(column[|column| - 1]) ==> !EndsWith(Trim(column), Inner(pattern)))
  {
    var q, t := Inner(pattern), Trim(column);
    assert pattern == "%" + q;
    SuffixMeans(column, q);
    TrimmedIff(pattern);
    var a, b := TrimIsMiddle(column);
    if column != "" && Blank(column[|column| - 1]) {
      assert EndsWith(column, q) ==> column[|column| - |q|..][|q| - 1] == column[|column| - 1];
    } else {
      TrimmedEnds(column);
      if |t| >= |q| {
        KeepsEnd(column, t, q, a);
      }
    }
  }

  lemma {:induction false} KeepsEnd(column: string, t: string, q: string, a: nat)
    requires a <= |column| && |q| <= |t| && t == column[a..]
    ensures EndsWith(column, q) <==> EndsWith(t, q)
  {
    assert t[|t| - |q|..] == column[|column| - |q|..];
  }

  /** When it throws instead of answering. */
  lemma {:induction false} LikeThrowsIff(column: string, pattern: string)
    ensures var col, p := Trim(column), Trim(pattern);
      LikeAsWritten(column, pattern) == OutOfRange
      <==> p == "" || (StartsOpen(p) && !EndsOpen(p) && |col| < |p| - 1)
  {
  }
}
