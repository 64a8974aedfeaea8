/** Comparison of two column values: the binary and the character mode, and the
    six operators. */
module TmaxCompare {
  import opened Bytes
  import opened Permutations
  import opened TmaxColumns

  datatype Op = OpNone | OpOr | OpAnd | OpNot | OpEqual | OpNe | OpGt | OpLt | OpGe | OpLe | OpMax

  const BLANK: Byte := 0x20

  // ------------------------------------------------------------- as written

  /** `memcmp` of the first `n` bytes, as the difference of the first two bytes
      that differ. */
  function Memcmp(a: seq<Byte>, b: seq<Byte>, n: nat): int
    requires n <= |a| && n <= |b|
    decreases n
  {
    if n == 0 then 0
    else if a[0] != b[0] then a[0] as int - b[0] as int
    else Memcmp(a[1..], b[1..], n - 1)
  }

  predicate AllBlank(s: seq<Byte>) {
    forall i :: 0 <= i < |s| ==> s[i] == BLANK
  }

  /** The value `cmp` of the function, from the data of both sides. */
  function Compare(a: seq<Byte>, b: seq<Byte>, isChar: bool): int {
    var n := Min(|a|, |b|);
    var p := Memcmp(a, b, n);
    if p != 0 then p
    else if !isChar then |a| - |b|
    else if |a| < |b| then (if AllBlank(b[n..]) then 0 else -1)
    else if AllBlank(a[n..]) then 0 else 1
  }

  predicate ByOp(op: Op, cmp: int) {
    match op
    case OpEqual => cmp == 0
    case OpNe => cmp != 0
    case OpGt => cmp > 0
    case OpLt => cmp < 0
    case OpGe => !(cmp < 0)
    case OpLe => !(cmp > 0)
    case _ => false
  }

  /** A condition on two column values; an empty value is NULL and satisfies
      nothing. */
  predicate Condition(l: seq<Byte>, r: seq<Byte>, op: Op, isChar: bool)
    requires ColumnHere(l) && ColumnHere(r)
  {
    GetSize(l) > 0 && GetSize(r) > 0 && ByOp(op, Compare(Data(l), Data(r), isChar))
  }

  /** The blank loop: from `i` on, stops at the first byte that is not blank. */
  method BlankFrom(s: seq<Byte>, start: nat) returns (blank: bool)
    requires start <= |s|
    ensures blank == AllBlank(s[start..])
  {
    blank := true;
    for i := start to |s|
      invariant blank
      invariant forall k :: start <= k < i ==> s[k] == BLANK
    {
      if s[i] != BLANK {
        assert s[start..][i - start] == s[i];
        return false;
      }
    }
  }

  /** `exp_eval_condition`. */
  method EvalCondition(l: seq<Byte>, r: seq<Byte>, op: Op, isChar: bool) returns (ok: bool)
    requires ColumnHere(l) && ColumnHere(r)
    ensures ok == Condition(l, r, op, isChar)
  {
    var lSize: int, rSize: int := GetSize(l), GetSize(r);
    var minsize := if lSize <= rSize then lSize else rSize;
    if minsize == 0 {
      return false;
    }
    var a, b := Data(l), Data(r);
    var prefixCmp := Memcmp(a, b, minsize);
    var cmp := prefixCmp;
    if !isChar {
      cmp := if prefixCmp != 0 then prefixCmp else lSize - rSize;
    } else if prefixCmp == 0 {
      cmp := 0;
      if lSize < rSize {
        var blank := BlankFrom(b, lSize);
        if !blank {
          cmp := -1;
        }
      } else if lSize > rSize {
        var blank := BlankFrom(a, rSize);
        if !blank {
          cmp := 1;
        }
      }
    }
    ok := ByOp(op, cmp);
  }

  // ------------------------------------------------------------------- binary

  /** Lexicographic order of byte strings. */
  predicate LexLess(a: seq<Byte>, b: seq<Byte>) {
    b != [] && (a == [] || a[0] < b[0] || (a[0] == b[0] && LexLess(a[1..], b[1..])))
  }

  lemma {:induction false} BinaryIsLexicographic(a: seq<Byte>, b: seq<Byte>)
    ensures Compare(a, b, false) < 0 <==> LexLess(a, b)
    ensures Compare(a, b, false) > 0 <==> LexLess(b, a)
    ensures Compare(a, b, false) == 0 <==> a == b
  {
    if a != [] && b != [] && a[0] == b[0] {
      BinaryIsLexicographic(a[1..], b[1..]);
      assert a == [a[0]] + a[1..] && b == [b[0]] + b[1..];
    }
  }

  /** What the operators ask of a comparison: `less` and `greater` say which side comes
      first, and neither that they are equal. */
  predicate Asked(op: Op, less: bool, greater: bool) {
    match op
    case OpLt => less
    case OpGt => greater
    case OpLe => !greater
    case OpGe => !less
    case OpEqual => !less && !greater
    case OpNe => less || greater
    case _ => false
  }

  /** A binary condition holds exactly if neither side is NULL and the bytes of the left
      one are lexicographically less (greater, ...) than those of the right one. */
  lemma {:induction false} BinaryCondition(l: seq<Byte>, r: seq<Byte>, op: Op)
    requires ColumnHere(l) && ColumnHere(r)
    ensures Condition(l, r, op, false)
       <==> Data(l) != [] && Data(r) != [] && Asked(op, LexLess(Data(l), Data(r)), LexLess(Data(r), Data(l)))
  {
    BinaryIsLexicographic(Data(l), Data(r));
  }

  lemma {:induction false} LexTransitive(a: seq<Byte>, b: seq<Byte>, c: seq<Byte>)
    requires LexLess(a, b) && LexLess(b, c)
    ensures LexLess(a, c)
  {
    if a != [] && a[0] == b[0] == c[0] {
      LexTransitive(a[1..], b[1..], c[1..]);
    }
  }

  /** The binary mode is a total order: antisymmetric, transitive, and equal
      only for equal values. */
  lemma {:induction false} BinaryTotalOrder(a: seq<Byte>, b: seq<Byte>, c: seq<Byte>)
    ensures Compare(a, b, false) < 0 <==> Compare(b, a, false) > 0
    ensures Compare(a, b, false) == 0 <==> a == b
    ensures Compare(a, b, false) <= 0 && Compare(b, c, false) <= 0 ==> Compare(a, c, false) <= 0
  {
    BinaryIsLexicographic(a, b);
    BinaryIsLexicographic(b, a);
    BinaryIsLexicographic(b, c);
    BinaryIsLexicographic(a, c);
    if LexLess(a, b) && LexLess(b, c) {
      LexTransitive(a, b, c);
    }
  }

  // ---------------------------------------------------------------- characters

  function At(s: seq<Byte>, i: nat): Byte {
    if i < |s| then s[i] else BLANK
  }

  /** PAD SPACE comparison (ISO/IEC 9075:1992, section 8.2): the shorter value is
      filled up with blanks, then the first difference decides. */
  function PadCompare(a: seq<Byte>, b: seq<Byte>): int
    decreases |a| + |b|
  {
    if a == [] && b == [] then 0
    else if At(a, 0) != At(b, 0) then At(a, 0) as int - At(b, 0) as int
    else PadCompare(if a == [] then a else a[1..], if b == [] then b else b[1..])
  }

  function Strip(s: seq<Byte>): seq<Byte> {
    if s != [] && s[|s| - 1] == BLANK then Strip(s[..|s| - 1]) else s
  }

  /** The first byte of `s` that is not a blank; a blank if there is none. */
  function FirstVisible(s: seq<Byte>): Byte {
    if s == [] then BLANK else if s[0] != BLANK then s[0] else FirstVisible(s[1..])
  }

  lemma {:induction false} FirstVisibleBlank(s: seq<Byte>)
    ensures FirstVisible(s) == BLANK <==> AllBlank(s)
  {
    if s != [] {
      FirstVisibleBlank(s[1..]);
      assert s == [s[0]] + s[1..];
    }
  }

  lemma {:induction false} PadAgainstNothing(s: seq<Byte>)
    ensures PadCompare(s, []) == FirstVisible(s) as int - BLANK as int
    ensures PadCompare([], s) == BLANK as int - FirstVisible(s) as int
  {
    if s != [] && s[0] == BLANK {
      PadAgainstNothing(s[1..]);
    }
  }

  function Sign(i: int): int {
    if i < 0 then -1 else if i > 0 then 1 else 0
  }

  /** What the longer value has beyond the shorter one. */
  function Tail(a: seq<Byte>, b: seq<Byte>): seq<Byte> {
    if |a| < |b| then b[|a|..] else a[|b|..]
  }

  lemma {:induction false} PadCompareSplits(a: seq<Byte>, b: seq<Byte>)
    ensures var p, t := Memcmp(a, b, Min(|a|, |b|)), FirstVisible(Tail(a, b)) as int - BLANK as int;
      PadCompare(a, b) == if p != 0 then p else if |a| < |b| then -t else t
  {
    if a == [] || b == [] {
      PadAgainstNothing(a);
      PadAgainstNothing(b);
      assert Tail(a, b) == if a == [] then b else a;
    } else if a[0] == b[0] {
      PadCompareSplits(a[1..], b[1..]);
      assert Tail(a[1..], b[1..]) == Tail(a, b);
    }
  }

  /** The character mode is the PAD SPACE comparison exactly when it is not
      decided by a control character (below a blank) after the common length. */
  lemma {:induction false} CharIsPadSpaceIff(a: seq<Byte>, b: seq<Byte>)
    ensures Sign(Compare(a, b, true)) == Sign(PadCompare(a, b))
       <==> Memcmp(a, b, Min(|a|, |b|)) != 0 || FirstVisible(Tail(a, b)) >= BLANK
  {
    PadCompareSplits(a, b);
    FirstVisibleBlank(Tail(a, b));
  }

  ghost predicate Printable(s: seq<Byte>) {
    forall i :: 0 <= i < |s| ==> s[i] >= BLANK
  }

  lemma {:induction false} VisiblePrintable(s: seq<Byte>)
    requires Printable(s)
    ensures FirstVisible(s) >= BLANK
  {
    if s != [] {
      VisiblePrintable(s[1..]);
    }
  }

  lemma {:induction false} CharIsPadSpace(a: seq<Byte>, b: seq<Byte>)
    requires Printable(a) && Printable(b)
    ensures Sign(Compare(a, b, true)) == Sign(PadCompare(a, b))
  {
    CharIsPadSpaceIff(a, b);
    VisiblePrintable(Tail(a, b));
  }

  /** On printable bytes a character condition asks for the PAD SPACE comparison. */
  lemma {:induction false} CharCondition(l: seq<Byte>, r: seq<Byte>, op: Op)
    requires ColumnHere(l) && ColumnHere(r) && Printable(Data(l)) && Printable(Data(r))
    ensures Condition(l, r, op, true)
       <==> Data(l) != [] && Data(r) != []
            && Asked(op, PadCompare(Data(l), Data(r)) < 0, PadCompare(Data(l), Data(r)) > 0)
  {
    CharIsPadSpace(Data(l), Data(r));
  }

  /** The first position at which the filled up values differ decides. */
  lemma {:induction false} PadCompareMeans(a: seq<Byte>, b: seq<Byte>, k: nat)
    requires forall i: nat :: i < k ==> At(a, i) == At(b, i)
    requires At(a, k) != At(b, k)
    ensures PadCompare(a, b) < 0 <==> At(a, k) < At(b, k)
    ensures PadCompare(a, b) > 0 <==> At(a, k) > At(b, k)
    decreases k
  {
    if k > 0 {
      assert At(a, 0) == At(b, 0);
      forall i: nat ensures At(Rest(a), i) == At(a, i + 1) && At(Rest(b), i) == At(b, i + 1) {
      }
      PadCompareMeans(Rest(a), Rest(b), k - 1);
    }
  }

  lemma {:induction false} PadAntisymmetric(a: seq<Byte>, b: seq<Byte>)
    ensures PadCompare(a, b) == -PadCompare(b, a)
    decreases |a| + |b|
  {
    if (a != [] || b != []) && At(a, 0) == At(b, 0) {
      PadAntisymmetric(if a == [] then a else a[1..], if b == [] then b else b[1..]);
    }
  }

  lemma {:induction false} PadTransitive(a: seq<Byte>, b: seq<Byte>, c: seq<Byte>)
    requires PadCompare(a, b) <= 0 && PadCompare(b, c) <= 0
    ensures PadCompare(a, c) <= 0
    decreases |a| + |b| + |c|
  {
    if a != [] || c != [] {
      if At(a, 0) == At(c, 0) {
        PadHead(a, b);
        PadHead(b, c);
        PadTransitive(Rest(a), Rest(b), Rest(c));
      } else {
        PadHead(a, b);
        PadHead(b, c);
      }
    }
  }

  function Rest(s: seq<Byte>): seq<Byte> {
    if s == [] then s else s[1..]
  }

  lemma {:induction false} PadHead(a: seq<Byte>, b: seq<Byte>)
    ensures PadCompare(a, b) <= 0 ==> At(a, 0) <= At(b, 0)
    ensures At(a, 0) == At(b, 0) ==> PadCompare(a, b) == PadCompare(Rest(a), Rest(b))
  {
  }

  /** On printable bytes the character mode is a total preorder. */
  lemma {:induction false} CharTotalPreorder(a: seq<Byte>, b: seq<Byte>, c: seq<Byte>)
    requires Printable(a) && Printable(b) && Printable(c)
    ensures Compare(a, b, true) < 0 <==> Compare(b, a, true) > 0
    ensures Compare(a, b, true) <= 0 && Compare(b, c, true) <= 0 ==> Compare(a, c, true) <= 0
  {
    CharIsPadSpace(a, b);
    CharIsPadSpace(b, a);
    CharIsPadSpace(b, c);
    CharIsPadSpace(a, c);
    PadAntisymmetric(a, b);
    if PadCompare(a, b) <= 0 && PadCompare(b, c) <= 0 {
      PadTransitive(a, b, c);
    }
  }

  lemma {:induction false} MemcmpZero(a: seq<Byte>, b: seq<Byte>, n: nat)
    requires n <= |a| && n <= |b|
    ensures Memcmp(a, b, n) == 0 <==> a[..n] == b[..n]
  {
    if n > 0 && a[0] == b[0] {
      MemcmpZero(a[1..], b[1..], n - 1);
      assert a[..n] == [a[0]] + a[1..][..n - 1] && b[..n] == [b[0]] + b[1..][..n - 1];
    } else if n > 0 {
      assert a[..n][0] == a[0] && b[..n][0] == b[0];
    }
  }

  lemma {:induction false} StripBlankTail(s: seq<Byte>, n: nat)
    requires n <= |s| && AllBlank(s[n..])
    ensures Strip(s) == Strip(s[..n])
  {
    if n < |s| {
      var m := |s| - 1;
      assert s[m] == s[n..][m - n];
      assert s[..m][n..] == s[n..][..m - n];
      StripBlankTail(s[..m], n);
      assert s[..m][..n] == s[..n];
    } else {
      assert s[..n] == s;
    }
  }

  lemma {:induction false} StripKeeps(s: seq<Byte>)
    ensures Strip(s) <= s && AllBlank(s[|Strip(s)|..])
    ensures Strip(s) != [] ==> Strip(s)[|Strip(s)| - 1] != BLANK
  {
    if s != [] && s[|s| - 1] == BLANK {
      var m := |s| - 1;
      StripKeeps(s[..m]);
      var k := |Strip(s)|;
      assert s[k..] == s[..m][k..] + [s[m]];
    }
  }

  /** The character mode calls two values equal exactly when they are equal
      without their trailing blanks, whatever the bytes. */
  lemma {:induction false} CharEqualIffStripped(a: seq<Byte>, b: seq<Byte>)
    ensures Compare(a, b, true) == 0 <==> Strip(a) == Strip(b)
  {
    var n := Min(|a|, |b|);
    MemcmpZero(a, b, n);
    if Compare(a, b, true) == 0 {
      EqualMeansStripped(a, b);
    }
    if Strip(a) == Strip(b) {
      StrippedMeansEqual(a, b);
    }
  }

  lemma {:induction false} EqualMeansStripped(a: seq<Byte>, b: seq<Byte>)
    requires Compare(a, b, true) == 0
    ensures Strip(a) == Strip(b)
  {
    var n := Min(|a|, |b|);
    MemcmpZero(a, b, n);
    if |a| < |b| {
      StripBlankTail(b, n);
      assert a[..n] == a;
    } else {
      StripBlankTail(a, n);
      assert b[..n] == b;
    }
  }

  lemma {:induction false} SameWithin(a: seq<Byte>, b: seq<Byte>, i: nat)
    requires Strip(a) == Strip(b) && i < |a| && i < |b|
    ensures a[i] == b[i]
  {
    var k := |Strip(a)|;
    StripKeeps(a);
    StripKeeps(b);
    if i < k {
      assert a[i] == Strip(a)[i] && b[i] == Strip(b)[i];
    } else {
      assert a[i] == a[k..][i - k] && b[i] == b[k..][i - k];
    }
  }

  lemma {:induction false} BlankBehind(a: seq<Byte>, n: nat)
    requires |Strip(a)| <= n <= |a|
    ensures AllBlank(a[n..])
  {
    var k := |Strip(a)|;
    StripKeeps(a);
    forall i | 0 <= i < |a[n..]| ensures a[n..][i] == BLANK {
      assert a[n..][i] == a[k..][n + i - k];
    }
  }

  lemma {:induction false} StrippedMeansEqual(a: seq<Byte>, b: seq<Byte>)
    requires Strip(a) == Strip(b)
    ensures Compare(a, b, true) == 0
  {
    var n := Min(|a|, |b|);
    StripKeeps(a);
    StripKeeps(b);
    MemcmpZero(a, b, n);
    forall i | 0 <= i < n ensures a[..n][i] == b[..n][i] {
      SameWithin(a, b, i);
    }
    assert a[..n] == b[..n];
    BlankBehind(a, n);
    BlankBehind(b, n);
  }

  /** With a control character the character mode is not even a preorder:
      "a" < "a\t" < "a " = "a". */
  lemma {:induction false} ControlCharacterBreaksOrder()
    ensures var a: seq<Byte>, t: seq<Byte>, s: seq<Byte> := [0x61], [0x61, 0x09], [0x61, 0x20];
      Compare(a, t, true) < 0 && Compare(t, s, true) < 0 && Compare(s, a, true) == 0
  {
    var a: seq<Byte>, t: seq<Byte>, s: seq<Byte> := [0x61], [0x61, 0x09], [0x61, 0x20];
    assert t[1..] == [0x09] && s[1..] == [0x20] && a[1..] == [];
    assert t[1..][0] == 0x09 && s[1..][0] == 0x20;
    assert Memcmp(a, t, 1) == 0 && Memcmp(s, a, 1) == 0;
    assert Memcmp(t, s, 2) == Memcmp(t[1..], s[1..], 1);
  }

  /** The six operators agree with each other on values that are not NULL. */
  lemma {:induction false} OperatorsConsistent(l: seq<Byte>, r: seq<Byte>, isChar: bool)
    requires ColumnHere(l) && ColumnHere(r) && GetSize(l) > 0 && GetSize(r) > 0
    ensures Condition(l, r, OpLt, isChar) ==> !Condition(l, r, OpEqual, isChar) && !Condition(l, r, OpGt, isChar)
    ensures Condition(l, r, OpGt, isChar) ==> !Condition(l, r, OpEqual, isChar)
    ensures Condition(l, r, OpLt, isChar) || Condition(l, r, OpEqual, isChar) || Condition(l, r, OpGt, isChar)
    ensures Condition(l, r, OpGe, isChar) == !Condition(l, r, OpLt, isChar)
    ensures Condition(l, r, OpLe, isChar) == !Condition(l, r, OpGt, isChar)
    ensures Condition(l, r, OpNe, isChar) == !Condition(l, r, OpEqual, isChar)
  {
  }
}
