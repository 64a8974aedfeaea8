/** Hash keys of the join operators: every key column contributes `"|"`
    followed by its printed value. */
module Keys {

  // ------------------------------------------------------- printing integers

  function Digit(d: nat): char
    requires d < 10
  {
    ('0' as int + d) as char
  }

  function NatToString(n: nat): string {
    if n < 10 then [Digit(n)] else NatToString(n / 10) + [Digit(n % 10)]
  }

  /** `std::to_string` of an integer. */
  function ToString(i: int): string {
    if i < 0 then "-" + NatToString(-i) else NatToString(i)
  }

  lemma {:induction false} NatToStringDigits(n: nat)
    ensures NatToString(n) != []
    ensures forall k :: 0 <= k < |NatToString(n)| ==> '0' <= NatToString(n)[k] <= '9'
  {
    if n >= 10 {
      NatToStringDigits(n / 10);
    }
  }

  /** The number that decimal digits are read as. */
  function Reading(s: string): nat
    requires forall k :: 0 <= k < |s| ==> '0' <= s[k] <= '9'
  {
    if s == "" then 0 else 10 * Reading(s[..|s| - 1]) + (s[|s| - 1] as int - '0' as int)
  }

  /** What is printed is read as the number, with no zero in front. */
  lemma {:induction false} PrintedIsRead(n: nat)
    ensures (forall k :: 0 <= k < |NatToString(n)| ==> '0' <= NatToString(n)[k] <= '9') && NatToString(n) != []
    ensures Reading(NatToString(n)) == n && (NatToString(n)[0] == '0' <==> n == 0)
  {
    NatToStringDigits(n);
    var s := NatToString(n);
    if n >= 10 {
      PrintedIsRead(n / 10);
      assert s[..|s| - 1] == NatToString(n / 10);
      assert s[0] == NatToString(n / 10)[0];
    } else {
      assert s[..0] == "";
    }
  }

  lemma {:induction false} NatToStringInjective(m: nat, n: nat)
    requires NatToString(m) == NatToString(n)
    ensures m == n
  {
    NatToStringDigits(m / 10);
    NatToStringDigits(n / 10);
    var s, t := NatToString(m), NatToString(n);
    assert s[|s| - 1] == Digit(m % 10) && t[|t| - 1] == Digit(n % 10);
    assert m % 10 == n % 10;
    if m >= 10 && n >= 10 {
      assert s[..|s| - 1] == NatToString(m / 10) && t[..|t| - 1] == NatToString(n / 10);
      NatToStringInjective(m / 10, n / 10);
    }
  }

  lemma {:induction false} ToStringInjective(i: int, j: int)
    ensures ToString(i) == ToString(j) <==> i == j
    ensures '|' !in ToString(i)
  {
    var m, n := if i < 0 then -i else i, if j < 0 then -j else j;
    NatToStringDigits(m);
    NatToStringDigits(n);
    assert ToString(i)[0] == '-' <==> i < 0;
    assert ToString(j)[0] == '-' <==> j < 0;
    if ToString(i) == ToString(j) {
      if i < 0 && j < 0 {
        assert ToString(i)[1..] == NatToString(-i) && ToString(j)[1..] == NatToString(-j);
        NatToStringInjective(-i, -j);
      } else if 0 <= i && 0 <= j {
        NatToStringInjective(i, j);
      }
    }
  }

  // --------------------------------------------------------- composing a key

  function JoinKey(parts: seq<string>): string {
    if parts == [] then "" else JoinKey(parts[..|parts| - 1]) + "|" + parts[|parts| - 1]
  }

  predicate BarFree(parts: seq<string>) {
    forall k :: 0 <= k < |parts| ==> '|' !in parts[k]
  }

  function Bars(s: string): nat {
    multiset(s)['|']
  }

  function BarsIn(parts: seq<string>): nat {
    if parts == [] then 0 else BarsIn(parts[..|parts| - 1]) + Bars(parts[|parts| - 1])
  }

  lemma {:induction false} BarCount(parts: seq<string>)
    ensures Bars(JoinKey(parts)) == |parts| + BarsIn(parts)
    ensures BarsIn(parts) == 0 <==> BarFree(parts)
  {
    if parts != [] {
      var n := |parts| - 1;
      BarCount(parts[..n]);
      assert multiset(JoinKey(parts)) == multiset(JoinKey(parts[..n])) + multiset("|") + multiset(parts[n]);
      assert Bars(parts[n]) == 0 <==> '|' !in parts[n];
      assert forall k :: 0 <= k < n ==> parts[k] == parts[..n][k];
      assert BarFree(parts) <==> BarFree(parts[..n]) && '|' !in parts[n];
    }
  }

  lemma {:induction false} LaterBar(x: string, a: string, y: string, b: string)
    requires x + "|" + a == y + "|" + b
    requires |x| < |y|
    ensures '|' in a
  {
    var u := x + "|" + a;
    assert u[|y|] == '|';
    assert u[|y|] == a[|y| - |x| - 1];
  }

  lemma {:induction false} SplitAtLastBar(x: string, a: string, y: string, b: string)
    requires x + "|" + a == y + "|" + b
    requires '|' !in a && '|' !in b
    ensures x == y && a == b
  {
    if |x| < |y| {
      LaterBar(x, a, y, b);
    } else if |y| < |x| {
      LaterBar(y, b, x, a);
    } else {
      var u, v := x + "|" + a, y + "|" + b;
      assert u[..|x|] == x && v[..|y|] == y;
      assert u[|x| + 1..] == a && v[|y| + 1..] == b;
    }
  }

  lemma {:induction false} JoinKeySnoc(parts: seq<string>, x: string)
    ensures JoinKey(parts + [x]) == JoinKey(parts) + "|" + x
  {
    assert (parts + [x])[..|parts|] == parts;
  }

  lemma {:induction false} BarFreeKeysInjective(p: seq<string>, q: seq<string>)
    requires |p| == |q| && BarFree(p) && BarFree(q)
    requires JoinKey(p) == JoinKey(q)
    ensures p == q
  {
    if p != [] {
      var n := |p| - 1;
      var p', a, q', b := p[..n], p[n], q[..n], q[n];
      assert p == p' + [a] && q == q' + [b];
      JoinKeySnoc(p', a);
      JoinKeySnoc(q', b);
      SplitAtLastBar(JoinKey(p'), a, JoinKey(q'), b);
      BarFreeKeysInjective(p', q');
    }
  }

  /** Keys of the same arity are equal only for equal components, as soon as
      one of the two tuples is free of the separator. */
  lemma {:induction false} JoinKeyInjective(p: seq<string>, q: seq<string>)
    requires |p| == |q| && BarFree(p)
    requires JoinKey(p) == JoinKey(q)
    ensures p == q
  {
    BarCount(p);
    BarCount(q);
    BarFreeKeysInjective(p, q);
  }

  lemma {:induction false} SingleKeyInjective(a: string, b: string)
    ensures JoinKey([a]) == JoinKey([b]) <==> a == b
  {
    assert JoinKey([a]) == "|" + a && JoinKey([b]) == "|" + b by {
      assert [a][..0] == [] && [b][..0] == [];
    }
    assert ("|" + a)[1..] == a && ("|" + b)[1..] == b;
  }

  lemma {:induction false} JoinKeySingle(key: string, x: string)
    ensures key + "|" + x == key + JoinKey([x])
  {
    assert [x][..0] == [];
    assert JoinKey([x]) == "" + "|" + x;
    assert key + "|" + x == key + ("" + "|" + x);
  }

  lemma {:induction false} JoinKeyAppend(p: seq<string>, q: seq<string>)
    ensures JoinKey(p + q) == JoinKey(p) + JoinKey(q)
  {
    if q == [] {
      assert p + q == p;
    } else {
      var n := |q| - 1;
      assert (p + q)[..|p + q| - 1] == p + q[..n];
      JoinKeyAppend(p, q[..n]);
    }
  }

  lemma {:induction false} JoinKeyPair(a: string, b: string)
    ensures JoinKey([a, b]) == "|" + a + "|" + b
  {
    assert [a, b][..1] == [a];
    assert [a][..0] == [];
    assert JoinKey([a]) == "" + "|" + a;
    assert "" + "|" + a == "|" + a;
  }

  lemma {:induction false} BarPosition(s: string) returns (k: nat)
    requires '|' in s
    ensures k < |s| && s == s[..k] + "|" + s[k + 1..]
  {
    k :| 0 <= k < |s| && s[k] == '|';
  }

  /** A component that contains the separator can trade text with a neighbour
      without changing the key. */
  lemma {:induction false} ShiftBar(a: string, b: string) returns (c: string, d: string)
    requires '|' in a || '|' in b
    ensures JoinKey([c, d]) == JoinKey([a, b]) && [c, d] != [a, b]
  {
    if '|' in a {
      var k := BarPosition(a);
      c, d := a[..k], a[k + 1..] + "|" + b;
      assert |c| < |a|;
    } else {
      var k := BarPosition(b);
      c, d := a + "|" + b[..k], b[k + 1..];
      assert |c| > |a|;
    }
    JoinKeyPair(a, b);
    JoinKeyPair(c, d);
  }

  ghost predicate Identifies(p: seq<string>) {
    forall q: seq<string> :: |q| == |p| && JoinKey(q) == JoinKey(p) ==> q == p
  }

  /** Exactly when a key tuple is the only one of its arity with its key. */
  lemma {:induction false} KeyIdentifiesIff(p: seq<string>)
    ensures Identifies(p) <==> |p| <= 1 || BarFree(p)
  {
    if |p| == 0 {
    } else if |p| == 1 {
      forall q: seq<string> | |q| == |p| && JoinKey(q) == JoinKey(p) ensures q == p {
        assert q == [q[0]] && p == [p[0]];
        SingleKeyInjective(p[0], q[0]);
      }
    } else if BarFree(p) {
      forall q: seq<string> | |q| == |p| && JoinKey(q) == JoinKey(p) ensures q == p {
        JoinKeyInjective(p, q);
      }
    } else {
      var q := AmbiguousTuple(p);
    }
  }

  /** Two tuples of one arity have one key only if they are the same, if one of them
      cannot be confused with another. */
  lemma {:induction false} SameKeySameTuple(p: seq<string>, q: seq<string>)
    requires |p| == |q| && (|p| <= 1 || BarFree(p) || BarFree(q))
    ensures JoinKey(p) == JoinKey(q) <==> p == q
  {
    KeyIdentifiesIff(p);
    KeyIdentifiesIff(q);
  }

  lemma {:induction false} AmbiguousTuple(p: seq<string>) returns (q: seq<string>)
    requires |p| >= 2 && !BarFree(p)
    ensures |q| == |p| && JoinKey(q) == JoinKey(p) && q != p
  {
    var i :| 0 <= i < |p| && '|' in p[i];
    var j := if i == 0 then 0 else i - 1;
    var c, d := ShiftBar(p[j], p[j + 1]);
    q := p[..j] + [c, d] + p[j + 2..];
    assert p == p[..j] + [p[j], p[j + 1]] + p[j + 2..];
    JoinKeyAppend(p[..j] + [c, d], p[j + 2..]);
    JoinKeyAppend(p[..j], [c, d]);
    JoinKeyAppend(p[..j] + [p[j], p[j + 1]], p[j + 2..]);
    JoinKeyAppend(p[..j], [p[j], p[j + 1]]);
    assert q[j..j + 2] == [c, d] && p[j..j + 2] == [p[j], p[j + 1]];
  }
}
