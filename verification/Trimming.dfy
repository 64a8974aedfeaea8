/** `trim`, which takes its argument by reference: blanks go from both ends. */
module Trimming {

  /** The characters " \t\n\r\f\v" that `trim` strips. */
  predicate Blank(c: char) {
    c == ' ' || 9 <= c as int <= 13
  }

  lemma {:induction false} BlanksAre(c: char)
    ensures Blank(c) <==> c in [' ', '\t', '\n', '\r', 12 as char, 11 as char]
  {
    assert '\t' as int == 9 && '\n' as int == 10 && '\r' as int == 13;
  }

  function TrimRight(s: string): string {
    if s != [] && Blank(s[|s| - 1]) then TrimRight(s[..|s| - 1]) else s
  }

  function TrimLeft(s: string): string {
    if s != [] && Blank(s[0]) then TrimLeft(s[1..]) else s
  }

  function Trim(s: string): string {
    TrimLeft(TrimRight(s))
  }

  lemma {:induction false} TrimRightEnds(s: string)
    ensures TrimRight(s) == [] || !Blank(TrimRight(s)[|TrimRight(s)| - 1])
  {
    if s != [] && Blank(s[|s| - 1]) {
      TrimRightEnds(s[..|s| - 1]);
    }
  }

  lemma {:induction false} TrimLeftKeepsEnd(s: string)
    requires s == [] || !Blank(s[|s| - 1])
    ensures var t := TrimLeft(s); t == [] || (!Blank(t[0]) && !Blank(t[|t| - 1]))
  {
    if s != [] && Blank(s[0]) {
      TrimLeftKeepsEnd(s[1..]);
    }
  }

  ghost predicate AllBlank(s: string) {
    forall k :: 0 <= k < |s| ==> Blank(s[k])
  }

  /** Nothing but blanks is lost at either end, and no blank is left there. */
  lemma {:induction false} TrimMeans(s: string) returns (before: string, behind: string)
    ensures s == before + Trim(s) + behind && AllBlank(before) && AllBlank(behind)
    ensures Trim(s) != [] ==> !Blank(Trim(s)[0]) && !Blank(Trim(s)[|Trim(s)| - 1])
  {
    behind := RightBlanks(s);
    before := LeftBlanks(TrimRight(s));
    TrimmedEnds(s);
  }

  lemma {:induction false} RightBlanks(s: string) returns (behind: string)
    ensures s == TrimRight(s) + behind && AllBlank(behind)
  {
    if s != [] && Blank(s[|s| - 1]) {
      var rest := RightBlanks(s[..|s| - 1]);
      behind := rest + [s[|s| - 1]];
      assert s == s[..|s| - 1] + [s[|s| - 1]];
    } else {
      behind := [];
    }
  }

  lemma {:induction false} LeftBlanks(s: string) returns (before: string)
    ensures s == before + TrimLeft(s) && AllBlank(before)
  {
    if s != [] && Blank(s[0]) {
      var rest := LeftBlanks(s[1..]);
      before := [s[0]] + rest;
      assert s == [s[0]] + s[1..];
    } else {
      before := [];
    }
  }

  lemma {:induction false} TrimIdempotent(s: string)
    ensures Trim(Trim(s)) == Trim(s)
  {
    TrimRightEnds(s);
    TrimLeftKeepsEnd(TrimRight(s));
  }

  /** Text without blanks at its ends is left alone. */
  lemma {:induction false} TrimFixes(s: string)
    requires s != [] ==> !Blank(s[0]) && !Blank(s[|s| - 1])
    ensures Trim(s) == s
  {
  }

  lemma {:induction false} TrimmedEnds(s: string)
    ensures Trim(s) != [] ==> !Blank(Trim(s)[0]) && !Blank(Trim(s)[|Trim(s)| - 1])
  {
    TrimRightEnds(s);
    TrimLeftKeepsEnd(TrimRight(s));
  }
}
