/** `In` with its hash table against the correlated EXISTS with its nested loop:
    the same rows, except for what narrowing to 32 bits confuses. */
module Decorrelation {
  import opened Tables
  import opened Filters
  import opened Joins

  /** With its hash table, `In` keeps the rows whose value is printed like one on
      the right. */
  lemma {:induction false} InKeepsPrinted(left: seq<Row>, right: seq<Row>, f: Filter, negated: bool)
    requires f.op.EQ? && AllEqTyped([f], left, right)
    ensures SemiJoin(left, right, HashRight([f]), negated) == SemiJoin(left, right, ByPrinted([f]), negated)
  {
    forall i | 0 <= i < |left|
      ensures HasMatch(left[i], right, HashRight([f])) == HasMatch(left[i], right, ByPrinted([f]))
    {
      forall j | 0 <= j < |right|
        ensures HashRight([f])(left[i], right[j]) == ByPrinted([f])(left[i], right[j])
      {
        assert EqTyped([f], left[i], right[j]);
        SingleColumn([f]);
        KeysAgree([f], left[i], right[j], false, true);
      }
    }
    SemiJoinSame(left, right, HashRight([f]), ByPrinted([f]), negated);
  }

  /** Every right value that prints like a left one is accompanied by a right value
      that equals it: always so of strings and integers. */
  ghost predicate NoRoundedMatch(left: seq<Row>, right: seq<Row>, f: Filter) {
    forall i, j :: 0 <= i < |left| && 0 <= j < |right| && SamePrint(Get(left[i], f.lv), Get(right[j], f.rv)) ==>
      exists k :: 0 <= k < |right| && Get(left[i], f.lv) == Get(right[k], f.rv)
  }

  /** `In` keeps the rows whose value occurs on the right (`NOT IN` the others)
      exactly when rounding creates no match. */
  lemma {:induction false} InKeepsMembersIff(left: seq<Row>, right: seq<Row>, f: Filter, negated: bool)
    requires f.op.EQ? && AllEqTyped([f], left, right)
    ensures SemiJoin(left, right, HashRight([f]), negated) == SemiJoin(left, right, ByEqualities([f]), negated)
       <==> NoRoundedMatch(left, right, f)
  {
    InKeepsPrinted(left, right, f, negated);
    forall i | 0 <= i < |left|
      ensures HasMatch(left[i], right, ByEqualities([f]))
         <==> exists k :: 0 <= k < |right| && Get(left[i], f.lv) == Get(right[k], f.rv)
      ensures HasMatch(left[i], right, ByPrinted([f]))
         <==> exists k :: 0 <= k < |right| && SamePrint(Get(left[i], f.lv), Get(right[k], f.rv))
    {
      OneEquality(left[i], right, f);
    }
    assert forall i, k :: 0 <= i < |left| && 0 <= k < |right| && Get(left[i], f.lv) == Get(right[k], f.rv) ==>
      SamePrint(Get(left[i], f.lv), Get(right[k], f.rv));
    SemiJoinIff(left, right, ByEqualities([f]), ByPrinted([f]), negated);
  }

  lemma {:induction false} OneEquality(l: Row, right: seq<Row>, f: Filter)
    requires f.op.EQ?
    ensures HasMatch(l, right, ByEqualities([f]))
       <==> exists k :: 0 <= k < |right| && Get(l, f.lv) == Get(right[k], f.rv)
    ensures HasMatch(l, right, ByPrinted([f]))
       <==> exists k :: 0 <= k < |right| && SamePrint(Get(l, f.lv), Get(right[k], f.rv))
  {
    assert [f][0] == f;
    forall k | 0 <= k < |right|
      ensures ByEqualities([f])(l, right[k]) <==> Get(l, f.lv) == Get(right[k], f.rv)
      ensures ByPrinted([f])(l, right[k]) <==> SamePrint(Get(l, f.lv), Get(right[k], f.rv))
    {
      assert Condition([f][0], l, right[k]) <==> Get(l, f.lv) == Get(right[k], f.rv);
    }
  }

  /** So always on strings and integers. */
  lemma {:induction false} InKeepsMembers(left: seq<Row>, right: seq<Row>, f: Filter, negated: bool)
    requires f.op.EQ? && AllEqTyped([f], left, right) && NoFloats(left, f)
    ensures SemiJoin(left, right, HashRight([f]), negated) == SemiJoin(left, right, ByEqualities([f]), negated)
  {
    forall i, j | 0 <= i < |left| && 0 <= j < |right| && SamePrint(Get(left[i], f.lv), Get(right[j], f.rv))
      ensures Get(left[i], f.lv) == Get(right[j], f.rv)
    {
      assert EqTyped([f], left[i], right[j]);
      assert [f][0] == f;
      PrintedIffEqual(Get(left[i], f.lv), Get(right[j], f.rv));
    }
    InKeepsMembersIff(left, right, f, negated);
  }

  ghost predicate NoFloats(left: seq<Row>, f: Filter) {
    forall i :: 0 <= i < |left| ==> !Get(left[i], f.lv).Float?
  }

  // ---------------------------------------------------------------------- NULL

  /** The comparison of SQL holds, or is unknown. */
  function ByPossible(f: Filter): Test {
    (l: Row, r: Row) => Get(l, f.lv) == Get(r, f.rv) || NullPair(l, r, f)
  }

  /** IN asks for a value known to be equal, NOT IN for none that may be. */
  ghost function InAsked(left: seq<Row>, right: seq<Row>, f: Filter, negated: bool): seq<Row> {
    SemiJoin(left, right, if negated then ByPossible(f) else ByKnown([f]), negated)
  }

  /** `In` compares the default values of NULLs. IN is right exactly when every row
      with an equal value on the right is not NULL and has an equal value there
      that is not; NOT IN when every row that meets a NULL has an equal value. */
  lemma {:induction false} InNullsIff(left: seq<Row>, right: seq<Row>, f: Filter, negated: bool)
    requires f.op.EQ?
    ensures SemiJoin(left, right, ByEqualities([f]), negated) == InAsked(left, right, f, negated)
       <==> forall i :: 0 <= i < |left| ==> if negated then UnknownMeansEqual(left[i], right, f)
                                            else EqualMeansKnown(left[i], right, f)
  {
    forall i | 0 <= i < |left|
      ensures HasMatch(left[i], right, ByKnown([f])) ==> HasMatch(left[i], right, ByEqualities([f]))
      ensures HasMatch(left[i], right, ByEqualities([f])) ==> HasMatch(left[i], right, ByPossible(f))
      ensures EqualMeansKnown(left[i], right, f)
         <==> HasMatch(left[i], right, ByKnown([f])) == HasMatch(left[i], right, ByEqualities([f]))
      ensures UnknownMeansEqual(left[i], right, f)
         <==> HasMatch(left[i], right, ByEqualities([f])) == HasMatch(left[i], right, ByPossible(f))
    {
      OneEquality(left[i], right, f);
      OneKnown(left[i], right, f);
    }
    if negated {
      SemiJoinIff(left, right, ByEqualities([f]), ByPossible(f), negated);
    } else {
      SemiJoinIff(left, right, ByKnown([f]), ByEqualities([f]), negated);
    }
  }

  ghost predicate EqualMeansKnown(l: Row, right: seq<Row>, f: Filter) {
    (exists k :: 0 <= k < |right| && Get(l, f.lv) == Get(right[k], f.rv)) ==>
      !IsNull(l, f.lv)
      && exists k :: 0 <= k < |right| && Get(l, f.lv) == Get(right[k], f.rv) && !IsNull(right[k], f.rv)
  }

  ghost predicate UnknownMeansEqual(l: Row, right: seq<Row>, f: Filter) {
    MeetsNull(l, right, f) ==> exists k :: 0 <= k < |right| && Get(l, f.lv) == Get(right[k], f.rv)
  }

  /** A comparison of the row with the right table is unknown. */
  ghost predicate MeetsNull(l: Row, right: seq<Row>, f: Filter) {
    exists k :: 0 <= k < |right| && NullPair(l, right[k], f)
  }

  predicate NullPair(l: Row, r: Row, f: Filter) {
    IsNull(l, f.lv) || IsNull(r, f.rv)
  }

  lemma {:induction false} OneKnown(l: Row, right: seq<Row>, f: Filter)
    requires f.op.EQ?
    ensures HasMatch(l, right, ByKnown([f]))
       <==> !IsNull(l, f.lv)
            && exists k :: 0 <= k < |right| && Get(l, f.lv) == Get(right[k], f.rv) && !IsNull(right[k], f.rv)
    ensures HasMatch(l, right, ByPossible(f))
       <==> (exists k :: 0 <= k < |right| && Get(l, f.lv) == Get(right[k], f.rv))
            || MeetsNull(l, right, f)
  {
    assert [f][0] == f;
    forall k | 0 <= k < |right|
      ensures ByKnown([f])(l, right[k])
         <==> Get(l, f.lv) == Get(right[k], f.rv) && !IsNull(l, f.lv) && !IsNull(right[k], f.rv)
      ensures ByPossible(f)(l, right[k])
         <==> Get(l, f.lv) == Get(right[k], f.rv) || NullPair(l, right[k], f)
    {
      assert Condition([f][0], l, right[k]) <==> Get(l, f.lv) == Get(right[k], f.rv);
    }
  }

  // --------------------------------------------------------------- DATE columns

  ghost predicate AllDates(left: seq<Row>, right: seq<Row>, f: Filter) {
    && (forall i :: 0 <= i < |left| ==> Get(left[i], f.lv).Date?)
    && (forall j :: 0 <= j < |right| ==> Get(right[j], f.rv).Date?)
  }

  lemma {:induction false} DatesNeverMatch(l: Row, right: seq<Row>, f: Filter)
    requires f.op.EQ? && AllDates([l], right, f)
    ensures !HasMatch(l, right, HashRight([f])) && !HasMatch(l, right, Correlated([f]))
  {
    assert [l][0] == l && [f][0] == f;
    forall j | 0 <= j < |right| ensures !HashRight([f])(l, right[j]) && !Correlated([f])(l, right[j]) {
      assert SameEqKinds([f], l, right[j]) && DateEquality([f][0], l);
      SingleColumn([f]);
      OneKeyColumn(l, f.lv, false);
      DateKeysDiffer([f], l, right[j]);
    }
  }

  /** On date columns neither form ever finds a match: IN and EXISTS keep nothing,
      NOT IN and NOT EXISTS everything. That is right exactly when no left value
      equals a right one. */
  lemma {:induction false} DatesIff(left: seq<Row>, right: seq<Row>, f: Filter, negated: bool)
    requires f.op.EQ? && AllDates(left, right, f)
    ensures SemiJoin(left, right, HashRight([f]), negated) == (if negated then left else [])
    ensures SemiJoin(left, right, HashRight([f]), negated) == SemiJoin(left, right, Correlated([f]), negated)
    ensures SemiJoin(left, right, HashRight([f]), negated) == SemiJoin(left, right, ByEqualities([f]), negated)
       <==> forall i, j :: 0 <= i < |left| && 0 <= j < |right| ==> Get(left[i], f.lv) != Get(right[j], f.rv)
  {
    forall i | 0 <= i < |left|
      ensures !HasMatch(left[i], right, HashRight([f])) && !HasMatch(left[i], right, Correlated([f]))
      ensures HasMatch(left[i], right, ByEqualities([f]))
         <==> exists k :: 0 <= k < |right| && Get(left[i], f.lv) == Get(right[k], f.rv)
    {
      DatesNeverMatch(left[i], right, f);
      OneEquality(left[i], right, f);
    }
    NoneKept(left, right, HashRight([f]), negated);
    SemiJoinSame(left, right, HashRight([f]), Correlated([f]), negated);
    SemiJoinIff(left, right, HashRight([f]), ByEqualities([f]), negated);
  }

  lemma {:induction false} NoneKept(left: seq<Row>, right: seq<Row>, t: Test, negated: bool)
    requires forall i :: 0 <= i < |left| ==> !HasMatch(left[i], right, t)
    ensures SemiJoin(left, right, t, negated) == if negated then left else []
  {
    if left != [] {
      NoneKept(left[..|left| - 1], right, t, negated);
    }
  }

  // ------------------------------------------------------------ 32-bit integers

  /** A pair of strings or of integers. */
  ghost predicate Plain(f: Filter, l: Row, r: Row) {
    SameKind(Get(l, f.lv), Get(r, f.rv)) && (Get(l, f.lv).Str? || Get(l, f.lv).Int?)
  }

  ghost predicate AllPlain(left: seq<Row>, right: seq<Row>, f: Filter) {
    forall i, j :: 0 <= i < |left| && 0 <= j < |right| ==> Plain(f, left[i], right[j])
  }

  lemma {:induction false} NarrowingKeepsEquality(f: Filter, l: Row, r: Row)
    requires f.op.EQ? && Plain(f, l, r)
    ensures ByEqualities([f])(l, r) <==> Get(l, f.lv) == Get(r, f.rv)
    ensures Correlated([f])(l, r) <==> Narrow(Get(l, f.lv)) == Narrow(Get(r, f.rv))
  {
    assert [f][0] == f;
  }

  /** Every right value that the narrowed comparison confuses with a left value
      is accompanied by a right value that really equals it. */
  ghost predicate NoPhantomMatch(left: seq<Row>, right: seq<Row>, f: Filter) {
    forall i, j :: 0 <= i < |left| && 0 <= j < |right| && Narrow(Get(left[i], f.lv)) == Narrow(Get(right[j], f.rv)) ==>
      exists k :: 0 <= k < |right| && Get(left[i], f.lv) == Get(right[k], f.rv)
  }

  lemma {:induction false} ExactImpliesNarrow(l: Row, right: seq<Row>, f: Filter)
    requires f.op.EQ? && AllPlain([l], right, f)
    ensures HasMatch(l, right, ByEqualities([f])) ==> HasMatch(l, right, Correlated([f]))
  {
    if HasMatch(l, right, ByEqualities([f])) {
      var j :| 0 <= j < |right| && ByEqualities([f])(l, right[j]);
      assert Plain(f, [l][0], right[j]);
      NarrowingKeepsEquality(f, l, right[j]);
      assert Correlated([f])(l, right[j]);
    }
  }

  lemma {:induction false} PhantomIff(left: seq<Row>, right: seq<Row>, f: Filter)
    requires f.op.EQ? && AllPlain(left, right, f)
    ensures NoPhantomMatch(left, right, f) <==>
      forall i :: 0 <= i < |left| ==>
        HasMatch(left[i], right, ByEqualities([f])) == HasMatch(left[i], right, Correlated([f]))
  {
    forall i | 0 <= i < |left|
      ensures HasMatch(left[i], right, ByEqualities([f]))
         <==> exists k :: 0 <= k < |right| && Get(left[i], f.lv) == Get(right[k], f.rv)
      ensures HasMatch(left[i], right, Correlated([f]))
         <==> exists j :: 0 <= j < |right| && Narrow(Get(left[i], f.lv)) == Narrow(Get(right[j], f.rv))
    {
      assert forall j :: 0 <= j < |right| ==> Plain(f, left[i], right[j]);
      MatchMeansValue(left[i], right, f);
    }
  }

  lemma {:induction false} MatchMeansValue(l: Row, right: seq<Row>, f: Filter)
    requires f.op.EQ? && forall j :: 0 <= j < |right| ==> Plain(f, l, right[j])
    ensures HasMatch(l, right, ByEqualities([f]))
       <==> exists k :: 0 <= k < |right| && Get(l, f.lv) == Get(right[k], f.rv)
    ensures HasMatch(l, right, Correlated([f]))
       <==> exists j :: 0 <= j < |right| && Narrow(Get(l, f.lv)) == Narrow(Get(right[j], f.rv))
  {
    forall j | 0 <= j < |right|
      ensures ByEqualities([f])(l, right[j]) <==> Get(l, f.lv) == Get(right[j], f.rv)
      ensures Correlated([f])(l, right[j]) <==> Narrow(Get(l, f.lv)) == Narrow(Get(right[j], f.rv))
    {
      NarrowingKeepsEquality(f, l, right[j]);
    }
  }

  lemma {:induction false} NothingOnTheRight(left: seq<Row>, f: Filter, negated: bool)
    ensures SemiJoin(left, [], HashRight([f]), negated) == SemiJoin(left, [], Correlated([f]), negated)
  {
    SemiJoinSame(left, [], HashRight([f]), Correlated([f]), negated);
  }

  lemma {:induction false} PlainIsTyped(left: seq<Row>, right: seq<Row>, f: Filter)
    requires right != [] && AllPlain(left, right, f)
    ensures AllEqTyped([f], left, right) && NoFloats(left, f)
  {
    forall i, j | 0 <= i < |left| && 0 <= j < |right| ensures EqTyped([f], left[i], right[j]) {
      assert Plain(f, left[i], right[j]) && [f][0] == f;
    }
    forall i | 0 <= i < |left| ensures !Get(left[i], f.lv).Float? {
      assert Plain(f, left[i], right[0]);
    }
  }

  /** Decorrelation: the hash IN (NOT IN) and the correlated EXISTS (NOT EXISTS)
      keep the same rows in the same order exactly when narrowing creates no
      phantom match. */
  lemma {:induction false} ExistsEqualsInIff(left: seq<Row>, right: seq<Row>, f: Filter, negated: bool)
    requires f.op.EQ? && AllPlain(left, right, f)
    ensures SemiJoin(left, right, HashRight([f]), negated) == SemiJoin(left, right, Correlated([f]), negated)
       <==> NoPhantomMatch(left, right, f)
  {
    if right == [] {
      NothingOnTheRight(left, f, negated);
      return;
    }
    PlainIsTyped(left, right, f);
    InKeepsMembers(left, right, f, negated);
    forall i | 0 <= i < |left|
      ensures HasMatch(left[i], right, ByEqualities([f])) ==> HasMatch(left[i], right, Correlated([f]))
    {
      assert forall j :: 0 <= j < |right| ==> Plain(f, left[i], right[j]);
      ExactImpliesNarrow(left[i], right, f);
    }
    SemiJoinIff(left, right, ByEqualities([f]), Correlated([f]), negated);
    PhantomIff(left, right, f);
  }

  /** Every row with a right value that the narrowed comparison takes for its own is
      not NULL and has an equal value there that is not either. */
  ghost predicate NarrowMeansKnown(left: seq<Row>, right: seq<Row>, f: Filter) {
    forall i, j :: 0 <= i < |left| && 0 <= j < |right| && Narrow(Get(left[i], f.lv)) == Narrow(Get(right[j], f.rv)) ==>
      KnownEqual(left[i], right, f)
  }

  ghost predicate KnownEqual(l: Row, right: seq<Row>, f: Filter) {
    !IsNull(l, f.lv) && exists k :: 0 <= k < |right| && Get(l, f.lv) == Get(right[k], f.rv) && !IsNull(right[k], f.rv)
  }

  /** Correlated EXISTS, too, compares the default values of NULLs. It keeps the rows
      with a value known to be equal, and NOT EXISTS all the others, exactly when
      nothing else is taken for equal. */
  lemma {:induction false} ExistsNullsIff(left: seq<Row>, right: seq<Row>, f: Filter, negated: bool)
    requires f.op.EQ? && AllPlain(left, right, f)
    ensures SemiJoin(left, right, Correlated([f]), negated) == SemiJoin(left, right, ByKnown([f]), negated)
       <==> NarrowMeansKnown(left, right, f)
  {
    forall i | 0 <= i < |left|
      ensures HasMatch(left[i], right, ByKnown([f])) <==> KnownEqual(left[i], right, f)
      ensures HasMatch(left[i], right, ByKnown([f])) ==> HasMatch(left[i], right, Correlated([f]))
      ensures HasMatch(left[i], right, Correlated([f]))
         <==> exists j :: 0 <= j < |right| && Narrow(Get(left[i], f.lv)) == Narrow(Get(right[j], f.rv))
    {
      assert forall j :: 0 <= j < |right| ==> Plain(f, left[i], right[j]);
      MatchMeansValue(left[i], right, f);
      OneKnown(left[i], right, f);
    }
    SemiJoinIff(left, right, ByKnown([f]), Correlated([f]), negated);
  }

  lemma {:induction false} NarrowFaithful(a: Value, b: Value)
    requires FitsInt32(a) && FitsInt32(b) && !a.Float? && !b.Float?
    ensures Narrow(a) == Narrow(b) <==> a == b
  {
    assert Narrow(a) == a && Narrow(b) == b;
  }

  /** Values within 32 bits never have phantom matches. */
  lemma {:induction false} ExistsEqualsInOnInt32(left: seq<Row>, right: seq<Row>, f: Filter, negated: bool)
    requires f.op.EQ? && AllPlain(left, right, f)
    requires forall i :: 0 <= i < |left| ==> FitsInt32(Get(left[i], f.lv))
    requires forall j :: 0 <= j < |right| ==> FitsInt32(Get(right[j], f.rv))
    ensures SemiJoin(left, right, HashRight([f]), negated) == SemiJoin(left, right, Correlated([f]), negated)
  {
    forall i, j | 0 <= i < |left| && 0 <= j < |right| && Narrow(Get(left[i], f.lv)) == Narrow(Get(right[j], f.rv))
      ensures exists k :: 0 <= k < |right| && Get(left[i], f.lv) == Get(right[k], f.rv)
    {
      assert Plain(f, left[i], right[j]);
      NarrowFaithful(Get(left[i], f.lv), Get(right[j], f.rv));
    }
    ExistsEqualsInIff(left, right, f, negated);
  }

  /** Outside that range they do: 2^32 EXISTS beside 0, but is not IN it. */
  lemma {:induction false} ExistsConfusesWideValues(l: Row, r: Row, f: Filter, x: int)
    requires f.op.EQ?
    requires Get(l, f.lv) == Int(x + 0x1_0000_0000) && Get(r, f.rv) == Int(x)
    ensures SemiJoin([l], [r], Correlated([f]), false) != SemiJoin([l], [r], HashRight([f]), false)
  {
    assert !NoPhantomMatch([l], [r], f) by {
      assert [l][0] == l && [r][0] == r;
      assert Narrow(Get([l][0], f.lv)) == Narrow(Get([r][0], f.rv));
    }
    ExistsEqualsInIff([l], [r], f, false);
  }
}
