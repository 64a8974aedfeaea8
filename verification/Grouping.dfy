/** GROUP BY as a partition of rows: keys in order of first appearance, and for
    every key the rows that have it. */
module Grouping {
  import opened Tables
  import opened Keys
  import opened Filters
  import opened Permutations
  import opened Trimming

  // --------------------------------------------------------------------- keys

  function TrimValue(v: Value): Value {
    if v.Str? then Str(Trim(v.s)) else v
  }

  function GroupParts(row: Row, groups: seq<string>): seq<string> {
    if groups == [] then []
    else GroupParts(row, groups[..|groups| - 1]) + KeyPart(TrimValue(Get(row, groups[|groups| - 1])), true)
  }

  /** `makeGroupbyKey`. */
  function GroupKey(row: Row, groups: seq<string>): string {
    JoinKey(GroupParts(row, groups))
  }

  /** Making the key trims the group columns of the row in place. */
  function TrimRow(row: Row, groups: seq<string>): Row {
    map c | c in row :: if c in groups then Cell(TrimValue(row[c].value), row[c].isnull) else row[c]
  }

  /** That is, strings in the group columns lose the blanks around them, and nothing
      else changes. */
  lemma {:induction false} TrimRowMeans(row: Row, groups: seq<string>, c: string)
    returns (before: string, behind: string)
    requires c in row
    ensures TrimRow(row, groups).Keys == row.Keys && IsNull(TrimRow(row, groups), c) == IsNull(row, c)
    ensures c !in groups || !Get(row, c).Str? ==> Get(TrimRow(row, groups), c) == Get(row, c)
    ensures c in groups && Get(row, c).Str? ==>
      && Get(TrimRow(row, groups), c).Str?
      && Get(row, c).s == before + Get(TrimRow(row, groups), c).s + behind && AllBlank(before) && AllBlank(behind)
      && var t := Get(TrimRow(row, groups), c).s; t != [] ==> !Blank(t[0]) && !Blank(t[|t| - 1])
  {
    before, behind := [], [];
    if Get(row, c).Str? {
      before, behind := TrimMeans(Get(row, c).s);
    }
  }

  function TrimRows(rows: seq<Row>, groups: seq<string>): (out: seq<Row>)
    ensures |out| == |rows|
    ensures forall k :: 0 <= k < |rows| ==> out[k] == TrimRow(rows[k], groups)
  {
    seq(|rows|, k requires 0 <= k < |rows| => TrimRow(rows[k], groups))
  }

  /** What a key prints of a value. */
  function GroupPrint(v: Value): seq<string> {
    KeyPart(TrimValue(v), true)
  }

  ghost predicate SameTypes(a: Row, b: Row, groups: seq<string>) {
    forall k :: 0 <= k < |groups| ==> SameKind(Get(a, groups[k]), Get(b, groups[k]))
  }

  ghost predicate SameGroupPrints(a: Row, b: Row, groups: seq<string>) {
    forall k :: 0 <= k < |groups| ==> GroupPrint(Get(a, groups[k])) == GroupPrint(Get(b, groups[k]))
  }

  ghost predicate SameGroupValues(a: Row, b: Row, groups: seq<string>) {
    forall k :: 0 <= k < |groups| ==> TrimValue(Get(a, groups[k])) == TrimValue(Get(b, groups[k]))
  }

  /** Only different floats may print alike. */
  lemma {:induction false} GroupPrintIff(a: Value, b: Value)
    requires SameKind(a, b)
    ensures |GroupPrint(a)| == |GroupPrint(b)| == 1
    ensures a == b ==> GroupPrint(a) == GroupPrint(b)
    ensures !a.Float? ==> (GroupPrint(a) == GroupPrint(b) <==> TrimValue(a) == TrimValue(b))
  {
    var p, q := GroupPrint(a), GroupPrint(b);
    if a.Int? {
      ToStringInjective(a.i, b.i);
      assert p[0] == ToString(a.i) && q[0] == ToString(b.i);
    } else if a.Date? {
      ToStringInjective(a.d, b.d);
      assert p[0] == ToString(a.d) && q[0] == ToString(b.d);
    } else if a.Str? {
      assert p[0] == Trim(a.s) && q[0] == Trim(b.s);
    }
  }

  lemma {:induction false} GroupPartsStep(a: Row, b: Row, groups: seq<string>, c: string)
    requires |GroupParts(a, groups)| == |GroupParts(b, groups)| == |groups|
    requires SameKind(Get(a, c), Get(b, c))
    ensures |GroupParts(a, groups + [c])| == |GroupParts(b, groups + [c])| == |groups| + 1
    ensures GroupParts(a, groups + [c]) == GroupParts(b, groups + [c])
       <==> GroupParts(a, groups) == GroupParts(b, groups) && GroupPrint(Get(a, c)) == GroupPrint(Get(b, c))
  {
    assert (groups + [c])[..|groups|] == groups;
    var p, q := KeyPart(TrimValue(Get(a, c)), true), KeyPart(TrimValue(Get(b, c)), true);
    GroupPrintIff(Get(a, c), Get(b, c));
    AppendsAgree(GroupParts(a, groups), p, GroupParts(b, groups), q);
  }

  lemma {:induction false} GroupPartsAgree(a: Row, b: Row, groups: seq<string>)
    requires SameTypes(a, b, groups)
    ensures |GroupParts(a, groups)| == |GroupParts(b, groups)| == |groups|
    ensures GroupParts(a, groups) == GroupParts(b, groups) <==> SameGroupPrints(a, b, groups)
  {
    if groups != [] {
      var n := |groups| - 1;
      var init, c := groups[..n], groups[n];
      assert groups == init + [c];
      assert forall k :: 0 <= k < n ==> init[k] == groups[k];
      GroupPartsAgree(a, b, init);
      GroupPartsStep(a, b, init, c);
    }
  }

  /** Two rows have one key exactly when their group values print alike; without
      floats, when their trimmed group values agree. */
  lemma {:induction false} SameKeyIff(a: Row, b: Row, groups: seq<string>)
    requires SameTypes(a, b, groups)
    requires |groups| <= 1 || BarFree(GroupParts(a, groups)) || BarFree(GroupParts(b, groups))
    ensures GroupKey(a, groups) == GroupKey(b, groups) <==> SameGroupPrints(a, b, groups)
    ensures (forall k :: 0 <= k < |groups| ==> !Get(a, groups[k]).Float?) ==>
      (GroupKey(a, groups) == GroupKey(b, groups) <==> SameGroupValues(a, b, groups))
  {
    GroupPartsAgree(a, b, groups);
    SameKeySameTuple(GroupParts(a, groups), GroupParts(b, groups));
    PrintsAreValues(a, b, groups);
  }

  lemma {:induction false} PrintsAreValues(a: Row, b: Row, groups: seq<string>)
    requires SameTypes(a, b, groups)
    ensures (forall k :: 0 <= k < |groups| ==> !Get(a, groups[k]).Float?) ==>
      (SameGroupPrints(a, b, groups) <==> SameGroupValues(a, b, groups))
  {
    forall k | 0 <= k < |groups| && !Get(a, groups[k]).Float?
      ensures GroupPrint(Get(a, groups[k])) == GroupPrint(Get(b, groups[k]))
         <==> TrimValue(Get(a, groups[k])) == TrimValue(Get(b, groups[k]))
    {
      GroupPrintIff(Get(a, groups[k]), Get(b, groups[k]));
    }
  }

  // -------------------------------------------------------------- NULL in groups

  /** SQL groups NULLs together and apart from values; blanks are ignored. */
  predicate Alike(a: Row, b: Row, g: string) {
    if IsNull(a, g) || IsNull(b, g) then IsNull(a, g) && IsNull(b, g)
    else TrimValue(Get(a, g)) == TrimValue(Get(b, g))
  }

  ghost predicate SameSqlGroup(a: Row, b: Row, groups: seq<string>) {
    forall k :: 0 <= k < |groups| ==> Alike(a, b, groups[k])
  }

  /** A NULL beside a value, or two different floats. */
  predicate Mixed(a: Row, b: Row, g: string) {
    IsNull(a, g) != IsNull(b, g) || (!IsNull(a, g) && Get(a, g).Float? && Get(a, g) != Get(b, g))
  }

  /** Where the rows show different values, and not two NULLs. */
  predicate Differ(a: Row, b: Row, g: string) {
    GroupPrint(Get(a, g)) != GroupPrint(Get(b, g)) && !(IsNull(a, g) && IsNull(b, g))
  }

  lemma {:induction false} AlikeIff(a: Row, b: Row, g: string)
    requires SameKind(Get(a, g), Get(b, g))
    ensures Alike(a, b, g) <==> !Mixed(a, b, g) && !Differ(a, b, g)
  {
    GroupPrintIff(Get(a, g), Get(b, g));
  }

  /** Two rows are rightly grouped together exactly when no group column has a NULL
      beside a value or two different floats, and rightly kept apart exactly when one
      has, or shows different values and not two NULLs. */
  lemma {:induction false} SameGroupIff(a: Row, b: Row, groups: seq<string>)
    requires SameTypes(a, b, groups)
    requires |groups| <= 1 || BarFree(GroupParts(a, groups)) || BarFree(GroupParts(b, groups))
    ensures (GroupKey(a, groups) == GroupKey(b, groups)) == SameSqlGroup(a, b, groups)
       <==> if GroupKey(a, groups) == GroupKey(b, groups)
            then forall k :: 0 <= k < |groups| ==> !Mixed(a, b, groups[k])
            else exists k :: 0 <= k < |groups| && (Mixed(a, b, groups[k]) || Differ(a, b, groups[k]))
  {
    SameKeyIff(a, b, groups);
    forall k | 0 <= k < |groups|
      ensures Alike(a, b, groups[k]) <==> !Mixed(a, b, groups[k]) && !Differ(a, b, groups[k])
    {
      AlikeIff(a, b, groups[k]);
    }
  }

  // ---------------------------------------------------------------- partition

  /** The keys in order of first appearance. */
  function KeysOf(rows: seq<Row>, groups: seq<string>): seq<string> {
    if rows == [] then []
    else
      var ks := KeysOf(rows[..|rows| - 1], groups);
      var k := GroupKey(rows[|rows| - 1], groups);
      if k in ks then ks else ks + [k]
  }

  /** The (trimmed) rows with a key, in order. */
  function GroupOf(rows: seq<Row>, groups: seq<string>, key: string): seq<Row> {
    if rows == [] then []
    else
      var x := rows[|rows| - 1];
      GroupOf(rows[..|rows| - 1], groups, key) + if GroupKey(x, groups) == key then [TrimRow(x, groups)] else []
  }

  /** `first` are the ascending positions at which the keys appear first. */
  ghost predicate FirstSeen(rows: seq<Row>, groups: seq<string>, keys: seq<string>, first: seq<nat>) {
    && |first| == |keys|
    && (forall a, b :: 0 <= a < b < |first| ==> first[a] < first[b])
    && forall k :: 0 <= k < |first| ==> first[k] < |rows| && ShownFirst(rows, groups, keys[k], first[k])
  }

  ghost predicate ShownFirst(rows: seq<Row>, groups: seq<string>, key: string, n: nat)
    requires n < |rows|
  {
    GroupKey(rows[n], groups) == key && forall i :: 0 <= i < n ==> GroupKey(rows[i], groups) != key
  }

  /** The keys are in the order in which rows show them first. */
  lemma {:induction false} KeysInOrder(rows: seq<Row>, groups: seq<string>) returns (first: seq<nat>)
    ensures FirstSeen(rows, groups, KeysOf(rows, groups), first)
  {
    first := [];
    if rows != [] {
      var n: nat := |rows| - 1;
      var key := GroupKey(rows[n], groups);
      first := KeysInOrder(rows[..n], groups);
      StillFirst(rows, groups, KeysOf(rows[..n], groups), first);
      if key !in KeysOf(rows[..n], groups) {
        forall i | 0 <= i < n ensures GroupKey(rows[i], groups) != key {
          KeysOfRows(rows[..n], groups);
          assert GroupKey(rows[..n][i], groups) in KeysOf(rows[..n], groups);
        }
        FirstAgain(rows, groups, KeysOf(rows[..n], groups), first);
        first := first + [n];
      }
    }
  }

  lemma {:induction false} StillFirst(rows: seq<Row>, groups: seq<string>, keys: seq<string>, first: seq<nat>)
    requires rows != [] && FirstSeen(rows[..|rows| - 1], groups, keys, first)
    ensures FirstSeen(rows, groups, keys, first)
  {
    var init := rows[..|rows| - 1];
    forall k | 0 <= k < |first| ensures first[k] < |rows| && ShownFirst(rows, groups, keys[k], first[k]) {
      assert ShownFirst(init, groups, keys[k], first[k]);
      assert forall i :: 0 <= i < |init| ==> init[i] == rows[i];
    }
  }

  lemma {:induction false} FirstAgain(rows: seq<Row>, groups: seq<string>, keys: seq<string>, first: seq<nat>)
    requires rows != [] && FirstSeen(rows[..|rows| - 1], groups, keys, first) && FirstSeen(rows, groups, keys, first)
    requires ShownFirst(rows, groups, GroupKey(rows[|rows| - 1], groups), |rows| - 1)
    ensures FirstSeen(rows, groups, keys + [GroupKey(rows[|rows| - 1], groups)], first + [|rows| - 1])
  {
  }

  /** A group holds the rows with its key, once each and in order, trimmed. */
  lemma {:induction false} GroupOfMeans(rows: seq<Row>, groups: seq<string>, key: string) returns (idx: seq<nat>)
    ensures Selects(idx, rows, (r: Row) => GroupKey(r, groups) == key)
    ensures Images(idx, rows, (r: Row) => TrimRow(r, groups), GroupOf(rows, groups, key))
  {
    var want, trimmed := (r: Row) => GroupKey(r, groups) == key, (r: Row) => TrimRow(r, groups);
    GroupOfPicked(rows, groups, key, want, trimmed);
    idx := PickedMeans(rows, want, trimmed);
  }

  lemma {:induction false} GroupOfPicked(rows: seq<Row>, groups: seq<string>, key: string, want: Row -> bool,
                                         trimmed: Row -> Row)
    requires forall r :: want(r) == (GroupKey(r, groups) == key) && trimmed(r) == TrimRow(r, groups)
    ensures GroupOf(rows, groups, key) == Picked(rows, want, trimmed)
  {
    if rows != [] {
      GroupOfPicked(rows[..|rows| - 1], groups, key, want, trimmed);
    }
  }

  ghost predicate Distinct(ks: seq<string>) {
    forall i, j :: 0 <= i < j < |ks| ==> ks[i] != ks[j]
  }

  lemma {:induction false} KeysOfRows(rows: seq<Row>, groups: seq<string>)
    ensures Distinct(KeysOf(rows, groups))
    ensures forall k :: k in KeysOf(rows, groups) <==> exists i :: 0 <= i < |rows| && GroupKey(rows[i], groups) == k
  {
    if rows != [] {
      var n := |rows| - 1;
      KeysOfRows(rows[..n], groups);
      forall k ensures k in KeysOf(rows, groups) <==> exists i :: 0 <= i < |rows| && GroupKey(rows[i], groups) == k {
        KeyInExtension(rows, groups, k);
      }
    }
  }

  lemma {:induction false} KeyInExtension(rows: seq<Row>, groups: seq<string>, k: string)
    requires rows != []
    ensures var n := |rows| - 1;
      (exists i :: 0 <= i < |rows| && GroupKey(rows[i], groups) == k)
      <==> GroupKey(rows[n], groups) == k || exists i :: 0 <= i < n && GroupKey(rows[..n][i], groups) == k
  {
    var n := |rows| - 1;
    if i :| 0 <= i < |rows| && GroupKey(rows[i], groups) == k {
      if i < n {
        assert GroupKey(rows[..n][i], groups) == k;
      }
    }
    if i :| 0 <= i < n && GroupKey(rows[..n][i], groups) == k {
      assert GroupKey(rows[i], groups) == k;
    }
  }

  lemma {:induction false} GroupOfNonEmpty(rows: seq<Row>, groups: seq<string>, key: string)
    ensures GroupOf(rows, groups, key) != [] <==> key in KeysOf(rows, groups)
  {
    if rows != [] {
      GroupOfNonEmpty(rows[..|rows| - 1], groups, key);
    }
  }

  /** The groups of `keys`, one after the other. */
  function Regrouped(rows: seq<Row>, groups: seq<string>, keys: seq<string>): seq<Row> {
    if keys == [] then []
    else Regrouped(rows, groups, keys[..|keys| - 1]) + GroupOf(rows, groups, keys[|keys| - 1])
  }

  lemma {:induction false} GroupOfSnoc(rows: seq<Row>, x: Row, groups: seq<string>, key: string)
    ensures GroupOf(rows + [x], groups, key)
         == if GroupKey(x, groups) == key then GroupOf(rows, groups, key) + [TrimRow(x, groups)]
           else GroupOf(rows, groups, key)
  {
    assert (rows + [x])[..|rows|] == rows;
  }

  lemma {:induction false} RegroupedStep(rows: seq<Row>, x: Row, groups: seq<string>, keys: seq<string>)
    requires Distinct(keys)
    ensures multiset(Regrouped(rows + [x], groups, keys))
         == multiset(Regrouped(rows, groups, keys))
            + if GroupKey(x, groups) in keys then multiset{TrimRow(x, groups)} else multiset{}
  {
    if keys != [] {
      var n := |keys| - 1;
      var init, key := keys[..n], keys[n];
      LastOfDistinct(keys, GroupKey(x, groups));
      RegroupedStep(rows, x, groups, init);
      RegroupedLast(rows + [x], groups, keys);
      RegroupedLast(rows, groups, keys);
      GroupOfSnoc(rows, x, groups, key);
    }
  }

  lemma {:induction false} RegroupedLast(rows: seq<Row>, groups: seq<string>, keys: seq<string>)
    requires keys != []
    ensures multiset(Regrouped(rows, groups, keys))
         == multiset(Regrouped(rows, groups, keys[..|keys| - 1])) + multiset(GroupOf(rows, groups, keys[|keys| - 1]))
  {
  }

  lemma {:induction false} LastOfDistinct(keys: seq<string>, k: string)
    requires keys != [] && Distinct(keys)
    ensures Distinct(keys[..|keys| - 1])
    ensures k in keys <==> k in keys[..|keys| - 1] || k == keys[|keys| - 1]
    ensures !(k in keys[..|keys| - 1] && k == keys[|keys| - 1])
  {
    assert keys == keys[..|keys| - 1] + [keys[|keys| - 1]];
  }

  /** A row with a new key opens a group of its own. */
  lemma {:induction false} RegroupedNewKey(rows: seq<Row>, x: Row, groups: seq<string>, ks: seq<string>)
    requires Distinct(ks) && GroupKey(x, groups) !in ks
    requires GroupOf(rows, groups, GroupKey(x, groups)) == []
    ensures multiset(Regrouped(rows + [x], groups, ks + [GroupKey(x, groups)]))
         == multiset(Regrouped(rows, groups, ks)) + multiset{TrimRow(x, groups)}
  {
    var key := GroupKey(x, groups);
    RegroupedStep(rows, x, groups, ks);
    assert (ks + [key])[..|ks|] == ks;
    assert (rows + [x])[..|rows|] == rows;
    assert GroupOf(rows + [x], groups, key) == [TrimRow(x, groups)];
  }

  lemma {:induction false} TrimRowsStep(rows: seq<Row>, x: Row, groups: seq<string>)
    ensures TrimRows(rows + [x], groups) == TrimRows(rows, groups) + [TrimRow(x, groups)]
  {
  }

  lemma {:induction false} KeysOfStep(rows: seq<Row>, x: Row, groups: seq<string>)
    ensures KeysOf(rows + [x], groups)
         == KeysOf(rows, groups) + if GroupKey(x, groups) in KeysOf(rows, groups) then [] else [GroupKey(x, groups)]
  {
    assert (rows + [x])[..|rows|] == rows;
    assert KeysOf(rows, groups) + [] == KeysOf(rows, groups);
  }

  /** Grouping neither loses nor copies a row: the groups together are the
      table's (trimmed) rows. */
  lemma {:induction false} GroupsArePartition(rows: seq<Row>, groups: seq<string>)
    ensures multiset(Regrouped(rows, groups, KeysOf(rows, groups))) == multiset(TrimRows(rows, groups))
  {
    if rows != [] {
      var n := |rows| - 1;
      var init, x := rows[..n], rows[n];
      assert rows == init + [x];
      GroupsArePartition(init, groups);
      KeysOfRows(init, groups);
      TrimRowsStep(init, x, groups);
      KeysOfStep(init, x, groups);
      GroupOfNonEmpty(init, groups, GroupKey(x, groups));
      if GroupKey(x, groups) in KeysOf(init, groups) {
        RegroupedStep(init, x, groups, KeysOf(init, groups));
      } else {
        RegroupedNewKey(init, x, groups, KeysOf(init, groups));
      }
    }
  }

  // ------------------------------------------------------------- conservation

  function SumOfGroups(rows: seq<Row>, groups: seq<string>, keys: seq<string>, val: Row -> int): int {
    if keys == [] then 0
    else SumOfGroups(rows, groups, keys[..|keys| - 1], val) + Sum(GroupOf(rows, groups, keys[|keys| - 1]), val)
  }

  lemma {:induction false} SumOfGroupsIsSum(rows: seq<Row>, groups: seq<string>, keys: seq<string>, val: Row -> int)
    ensures SumOfGroups(rows, groups, keys, val) == Sum(Regrouped(rows, groups, keys), val)
  {
    if keys != [] {
      var n := |keys| - 1;
      SumOfGroupsIsSum(rows, groups, keys[..n], val);
      SumAppend(Regrouped(rows, groups, keys[..n]), GroupOf(rows, groups, keys[n]), val);
    }
  }

  /** Per-group sums (and, with value 1, per-group counts) add up to the whole table's. */
  lemma {:induction false} GroupSumsConserve(rows: seq<Row>, groups: seq<string>, val: Row -> int)
    ensures SumOfGroups(rows, groups, KeysOf(rows, groups), val) == Sum(TrimRows(rows, groups), val)
  {
    var ks := KeysOf(rows, groups);
    SumOfGroupsIsSum(rows, groups, ks, val);
    GroupsArePartition(rows, groups);
    SumPermuted(Regrouped(rows, groups, ks), TrimRows(rows, groups), val);
  }

  function MinOf(rows: seq<Row>, val: Row -> int): int
    requires rows != []
  {
    var x := val(rows[|rows| - 1]);
    if |rows| == 1 then x
    else
      var m := MinOf(rows[..|rows| - 1], val);
      if m < x then m else x
  }

  lemma {:induction false} MinOfIsLeast(rows: seq<Row>, val: Row -> int)
    requires rows != []
    ensures exists i :: 0 <= i < |rows| && val(rows[i]) == MinOf(rows, val)
    ensures forall i :: 0 <= i < |rows| ==> MinOf(rows, val) <= val(rows[i])
  {
    var n := |rows| - 1;
    assert val(rows[n]) == val(rows[|rows| - 1]);
    if n > 0 {
      MinOfIsLeast(rows[..n], val);
      var i :| 0 <= i < n && val(rows[..n][i]) == MinOf(rows[..n], val);
      assert val(rows[i]) == MinOf(rows[..n], val);
      forall j | 0 <= j < |rows| ensures MinOf(rows, val) <= val(rows[j]) {
        assert j < n ==> rows[j] == rows[..n][j];
      }
    }
  }

  /** The least value depends only on which rows there are. */
  lemma {:induction false} MinPermuted(a: seq<Row>, b: seq<Row>, val: Row -> int)
    requires a != [] && multiset(a) == multiset(b)
    ensures b != [] && MinOf(a, val) == MinOf(b, val)
  {
    assert a[0] in multiset(b);
    MinOfIsLeast(a, val);
    MinOfIsLeast(b, val);
    var i :| 0 <= i < |a| && val(a[i]) == MinOf(a, val);
    var j :| 0 <= j < |b| && val(b[j]) == MinOf(b, val);
    assert a[i] in multiset(b);
    assert b[j] in multiset(a);
  }

  /** The least of the group minima is the minimum of the table. */
  lemma {:induction false} GroupMinsConserve(rows: seq<Row>, groups: seq<string>, val: Row -> int)
    requires rows != []
    ensures var all := TrimRows(rows, groups);
      && (forall k :: k in KeysOf(rows, groups) ==>
            GroupOf(rows, groups, k) != [] && MinOf(all, val) <= MinOf(GroupOf(rows, groups, k), val))
      && (exists k :: k in KeysOf(rows, groups) && GroupOf(rows, groups, k) != []
            && MinOf(GroupOf(rows, groups, k), val) == MinOf(all, val))
  {
    var all, ks := TrimRows(rows, groups), KeysOf(rows, groups);
    GroupsArePartition(rows, groups);
    forall k | k in ks
      ensures GroupOf(rows, groups, k) != [] && MinOf(all, val) <= MinOf(GroupOf(rows, groups, k), val)
    {
      GroupBoundedByTable(rows, groups, ks, k, val);
    }
    var k := LeastGroup(rows, groups, ks, val);
  }

  /** Some group attains the minimum of the table. */
  lemma {:induction false} LeastGroup(rows: seq<Row>, groups: seq<string>, ks: seq<string>, val: Row -> int)
    returns (k: string)
    requires rows != [] && ks == KeysOf(rows, groups)
    requires multiset(Regrouped(rows, groups, ks)) == multiset(TrimRows(rows, groups))
    ensures k in ks && GroupOf(rows, groups, k) != []
    ensures MinOf(GroupOf(rows, groups, k), val) == MinOf(TrimRows(rows, groups), val)
  {
    var all := TrimRows(rows, groups);
    MinOfIsLeast(all, val);
    var i :| 0 <= i < |all| && val(all[i]) == MinOf(all, val);
    assert all[i] in multiset(Regrouped(rows, groups, ks));
    k := RegroupedOwner(rows, groups, ks, all[i]);
    var g := GroupOf(rows, groups, k);
    GroupBoundedByTable(rows, groups, ks, k, val);
    MinOfIsLeast(g, val);
    var j :| 0 <= j < |g| && g[j] == all[i];
    assert MinOf(g, val) <= val(g[j]);
  }

  lemma {:induction false} GroupBoundedByTable(rows: seq<Row>, groups: seq<string>, ks: seq<string>, k: string,
                                               val: Row -> int)
    requires rows != [] && ks == KeysOf(rows, groups) && k in ks
    requires multiset(Regrouped(rows, groups, ks)) == multiset(TrimRows(rows, groups))
    ensures GroupOf(rows, groups, k) != []
    ensures MinOf(TrimRows(rows, groups), val) <= MinOf(GroupOf(rows, groups, k), val)
  {
    var all, g := TrimRows(rows, groups), GroupOf(rows, groups, k);
    GroupOfNonEmpty(rows, groups, k);
    MinOfIsLeast(all, val);
    MinOfIsLeast(g, val);
    var j :| 0 <= j < |g| && val(g[j]) == MinOf(g, val);
    RegroupedContains(rows, groups, ks, k, g[j]);
    assert g[j] in multiset(all);
  }

  lemma {:induction false} RegroupedContains(rows: seq<Row>, groups: seq<string>, keys: seq<string>, k: string, x: Row)
    requires k in keys && x in GroupOf(rows, groups, k)
    ensures x in Regrouped(rows, groups, keys)
  {
    var n := |keys| - 1;
    if k != keys[n] {
      RegroupedContains(rows, groups, keys[..n], k, x);
    }
  }

  lemma {:induction false} RegroupedOwner(rows: seq<Row>, groups: seq<string>, keys: seq<string>, x: Row)
    returns (k: string)
    requires x in Regrouped(rows, groups, keys)
    ensures k in keys && x in GroupOf(rows, groups, k)
  {
    var n := |keys| - 1;
    if x in GroupOf(rows, groups, keys[n]) {
      k := keys[n];
    } else {
      k := RegroupedOwner(rows, groups, keys[..n], x);
    }
  }

  // -------------------------------------------------------- order independence

  /** What a row adds to the group of a key. */
  function InGroup(groups: seq<string>, key: string): Row -> seq<Row> {
    (x: Row) => if GroupKey(x, groups) == key then [TrimRow(x, groups)] else []
  }

  lemma {:induction false} GroupIsFlatMap(rows: seq<Row>, groups: seq<string>, key: string)
    ensures GroupOf(rows, groups, key) == FlatMap(rows, InGroup(groups, key))
  {
    if rows != [] {
      var n := |rows| - 1;
      GroupIsFlatMap(rows[..n], groups, key);
      FlatMapOneMore(rows, InGroup(groups, key), n);
      assert rows[..n + 1] == rows;
    }
  }

  /** A group has the same rows whatever the order of the table. */
  lemma {:induction false} GroupPermuted(a: seq<Row>, b: seq<Row>, groups: seq<string>, key: string)
    requires multiset(a) == multiset(b)
    ensures multiset(GroupOf(a, groups, key)) == multiset(GroupOf(b, groups, key))
  {
    GroupIsFlatMap(a, groups, key);
    GroupIsFlatMap(b, groups, key);
    FlatMapPermuted(a, b, InGroup(groups, key));
  }

  lemma {:induction false} KeysPermuted(a: seq<Row>, b: seq<Row>, groups: seq<string>)
    requires multiset(a) == multiset(b)
    ensures forall k :: k in KeysOf(a, groups) <==> k in KeysOf(b, groups)
  {
    forall k ensures k in KeysOf(a, groups) <==> k in KeysOf(b, groups) {
      GroupPermuted(a, b, groups, k);
      GroupOfNonEmpty(a, groups, k);
      GroupOfNonEmpty(b, groups, k);
    }
  }
}
