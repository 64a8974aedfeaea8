/** The offloading scheduler: the backtracking search over replica assignments
    and the score-driven choice. */
module Scheduling {
  import opened Snippets

  // ------------------------------------------------------------- assignments

  /** A float of the search: the score of no SST at all is 0/0. */
  datatype Score = NaN | Finite(value: real)

  predicate Greater(a: Score, b: Score) {
    a.Finite? && b.Finite? && a.value > b.value
  }

  function Used(sel: seq<string>): set<string> {
    set c | c in sel
  }

  /** How often the most used CSD is selected. */
  function Duplication(sel: seq<string>): nat {
    if sel == [] then 0
    else
      var d := Duplication(sel[..|sel| - 1]);
      var m := multiset(sel)[sel[|sel| - 1]];
      if m > d then m else d
  }

  lemma {:induction false} DuplicationIsLargest(sel: seq<string>)
    ensures forall c :: c in sel ==> 0 < multiset(sel)[c] <= Duplication(sel)
    ensures sel != [] ==> exists c :: c in sel && multiset(sel)[c] == Duplication(sel)
  {
    if sel != [] {
      var n := |sel| - 1;
      var init, x := sel[..n], sel[n];
      assert sel == init + [x];
      DuplicationIsLargest(init);
      assert multiset(sel) == multiset(init) + multiset{x};
      assert multiset(sel)[x] >= 1;
      if Duplication(sel) == multiset(sel)[x] {
        assert x in sel;
      } else {
        assert Duplication(sel) == Duplication(init) >= 1;
        assert init != [];
        var c :| c in init && multiset(init)[c] == Duplication(init);
        assert c in sel && multiset(sel)[c] == Duplication(sel);
      }
    }
  }

  /** Used CSDs per largest multiplicity. */
  function ScoreOf(sel: seq<string>): real
    requires sel != []
  {
    DuplicationIsLargest(sel);
    |Used(sel)| as real / Duplication(sel) as real
  }

  /** `full` picks one replica for every SST and starts with `sel`. */
  ghost predicate Completes(ssts: seq<Sst>, sel: seq<string>, full: seq<string>) {
    && |full| == |ssts| && sel <= full
    && forall i :: |sel| <= i < |ssts| ==> full[i] in Ids(ssts[i])
  }

  /** `best` is the largest score over the completions of `sel`, or -1 when there
      are none. */
  ghost predicate Best(best: real, ssts: seq<Sst>, sel: seq<string>)
    requires ssts != []
  {
    && (forall full :: Completes(ssts, sel, full) ==> ScoreOf(full) <= best)
    && ((exists full :: Completes(ssts, sel, full) && ScoreOf(full) == best)
        || (best == -1.0 && forall full :: !Completes(ssts, sel, full)))
  }

  lemma {:induction false} ScorePositive(sel: seq<string>)
    requires sel != []
    ensures ScoreOf(sel) > 0.0
  {
    DuplicationIsLargest(sel);
    assert sel[0] in Used(sel);
    assert |Used(sel)| >= 1;
    var a, b := |Used(sel)| as real, Duplication(sel) as real;
    assert a >= 1.0 && b >= 1.0;
  }

  /** The best score by recursion over the levels, -1 where there is no completion. */
  function BestOf(ssts: seq<Sst>, sel: seq<string>): real
    requires ssts != [] && |sel| <= |ssts|
    decreases |ssts| - |sel|, 1, 0
  {
    if |sel| == |ssts| then ScoreOf(sel) else BestAmong(ssts, sel, |ssts[|sel|].replicas|)
  }

  /** The best score over the first `k` replicas of the next SST; -1 without any. */
  function BestAmong(ssts: seq<Sst>, sel: seq<string>, k: nat): real
    requires |sel| < |ssts| && k <= |ssts[|sel|].replicas|
    decreases |ssts| - |sel|, 0, k
  {
    if k == 0 then -1.0
    else
      var before, last := BestAmong(ssts, sel, k - 1), BestOf(ssts, sel + [Ids(ssts[|sel|])[k - 1]]);
      if last > before then last else before
  }

  /** The first of the `k` replicas that reaches their best score. */
  function FirstBest(ssts: seq<Sst>, sel: seq<string>, k: nat): (i: nat)
    requires |sel| < |ssts| && 0 < k <= |ssts[|sel|].replicas|
    ensures i < k
  {
    if k == 1 || BestOf(ssts, sel + [Ids(ssts[|sel|])[k - 1]]) > BestAmong(ssts, sel, k - 1) then k - 1
    else FirstBest(ssts, sel, k - 1)
  }

  lemma {:induction false} FirstBestReaches(ssts: seq<Sst>, sel: seq<string>, k: nat)
    requires |sel| < |ssts| && 0 < k <= |ssts[|sel|].replicas| && BestAmong(ssts, sel, k) > -1.0
    ensures BestOf(ssts, sel + [Ids(ssts[|sel|])[FirstBest(ssts, sel, k)]]) == BestAmong(ssts, sel, k)
  {
    if k > 1 && BestOf(ssts, sel + [Ids(ssts[|sel|])[k - 1]]) <= BestAmong(ssts, sel, k - 1) {
      FirstBestReaches(ssts, sel, k - 1);
    }
  }

  lemma {:induction false} AmongBound(ssts: seq<Sst>, sel: seq<string>, j: nat, k: nat)
    requires |sel| < |ssts| && j < k <= |ssts[|sel|].replicas|
    ensures BestOf(ssts, sel + [Ids(ssts[|sel|])[j]]) <= BestAmong(ssts, sel, k)
  {
    if j < k - 1 {
      AmongBound(ssts, sel, j, k - 1);
    }
  }

  lemma {:induction false} NextEntry(ssts: seq<Sst>, sel: seq<string>, full: seq<string>) returns (j: nat)
    requires |sel| < |ssts| && Completes(ssts, sel, full)
    ensures j < |ssts[|sel|].replicas| && Completes(ssts, sel + [Ids(ssts[|sel|])[j]], full)
  {
    var ids := Ids(ssts[|sel|]);
    j :| 0 <= j < |ids| && ids[j] == full[|sel|];
    assert full[..|sel| + 1] == sel + [ids[j]];
  }

  lemma {:induction false} BestOfBounds(ssts: seq<Sst>, sel: seq<string>, full: seq<string>)
    requires ssts != [] && |sel| <= |ssts| && Completes(ssts, sel, full)
    ensures ScoreOf(full) <= BestOf(ssts, sel)
    decreases |ssts| - |sel|
  {
    if |sel| == |ssts| {
      assert full == sel;
    } else {
      var j := NextEntry(ssts, sel, full);
      BestOfBounds(ssts, sel + [Ids(ssts[|sel|])[j]], full);
      AmongBound(ssts, sel, j, |ssts[|sel|].replicas|);
    }
  }

  lemma {:induction false} AmongStarts(ssts: seq<Sst>, sel: seq<string>, k: nat)
    requires |sel| < |ssts| && k <= |ssts[|sel|].replicas|
    ensures BestAmong(ssts, sel, k) >= -1.0
  {
    if k > 0 {
      AmongStarts(ssts, sel, k - 1);
    }
  }

  lemma {:induction false} Shorter(ssts: seq<Sst>, sel: seq<string>, j: nat, full: seq<string>)
    requires |sel| < |ssts| && j < |ssts[|sel|].replicas|
    requires Completes(ssts, sel + [Ids(ssts[|sel|])[j]], full)
    ensures Completes(ssts, sel, full)
  {
    var ids := Ids(ssts[|sel|]);
    var more := sel + [ids[j]];
    assert ids[j] in ids;
    assert full[|sel|] == more[|sel|];
    assert sel == more[..|sel|] <= full;
  }

  lemma {:induction false} BestOfReached(ssts: seq<Sst>, sel: seq<string>) returns (full: seq<string>)
    requires ssts != [] && |sel| <= |ssts| && BestOf(ssts, sel) > -1.0
    ensures Completes(ssts, sel, full) && ScoreOf(full) == BestOf(ssts, sel)
    decreases |ssts| - |sel|
  {
    if |sel| == |ssts| {
      full := sel;
    } else {
      var n := |ssts[|sel|].replicas|;
      FirstBestReaches(ssts, sel, n);
      var j := FirstBest(ssts, sel, n);
      full := BestOfReached(ssts, sel + [Ids(ssts[|sel|])[j]]);
      Shorter(ssts, sel, j, full);
    }
  }

  /** The recursion finds the largest score over all completions. */
  lemma {:induction false} BestOfIsBest(ssts: seq<Sst>, sel: seq<string>)
    requires ssts != [] && |sel| <= |ssts|
    ensures Best(BestOf(ssts, sel), ssts, sel)
  {
    forall full | Completes(ssts, sel, full) ensures 0.0 < ScoreOf(full) <= BestOf(ssts, sel) {
      ScorePositive(full);
      BestOfBounds(ssts, sel, full);
    }
    if BestOf(ssts, sel) > -1.0 {
      var full := BestOfReached(ssts, sel);
    } else {
      NotBelow(ssts, sel);
    }
  }

  lemma {:induction false} NotBelow(ssts: seq<Sst>, sel: seq<string>)
    requires ssts != [] && |sel| <= |ssts|
    ensures BestOf(ssts, sel) >= -1.0
  {
    if |sel| == |ssts| {
      ScorePositive(sel);
    } else {
      AmongStarts(ssts, sel, |ssts[|sel|].replicas|);
    }
  }

  // -------------------------------------------------------------- the search

  /** What the recursion leaves in the record of the best selection: every level
      copies its own partial stack, after the levels below have done so. */
  function Recorded(ssts: seq<Sst>, sel: seq<string>, k: nat, record: seq<string>): seq<string>
    requires |sel| <= |ssts| && (|sel| < |ssts| ==> k <= |ssts[|sel|].replicas|)
    decreases |ssts| - |sel|, if |sel| < |ssts| then |ssts[|sel|].replicas| - k else 0
  {
    if |sel| == |ssts| || k == |ssts[|sel|].replicas| then record
    else
      var more := sel + [Ids(ssts[|sel|])[k]];
      Recorded(ssts, sel, k + 1,
               if BestOf(ssts, more) > BestAmong(ssts, sel, k) then more else Recorded(ssts, more, 0, record))
  }

  lemma {:induction false} SearchStep(ssts: seq<Sst>, sel: seq<string>, k: nat, record: seq<string>)
    requires |sel| < |ssts| && k < |ssts[|sel|].replicas|
    ensures var more := sel + [Ids(ssts[|sel|])[k]];
      var found, best := BestOf(ssts, more), BestAmong(ssts, sel, k);
      && BestAmong(ssts, sel, k + 1) == (if found > best then found else best)
      && Recorded(ssts, sel, k, record)
         == Recorded(ssts, sel, k + 1, if found > best then more else Recorded(ssts, more, 0, record))
  {
  }

  class Search {
    var selectedCsd: seq<string>
    var globalCsd: seq<string>

    constructor ()
      ensures selectedCsd == [] && globalCsd == []
    {
      selectedCsd, globalCsd := [], [];
    }

    /** `dfs_for_dsi_algorithm`: the best score over all completions of the
        current stack, and the stack as it was. */
    method Dfs(ssts: seq<Sst>, si: nat) returns (score: Score)
      requires |selectedCsd| == si <= |ssts|
      modifies this
      ensures selectedCsd == old(selectedCsd)
      ensures ssts == [] ==> score == NaN
      ensures ssts != [] ==> score == Finite(BestOf(ssts, selectedCsd)) && Best(score.value, ssts, selectedCsd)
      ensures globalCsd == Recorded(ssts, selectedCsd, 0, old(globalCsd))
      decreases |ssts| - si, 1
    {
      if |selectedCsd| == |ssts| {
        score := VarianceScore(selectedCsd);
        if ssts != [] {
          BestOfIsBest(ssts, selectedCsd);
        }
        return;
      }
      ghost var sel, record := selectedCsd, Recorded(ssts, selectedCsd, 0, globalCsd);
      var best := -1.0;
      for ci := 0 to |ssts[si].replicas|
        invariant selectedCsd == sel
        invariant best == BestAmong(ssts, sel, ci)
        invariant record == Recorded(ssts, sel, ci, globalCsd)
      {
        best := TryReplica(ssts, si, ci, best);
      }
      BestOfIsBest(ssts, sel);
      score := Finite(best);
    }

    /** The loop body: push, search below, copy the stack if that is better, pop. */
    method TryReplica(ssts: seq<Sst>, si: nat, ci: nat, best: real) returns (top: real)
      requires |selectedCsd| == si < |ssts| && ci < |ssts[si].replicas| && best == BestAmong(ssts, selectedCsd, ci)
      modifies this
      ensures selectedCsd == old(selectedCsd)
      ensures top == BestAmong(ssts, selectedCsd, ci + 1)
      ensures Recorded(ssts, selectedCsd, ci + 1, globalCsd) == Recorded(ssts, selectedCsd, ci, old(globalCsd))
      decreases |ssts| - si, 0
    {
      ghost var sel, more := selectedCsd, selectedCsd + [Ids(ssts[si])[ci]];
      SearchStep(ssts, sel, ci, globalCsd);
      selectedCsd := selectedCsd + [ssts[si].replicas[ci].csdId];
      assert selectedCsd == more;
      var found := Dfs(ssts, si + 1);
      top := best;
      if Greater(found, Finite(best)) {
        top := found.value;
        globalCsd := selectedCsd;
      }
      selectedCsd := selectedCsd[..|selectedCsd| - 1];
      assert selectedCsd == sel;
    }
  }

  /** The leaf of the recursion: count the CSDs of the stack in a map, take the
      largest count. */
  method VarianceScore(sel: seq<string>) returns (score: Score)
    ensures sel == [] ==> score == NaN
    ensures sel != [] ==> score == Finite(ScoreOf(sel))
  {
    var counts := CountCsds(sel);
    var maxDuplication := LargestCount(counts);
    SomeCount(sel, counts);
    if maxDuplication == 0 {
      return NaN;
    }
    LargestIsDuplication(sel, counts, maxDuplication);
    return Finite(|counts| as real / maxDuplication as real);
  }

  ghost predicate CountsOf(counts: map<string, nat>, sel: seq<string>) {
    counts.Keys == Used(sel) && forall c :: c in counts ==> counts[c] == multiset(sel)[c]
  }

  method CountCsds(sel: seq<string>) returns (counts: map<string, nat>)
    ensures CountsOf(counts, sel)
  {
    counts := map[];
    var temp := sel;
    while temp != []
      invariant temp <= sel
      invariant CountsOf(counts, sel[|temp|..])
      decreases |temp|
    {
      var n := |temp| - 1;
      var top := temp[n];
      assert sel[n..] == [top] + sel[n + 1..];
      if top !in counts {
        counts := counts[top := 1];
      } else {
        counts := counts[top := counts[top] + 1];
      }
      temp := temp[..n];
    }
    assert sel[0..] == sel;
  }

  method LargestCount(counts: map<string, nat>) returns (m: nat)
    ensures forall c :: c in counts ==> counts[c] <= m
    ensures m == 0 || exists c :: c in counts && counts[c] == m
  {
    m := 0;
    var todo := counts.Keys;
    while todo != {}
      invariant todo <= counts.Keys
      invariant forall c :: c in counts && c !in todo ==> counts[c] <= m
      invariant m == 0 || exists c :: c in counts && counts[c] == m
    {
      var c :| c in todo;
      m := if counts[c] > m then counts[c] else m;
      todo := todo - {c};
    }
  }

  lemma {:induction false} SomeCount(sel: seq<string>, counts: map<string, nat>)
    requires CountsOf(counts, sel)
    ensures sel != [] ==> sel[0] in counts && counts[sel[0]] > 0
  {
    assert sel != [] ==> multiset(sel)[sel[0]] > 0;
  }

  lemma {:induction false} LargestIsDuplication(sel: seq<string>, counts: map<string, nat>, m: nat)
    requires CountsOf(counts, sel) && m > 0
    requires forall c :: c in counts ==> counts[c] <= m
    requires exists c :: c in counts && counts[c] == m
    ensures sel != [] && m == Duplication(sel) && |counts| == |Used(sel)|
  {
    DuplicationIsLargest(sel);
    var c :| c in counts && counts[c] == m;
    assert c in sel;
    var d :| d in sel && multiset(sel)[d] == Duplication(sel);
    assert d in counts;
    assert |counts| == |counts.Keys|;
  }

  // -------------------------------------------------------- when it has a value

  /** A complete selection exists exactly when every remaining SST has a replica. */
  lemma {:induction false} CompletionIff(ssts: seq<Sst>, sel: seq<string>)
    requires |sel| <= |ssts|
    ensures (exists full :: Completes(ssts, sel, full)) <==> forall i :: |sel| <= i < |ssts| ==> ssts[i].replicas != []
    decreases |ssts| - |sel|
  {
    if |sel| == |ssts| {
      assert Completes(ssts, sel, sel);
    } else if ssts[|sel|].replicas != [] {
      var c := Ids(ssts[|sel|])[0];
      CompletionIff(ssts, sel + [c]);
      if full :| Completes(ssts, sel + [c], full) {
        assert full[|sel|] == c;
        assert Completes(ssts, sel, full);
      }
      if full :| Completes(ssts, sel, full) {
        forall i | |sel| <= i < |ssts| ensures ssts[i].replicas != [] {
          assert full[i] in Ids(ssts[i]);
        }
      }
    } else {
      forall full ensures !Completes(ssts, sel, full) {
        assert Ids(ssts[|sel|]) == [];
      }
    }
  }

  /** The search fails, with -1, exactly when some SST has no replica. */
  lemma {:induction false} NoAssignmentIff(best: real, ssts: seq<Sst>)
    requires ssts != [] && Best(best, ssts, [])
    ensures best == -1.0 <==> exists i :: 0 <= i < |ssts| && ssts[i].replicas == []
    ensures best != -1.0 ==> best > 0.0
  {
    CompletionIff(ssts, []);
    forall full | Completes(ssts, [], full) ensures ScoreOf(full) > 0.0 {
      ScorePositive(full);
    }
  }

  // --------------------------------------------------------------- upper bound

  /** The CSDs that hold any replica. */
  function Csds(ssts: seq<Sst>): set<string> {
    set i, c | 0 <= i < |ssts| && c in Ids(ssts[i]) :: c
  }

  function CeilDiv(a: nat, b: nat): nat
    requires b > 0
  {
    (a + b - 1) / b
  }

  lemma {:induction false} Pigeons(ms: multiset<string>, holes: set<string>, m: nat)
    requires forall c :: c in ms ==> c in holes && ms[c] <= m
    ensures |ms| <= |holes| * m
  {
    if holes == {} {
      assert ms == multiset{};
    } else {
      var c :| c in holes;
      Pigeons(ms[c := 0], holes - {c}, m);
      assert |ms| == |ms[c := 0]| + ms[c];
      assert |holes| == |holes - {c}| + 1;
      assert |holes| * m == |holes - {c}| * m + m;
    }
  }

  lemma {:induction false} SubsetSize(a: set<string>, b: set<string>)
    requires a <= b
    ensures |a| <= |b|
  {
    if a != {} {
      var c :| c in a;
      SubsetSize(a - {c}, b - {c});
    }
  }

  lemma {:induction false} Scaled(k: nat, a: nat, b: nat)
    ensures a <= b ==> k * a <= k * b
  {
  }

  lemma {:induction false} QuotientBound(n: nat, k: nat, m: nat)
    requires k > 0 && n <= k * m
    ensures CeilDiv(n, k) <= m
  {
    var x := n + k - 1;
    assert x == k * (x / k) + x % k;
    Scaled(k, m + 1, x / k);
    assert k * (m + 1) == k * m + k;
  }

  lemma {:induction false} RatioBound(a: nat, b: nat, p: nat, q: nat)
    requires b > 0 && q > 0 && a <= p && q <= b
    ensures a as real / b as real <= p as real / q as real
  {
    var x, y, z, w := a as real, b as real, p as real, q as real;
    assert x / y <= z / y;
    assert z / y <= z / w;
  }

  lemma {:induction false} UsesListedCsds(ssts: seq<Sst>, full: seq<string>)
    requires Completes(ssts, [], full)
    ensures Used(full) <= Csds(ssts)
  {
    forall c | c in full ensures c in Csds(ssts) {
      var i :| 0 <= i < |full| && full[i] == c;
      assert c in Ids(ssts[i]);
    }
  }

  lemma {:induction false} CeilPositive(n: nat, k: nat)
    requires n > 0 && k > 0
    ensures CeilDiv(n, k) > 0
  {
    var x := n + k - 1;
    assert x == k * (x / k) + x % k;
    Scaled(k, x / k, 0);
  }

  /** Some CSD takes at least the ceiling of SSTs per CSD. */
  lemma {:induction false} Pigeonhole(full: seq<string>, all: set<string>)
    requires full != [] && Used(full) <= all
    ensures |all| > 0 && CeilDiv(|full|, |all|) <= Duplication(full)
  {
    DuplicationIsLargest(full);
    assert full[0] in Used(full);
    SubsetSize({full[0]}, all);
    assert forall c :: c in multiset(full) ==> c in Used(full);
    Pigeons(multiset(full), all, Duplication(full));
    assert |multiset(full)| == |full|;
    QuotientBound(|full|, |all|, Duplication(full));
  }

  /** No selection beats the number of CSDs per ceiling of SSTs per CSD. */
  lemma {:induction false} ScoreBound(ssts: seq<Sst>, full: seq<string>)
    requires ssts != [] && Completes(ssts, [], full)
    ensures |Csds(ssts)| > 0 && CeilDiv(|ssts|, |Csds(ssts)|) > 0
    ensures ScoreOf(full) <= |Csds(ssts)| as real / CeilDiv(|ssts|, |Csds(ssts)|) as real
  {
    var all := Csds(ssts);
    UsesListedCsds(ssts, full);
    Pigeonhole(full, all);
    CeilPositive(|ssts|, |all|);
    SubsetSize(Used(full), all);
    DuplicationIsLargest(full);
    RatioBound(|Used(full)|, Duplication(full), |all|, CeilDiv(|ssts|, |all|));
  }

  /** The bound on what the search returns. */
  lemma {:induction false} SearchBound(best: real, ssts: seq<Sst>)
    requires ssts != [] && Best(best, ssts, []) && best != -1.0
    ensures |Csds(ssts)| > 0 && CeilDiv(|ssts|, |Csds(ssts)|) > 0
    ensures best <= |Csds(ssts)| as real / CeilDiv(|ssts|, |Csds(ssts)|) as real
  {
    var full :| Completes(ssts, [], full) && ScoreOf(full) == best;
    ScoreBound(ssts, full);
  }

  // ------------------------------------------------- what the search remembers

  /** Every SST has a replica. */
  ghost predicate Placed(ssts: seq<Sst>) {
    forall i :: 0 <= i < |ssts| ==> ssts[i].replicas != []
  }

  lemma {:induction false} BestOfPositive(ssts: seq<Sst>, sel: seq<string>)
    requires ssts != [] && |sel| <= |ssts| && Placed(ssts)
    ensures BestOf(ssts, sel) > 0.0
    decreases |ssts| - |sel|, 1, 0
  {
    if |sel| == |ssts| {
      ScorePositive(sel);
    } else {
      BestAmongPositive(ssts, sel, |ssts[|sel|].replicas|);
    }
  }

  lemma {:induction false} BestAmongPositive(ssts: seq<Sst>, sel: seq<string>, k: nat)
    requires |sel| < |ssts| && 0 < k <= |ssts[|sel|].replicas| && Placed(ssts)
    ensures BestAmong(ssts, sel, k) > 0.0
    decreases |ssts| - |sel|, 0, k
  {
    BestOfPositive(ssts, sel + [Ids(ssts[|sel|])[k - 1]]);
  }

  /** The last replica of the next SST beats all before it. */
  predicate LastImproves(ssts: seq<Sst>, sel: seq<string>)
    requires |sel| < |ssts| && ssts[|sel|].replicas != []
  {
    var m := |ssts[|sel|].replicas| - 1;
    BestOf(ssts, sel + [Ids(ssts[|sel|])[m]]) > BestAmong(ssts, sel, m)
  }

  /** What stays recorded after the search below `sel`: on the last level the
      first best replica; on a level before it the partial stack if the last
      replica improves, else what the search below that replica leaves. */
  function Final(ssts: seq<Sst>, sel: seq<string>): seq<string>
    requires |sel| < |ssts| && Placed(ssts)
    decreases |ssts| - |sel|
  {
    var ids := Ids(ssts[|sel|]);
    if |sel| == |ssts| - 1 then sel + [ids[FirstBest(ssts, sel, |ids|)]]
    else if LastImproves(ssts, sel) then sel + [ids[|ids| - 1]]
    else Final(ssts, sel + [ids[|ids| - 1]])
  }

  lemma {:induction false} RecordedOnLast(ssts: seq<Sst>, sel: seq<string>, k: nat, record: seq<string>)
    requires |sel| == |ssts| - 1 && k <= |ssts[|sel|].replicas| && Placed(ssts)
    requires k > 0 ==> record == sel + [Ids(ssts[|sel|])[FirstBest(ssts, sel, k)]]
    ensures Recorded(ssts, sel, k, record) == Final(ssts, sel)
    decreases |ssts[|sel|].replicas| - k
  {
    if k < |ssts[|sel|].replicas| {
      var more := sel + [Ids(ssts[|sel|])[k]];
      var next := if BestOf(ssts, more) > BestAmong(ssts, sel, k) then more else record;
      BestOfPositive(ssts, more);
      SearchStep(ssts, sel, k, record);
      RecordedOnLast(ssts, sel, k + 1, next);
    }
  }

  lemma {:induction false} RecordedIsFinal(ssts: seq<Sst>, sel: seq<string>, k: nat, record: seq<string>)
    requires |sel| < |ssts| && k < |ssts[|sel|].replicas| && Placed(ssts)
    requires |sel| == |ssts| - 1 ==> k == 0
    ensures Recorded(ssts, sel, k, record) == Final(ssts, sel)
    decreases |ssts| - |sel|, |ssts[|sel|].replicas| - k
  {
    if |sel| == |ssts| - 1 {
      RecordedOnLast(ssts, sel, k, record);
    } else {
      var more := sel + [Ids(ssts[|sel|])[k]];
      RecordedIsFinal(ssts, more, 0, record);
      if k + 1 < |ssts[|sel|].replicas| {
        RecordedIsFinal(ssts, sel, k + 1,
                        if BestOf(ssts, more) > BestAmong(ssts, sel, k) then more else Final(ssts, more));
      }
    }
  }

  /** The path of last replicas. */
  function Lasts(ssts: seq<Sst>, i: nat): (sel: seq<string>)
    requires i <= |ssts| && Placed(ssts)
    ensures |sel| == i
  {
    seq(i, j requires 0 <= j < i => Ids(ssts[j])[|ssts[j].replicas| - 1])
  }

  lemma {:induction false} LastsNext(ssts: seq<Sst>, i: nat)
    requires i < |ssts| && Placed(ssts)
    ensures Lasts(ssts, i + 1) == Lasts(ssts, i) + [Ids(ssts[i])[|ssts[i].replicas| - 1]]
  {
  }

  lemma {:induction false} LastsAreReplicas(ssts: seq<Sst>, i: nat)
    requires i <= |ssts| && Placed(ssts)
    ensures forall j :: 0 <= j < i ==> Lasts(ssts, i)[j] in Ids(ssts[j])
  {
  }

  /** The last replica of the next SST reaches exactly what those before it reach. */
  predicate LastTies(ssts: seq<Sst>, sel: seq<string>)
    requires |sel| < |ssts| && ssts[|sel|].replicas != []
  {
    var m := |ssts[|sel|].replicas| - 1;
    BestOf(ssts, sel + [Ids(ssts[|sel|])[m]]) == BestAmong(ssts, sel, m)
  }

  /** The same two at depth `j` of the path of last replicas, and what can be
      reached from there. */
  predicate ImprovesAt(ssts: seq<Sst>, j: nat)
    requires j < |ssts| && Placed(ssts)
  {
    LastImproves(ssts, Lasts(ssts, j))
  }

  predicate TiesAt(ssts: seq<Sst>, j: nat)
    requires j < |ssts| && Placed(ssts)
  {
    LastTies(ssts, Lasts(ssts, j))
  }

  function ReachAt(ssts: seq<Sst>, j: nat): real
    requires j <= |ssts| && ssts != [] && Placed(ssts)
  {
    BestOf(ssts, Lasts(ssts, j))
  }

  lemma {:induction false} LastEntry(ssts: seq<Sst>, sel: seq<string>, k: nat)
    requires |sel| == |ssts| - 1 && k < |ssts[|sel|].replicas|
    requires forall j :: 0 <= j < |sel| ==> sel[j] in Ids(ssts[j])
    ensures Completes(ssts, [], sel + [Ids(ssts[|sel|])[k]])
  {
    var ids := Ids(ssts[|sel|]);
    assert ids[k] in ids;
    var full := sel + [ids[k]];
    forall i | 0 <= i < |ssts| ensures full[i] in Ids(ssts[i]) {
      if i == |sel| {
        assert full[i] == ids[k];
      } else {
        assert full[i] == sel[i];
      }
    }
  }

  /** On the last level the record is a selection with the best score there. */
  lemma {:induction false} FinalOnLast(ssts: seq<Sst>, sel: seq<string>)
    requires |sel| == |ssts| - 1 && Placed(ssts)
    requires forall j :: 0 <= j < |sel| ==> sel[j] in Ids(ssts[j])
    ensures Completes(ssts, [], Final(ssts, sel))
    ensures ScoreOf(Final(ssts, sel)) == BestOf(ssts, sel)
  {
    var k := FirstBest(ssts, sel, |ssts[|sel|].replicas|);
    LastEntry(ssts, sel, k);
    BestOfPositive(ssts, sel);
    FirstBestReaches(ssts, sel, |ssts[|sel|].replicas|);
  }

  lemma {:induction false} FinalDown(ssts: seq<Sst>, i: nat)
    requires i < |ssts| - 1 && Placed(ssts)
    ensures ImprovesAt(ssts, i) ==> |Final(ssts, Lasts(ssts, i))| == i + 1
    ensures !ImprovesAt(ssts, i) ==> Final(ssts, Lasts(ssts, i)) == Final(ssts, Lasts(ssts, i + 1))
  {
    LastsNext(ssts, i);
  }

  lemma {:induction false} FinalAtEnd(ssts: seq<Sst>, i: nat)
    requires i < |ssts| && Placed(ssts)
    requires forall j :: i <= j < |ssts| - 1 ==> !ImprovesAt(ssts, j)
    ensures Final(ssts, Lasts(ssts, i)) == Final(ssts, Lasts(ssts, |ssts| - 1))
    decreases |ssts| - i
  {
    if i < |ssts| - 1 {
      FinalDown(ssts, i);
      FinalAtEnd(ssts, i + 1);
    }
  }

  /** Lengths that repeat until the first improvement stay below the end. */
  lemma {:induction false} ShortOf(lengths: seq<nat>, improves: seq<bool>, i: nat, j: nat)
    requires |lengths| == |improves| + 1 && i <= j < |improves| && improves[j]
    requires forall k :: 0 <= k < |improves| && improves[k] ==> lengths[k] == k + 1
    requires forall k :: 0 <= k < |improves| && !improves[k] ==> lengths[k] == lengths[k + 1]
    ensures lengths[i] < |lengths|
    decreases j - i
  {
    if !improves[i] {
      ShortOf(lengths, improves, i + 1, j);
    }
  }

  lemma {:induction false} FinalShort(ssts: seq<Sst>, j: nat)
    requires j < |ssts| - 1 && Placed(ssts) && ImprovesAt(ssts, j)
    ensures |Final(ssts, [])| < |ssts|
  {
    var n := |ssts| - 1;
    var lengths := seq(n + 1, k requires 0 <= k < n + 1 => |Final(ssts, Lasts(ssts, k))|);
    var improves := seq(n, k requires 0 <= k < n => ImprovesAt(ssts, k));
    forall k | 0 <= k < n
      ensures improves[k] ==> lengths[k] == k + 1
      ensures !improves[k] ==> lengths[k] == lengths[k + 1]
    {
      FinalDown(ssts, k);
    }
    ShortOf(lengths, improves, 0, j);
    assert Lasts(ssts, 0) == [];
  }

  /** The record that the search leaves. */
  function Record(ssts: seq<Sst>): seq<string>
    requires ssts != []
  {
    Recorded(ssts, [], 0, [])
  }

  lemma {:induction false} RecordIsFinal(ssts: seq<Sst>)
    requires ssts != [] && Placed(ssts)
    ensures Record(ssts) == Final(ssts, [])
  {
    RecordedIsFinal(ssts, [], 0, []);
  }

  lemma {:induction false} RecordAtEnd(ssts: seq<Sst>)
    requires ssts != [] && Placed(ssts)
    requires forall j :: 0 <= j < |ssts| - 1 ==> !ImprovesAt(ssts, j)
    ensures Completes(ssts, [], Record(ssts))
    ensures ScoreOf(Record(ssts)) == ReachAt(ssts, |ssts| - 1)
  {
    var sel := Lasts(ssts, |ssts| - 1);
    RecordIsFinal(ssts);
    FinalAtEnd(ssts, 0);
    assert Record(ssts) == Final(ssts, sel);
    LastsAreReplicas(ssts, |ssts| - 1);
    FinalOnLast(ssts, sel);
  }

  /** The record is a selection exactly when, along the path of last replicas and
      on every level before the last, the last replica does not beat those
      before it. */
  lemma {:induction false} RecordIsSelectionIff(ssts: seq<Sst>)
    requires ssts != [] && Placed(ssts)
    ensures Completes(ssts, [], Record(ssts))
       <==> forall j :: 0 <= j < |ssts| - 1 ==> !ImprovesAt(ssts, j)
  {
    if j :| 0 <= j < |ssts| - 1 && ImprovesAt(ssts, j) {
      RecordIsFinal(ssts);
      FinalShort(ssts, j);
    } else {
      RecordAtEnd(ssts);
    }
  }

  lemma {:induction false} LastStep(ssts: seq<Sst>, sel: seq<string>)
    requires |sel| < |ssts| && ssts[|sel|].replicas != []
    ensures var ids := Ids(ssts[|sel|]); var below := BestOf(ssts, sel + [ids[|ids| - 1]]);
      && below <= BestOf(ssts, sel)
      && (below == BestOf(ssts, sel) <==> LastImproves(ssts, sel) || LastTies(ssts, sel))
    ensures !(LastImproves(ssts, sel) && LastTies(ssts, sel))
  {
    var m := |ssts[|sel|].replicas| - 1;
    assert BestOf(ssts, sel) == BestAmong(ssts, sel, m + 1);
  }

  /** One step down the path of last replicas. */
  lemma {:induction false} StepDown(ssts: seq<Sst>, i: nat)
    requires i < |ssts| && Placed(ssts)
    ensures ReachAt(ssts, i + 1) <= ReachAt(ssts, i)
    ensures ReachAt(ssts, i + 1) == ReachAt(ssts, i) <==> ImprovesAt(ssts, i) || TiesAt(ssts, i)
    ensures !(ImprovesAt(ssts, i) && TiesAt(ssts, i))
  {
    LastsNext(ssts, i);
    LastStep(ssts, Lasts(ssts, i));
  }

  lemma {:induction false} Descends(scores: seq<real>, i: nat, j: nat)
    requires i <= j < |scores| && forall k :: 0 <= k < |scores| - 1 ==> scores[k + 1] <= scores[k]
    ensures scores[j] <= scores[i]
    decreases j - i
  {
    if i < j {
      Descends(scores, i, j - 1);
    }
  }

  lemma {:induction false} Constant(scores: seq<real>, j: nat)
    requires j < |scores| && forall k :: 0 <= k < |scores| - 1 ==> scores[k + 1] == scores[k]
    ensures scores[j] == scores[0]
  {
    if j > 0 {
      Constant(scores, j - 1);
    }
  }

  /** On a descent whose steps keep the value exactly where they improve or tie. */
  lemma {:induction false} KeptIffTies(scores: seq<real>, improves: seq<bool>, ties: seq<bool>)
    requires |scores| == |improves| + 1 == |ties| + 1
    requires forall k :: 0 <= k < |scores| - 1 ==> scores[k + 1] <= scores[k]
    requires forall k :: 0 <= k < |ties| ==> (scores[k + 1] == scores[k] <==> improves[k] || ties[k])
    requires forall k :: 0 <= k < |ties| ==> !(improves[k] && ties[k])
    ensures (forall k :: 0 <= k < |improves| ==> !improves[k]) && scores[|ties|] == scores[0]
       <==> forall k :: 0 <= k < |ties| ==> ties[k]
  {
    if forall k :: 0 <= k < |ties| ==> ties[k] {
      Constant(scores, |ties|);
    } else {
      var k :| 0 <= k < |ties| && !ties[k];
      Descends(scores, 0, k);
      Descends(scores, k + 1, |ties|);
    }
  }

  lemma {:induction false} LastsKeepIff(ssts: seq<Sst>)
    requires ssts != [] && Placed(ssts)
    ensures (forall j :: 0 <= j < |ssts| - 1 ==> !ImprovesAt(ssts, j))
         && ReachAt(ssts, |ssts| - 1) == ReachAt(ssts, 0)
       <==> forall j :: 0 <= j < |ssts| - 1 ==> TiesAt(ssts, j)
  {
    var n := |ssts| - 1;
    var scores := seq(n + 1, j requires 0 <= j < n + 1 => ReachAt(ssts, j));
    var improves := seq(n, j requires 0 <= j < n => ImprovesAt(ssts, j));
    var ties := seq(n, j requires 0 <= j < n => TiesAt(ssts, j));
    forall k | 0 <= k < n
      ensures scores[k + 1] <= scores[k]
      ensures scores[k + 1] == scores[k] <==> improves[k] || ties[k]
      ensures !(improves[k] && ties[k])
    {
      StepDown(ssts, k);
    }
    KeptIffTies(scores, improves, ties);
    assert forall k :: 0 <= k < n ==> improves[k] == ImprovesAt(ssts, k);
    assert forall k :: 0 <= k < n ==> ties[k] == TiesAt(ssts, k);
  }

  /** The record is a best selection exactly when, along the same path, the last
      replica ties with the best before it. */
  lemma {:induction false} RecordIsBestIff(ssts: seq<Sst>)
    requires ssts != [] && Placed(ssts)
    ensures Completes(ssts, [], Record(ssts)) && ScoreOf(Record(ssts)) == BestOf(ssts, [])
       <==> forall j :: 0 <= j < |ssts| - 1 ==> TiesAt(ssts, j)
  {
    RecordIsFinal(ssts);
    RecordIsSelectionIff(ssts);
    LastsKeepIff(ssts);
    assert Lasts(ssts, 0) == [];
    if Completes(ssts, [], Record(ssts)) {
      RecordAtEnd(ssts);
    }
  }

  /** If the first of several SSTs has one replica, the record is that one entry,
      though one entry per SST is popped. */
  lemma {:induction false} RecordTooShort(ssts: seq<Sst>)
    requires |ssts| >= 2 && Placed(ssts) && |ssts[0].replicas| == 1
    ensures Record(ssts) == [Ids(ssts[0])[0]]
  {
    RecordIsFinal(ssts);
    BestOfPositive(ssts, [] + [Ids(ssts[0])[0]]);
    assert LastImproves(ssts, []);
  }

  lemma {:induction false} TwoScores(a: string, b: string)
    requires a != b
    ensures ScoreOf([a, b]) == 2.0 && ScoreOf([b, b]) == 0.5
  {
    assert Used([a, b]) == {a, b} && Used([b, b]) == {b};
    assert [a, b][..1] == [a] && [b, b][..1] == [b] && [a][..0] == [] && [b][..0] == [];
    assert multiset([a, b])[b] == 1 && multiset([b, b])[b] == 2 && multiset([a])[a] == 1 && multiset([b])[b] == 1;
    assert Duplication([a]) == 1 && Duplication([b]) == 1;
    assert Duplication([a, b]) == 1 && Duplication([b, b]) == 2;
  }

  lemma {:induction false} OnlyReplica(ssts: seq<Sst>, sel: seq<string>)
    requires |sel| == |ssts| - 1 && |ssts[|sel|].replicas| == 1
    ensures BestOf(ssts, sel) == ScoreOf(sel + [Ids(ssts[|sel|])[0]])
  {
    var full := sel + [Ids(ssts[|sel|])[0]];
    ScorePositive(full);
    assert BestOf(ssts, full) == ScoreOf(full);
    assert BestAmong(ssts, sel, 0) == -1.0;
    assert BestAmong(ssts, sel, 1) == ScoreOf(full);
  }

  lemma {:induction false} SecondSearch(ssts: seq<Sst>, a: string, b: string)
    requires |ssts| == 2 && |ssts[0].replicas| > 0 && Ids(ssts[1]) == [b]
    ensures BestOf(ssts, [a]) == ScoreOf([a, b]) && Final(ssts, [a]) == [a, b]
  {
    assert [a] + [b] == [a, b];
    OnlyReplica(ssts, [a]);
  }

  lemma {:induction false} FirstSearch(ssts: seq<Sst>, a: string, b: string)
    requires |ssts| == 2 && Ids(ssts[0]) == [a, b] && Ids(ssts[1]) == [b]
    requires BestOf(ssts, [a]) > BestOf(ssts, [b]) && BestOf(ssts, [a]) > 0.0
    ensures Final(ssts, []) == Final(ssts, [b])
  {
    assert [] + [a] == [a] && [] + [b] == [b];
    assert BestAmong(ssts, [], 1) == BestOf(ssts, [a]);
  }

  /** The record can be complete and yet the worst selection: with replicas on
      a and b for the first SST and on b for the second, b twice is recorded. */
  lemma {:induction false} RecordCanBeWorst(ssts: seq<Sst>, a: string, b: string)
    requires |ssts| == 2 && Ids(ssts[0]) == [a, b] && Ids(ssts[1]) == [b] && a != b
    ensures Record(ssts) == [b, b] && ScoreOf(Record(ssts)) == 0.5
    ensures Completes(ssts, [], [a, b]) && ScoreOf([a, b]) == 2.0
  {
    TwoScores(a, b);
    RecordIsFinal(ssts);
    SecondSearch(ssts, a, b);
    SecondSearch(ssts, b, b);
    FirstSearch(ssts, a, b);
  }

  // ------------------------------------------------------ the score-driven choice

  /** SSTs with a single replica burden their CSD: 2 for the first, then 1 each. */
  function Penalties(ssts: seq<Sst>): (pen: map<string, nat>)
    ensures forall c :: c in pen ==> pen[c] >= 2
  {
    if ssts == [] then map[]
    else
      var pen, sst := Penalties(ssts[..|ssts| - 1]), ssts[|ssts| - 1];
      if |sst.replicas| != 1 then pen
      else
        var id := sst.replicas[0].csdId;
        pen[id := if id in pen then pen[id] + 1 else 2]
  }

  /** The analysis score of a CSD, divided by its burden. */
  function Penalised(score: string -> real, pen: map<string, nat>, id: string): real
    requires forall c :: c in pen ==> pen[c] >= 2
  {
    if id in pen then score("csd" + id) / pen[id] as real else score("csd" + id)
  }

  /** The single-replica SSTs of a CSD. */
  ghost function Burdens(ssts: seq<Sst>, id: string): set<nat> {
    set j: nat | j < |ssts| && |ssts[j].replicas| == 1 && ssts[j].replicas[0].csdId == id
  }

  /** The score of a CSD is divided by one more than it has single-replica SSTs. */
  lemma {:induction false} PenalisedMeans(ssts: seq<Sst>, id: string, score: string -> real)
    ensures Penalised(score, Penalties(ssts), id) == score("csd" + id) / (1 + |Burdens(ssts, id)|) as real
  {
    PenaltiesAre(ssts, id);
  }

  lemma {:induction false} BurdensStep(ssts: seq<Sst>, id: string)
    requires ssts != []
    ensures var n := |ssts| - 1;
      |Burdens(ssts, id)| == |Burdens(ssts[..n], id)|
        + if |ssts[n].replicas| == 1 && ssts[n].replicas[0].csdId == id then 1 else 0
  {
    var n: nat := |ssts| - 1;
    var one := |ssts[n].replicas| == 1 && ssts[n].replicas[0].csdId == id;
    assert Burdens(ssts, id) == Burdens(ssts[..n], id) + if one then {n} else {};
  }

  lemma {:induction false} PenaltiesAre(ssts: seq<Sst>, id: string)
    ensures id in Penalties(ssts) <==> |Burdens(ssts, id)| > 0
    ensures id in Penalties(ssts) ==> Penalties(ssts)[id] == 1 + |Burdens(ssts, id)|
  {
    if ssts != [] {
      PenaltiesAre(ssts[..|ssts| - 1], id);
      BurdensStep(ssts, id);
    }
  }

  predicate Qualifies(score: string -> real, pen: map<string, nat>, id: string)
    requires forall c :: c in pen ==> pen[c] >= 2
  {
    Penalised(score, pen, id) > -1.0
  }

  predicate SomeQualifies(score: string -> real, pen: map<string, nat>, ids: seq<string>)
    requires forall c :: c in pen ==> pen[c] >= 2
  {
    exists k :: 0 <= k < |ids| && Qualifies(score, pen, ids[k])
  }

  /** The running maximum is never raised, so every replica above -1 replaces
      the one before it. */
  function Pick(ids: seq<string>, score: string -> real, pen: map<string, nat>): string
    requires forall c :: c in pen ==> pen[c] >= 2
  {
    if ids == [] then ""
    else if Qualifies(score, pen, ids[|ids| - 1]) then ids[|ids| - 1]
    else Pick(ids[..|ids| - 1], score, pen)
  }

  function Choice(ssts: seq<Sst>, i: nat, score: string -> real): string
    requires i < |ssts|
  {
    if |ssts[i].replicas| == 1 then ssts[i].replicas[0].csdId else Pick(Ids(ssts[i]), score, Penalties(ssts[..i]))
  }

  function Choices(ssts: seq<Sst>, n: nat, score: string -> real): map<string, string>
    requires n <= |ssts|
  {
    if n == 0 then map[] else Choices(ssts, n - 1, score)[ssts[n - 1].name := Choice(ssts, n - 1, score)]
  }

  /** `DCS_Algorithm`. */
  method DcsAlgorithm(ssts: seq<Sst>, score: string -> real) returns (bestcsd: map<string, string>)
    ensures bestcsd == Choices(ssts, |ssts|, score)
  {
    bestcsd := map[];
    var penalty: map<string, nat> := map[];
    for i := 0 to |ssts|
      invariant bestcsd == Choices(ssts, i, score)
      invariant penalty == Penalties(ssts[..i])
    {
      assert ssts[..i + 1][..i] == ssts[..i];
      if |ssts[i].replicas| == 1 {
        var id := ssts[i].replicas[0].csdId;
        bestcsd := bestcsd[ssts[i].name := id];
        penalty := penalty[id := if id in penalty then penalty[id] + 1 else 2];
      } else {
        var selected := SelectCsd(ssts[i], score, penalty);
        bestcsd := bestcsd[ssts[i].name := selected];
      }
    }
  }

  method SelectCsd(sst: Sst, score: string -> real, penalty: map<string, nat>) returns (selected: string)
    requires forall c :: c in penalty ==> penalty[c] >= 2
    ensures selected == Pick(Ids(sst), score, penalty)
  {
    selected := "";
    var csdMaxScore := -1.0;
    ghost var ids := Ids(sst);
    for j := 0 to |sst.replicas|
      invariant selected == Pick(ids[..j], score, penalty)
    {
      assert ids[..j + 1][..j] == ids[..j];
      var id := sst.replicas[j].csdId;
      var csdScore := score("csd" + id);
      if id in penalty {
        csdScore := csdScore / penalty[id] as real;
      }
      selected := if csdScore > csdMaxScore then id else selected;
    }
    assert ids[..|ids|] == ids;
  }

  lemma {:induction false} ChoiceKept(ssts: seq<Sst>, n: nat, i: nat, score: string -> real)
    requires i < n <= |ssts| && DistinctSsts(ssts)
    ensures ssts[i].name in Choices(ssts, n, score) && Choices(ssts, n, score)[ssts[i].name] == Choice(ssts, i, score)
  {
    if i < n - 1 {
      ChoiceKept(ssts, n - 1, i, score);
    }
  }

  /** The chosen replica is the last one that qualifies. */
  lemma {:induction false} PickIsLast(ids: seq<string>, score: string -> real, pen: map<string, nat>)
    requires forall c :: c in pen ==> pen[c] >= 2
    ensures (exists j :: 0 <= j < |ids| && Qualifies(score, pen, ids[j]) && Pick(ids, score, pen) == ids[j]
               && forall k :: j < k < |ids| ==> !Qualifies(score, pen, ids[k]))
         || (Pick(ids, score, pen) == "" && forall k :: 0 <= k < |ids| ==> !Qualifies(score, pen, ids[k]))
  {
    if ids != [] && !Qualifies(score, pen, ids[|ids| - 1]) {
      var init := ids[..|ids| - 1];
      PickIsLast(init, score, pen);
      if j :| 0 <= j < |init| && Qualifies(score, pen, init[j]) && Pick(init, score, pen) == init[j]
              && forall k :: j < k < |init| ==> !Qualifies(score, pen, init[k]) {
        assert ids[j] == init[j];
        forall k | j < k < |ids| ensures !Qualifies(score, pen, ids[k]) {
          assert k < |init| ==> ids[k] == init[k];
        }
      } else {
        forall k | 0 <= k < |ids| ensures !Qualifies(score, pen, ids[k]) {
          assert k < |init| ==> ids[k] == init[k];
        }
      }
    }
  }

  /** Every SST gets one of its own replicas exactly when it has only one, or
      one whose score, divided by its burden, is above -1. */
  lemma {:induction false} DcsAssignsIff(ssts: seq<Sst>, i: nat, score: string -> real)
    requires i < |ssts| && DistinctSsts(ssts) && "" !in Ids(ssts[i])
    ensures ssts[i].name in Choices(ssts, |ssts|, score)
    ensures Choices(ssts, |ssts|, score)[ssts[i].name] in Ids(ssts[i])
      <==> |ssts[i].replicas| == 1 || SomeQualifies(score, Penalties(ssts[..i]), Ids(ssts[i]))
  {
    ChoiceKept(ssts, |ssts|, i, score);
    if |ssts[i].replicas| == 1 {
      assert Choice(ssts, i, score) == Ids(ssts[i])[0];
    } else {
      PickIsLast(Ids(ssts[i]), score, Penalties(ssts[..i]));
    }
  }

  /** The choice has the largest burdened score exactly when no replica before
      the last qualifying one has a larger score than it. */
  lemma {:induction false} PickIsBestIff(ids: seq<string>, score: string -> real, pen: map<string, nat>, j: nat)
    requires forall c :: c in pen ==> pen[c] >= 2
    requires j < |ids| && Qualifies(score, pen, ids[j]) && forall k :: j < k < |ids| ==> !Qualifies(score, pen, ids[k])
    ensures Pick(ids, score, pen) == ids[j]
    ensures (forall k :: 0 <= k < |ids| ==>
      Penalised(score, pen, ids[k]) <= Penalised(score, pen, Pick(ids, score, pen)))
       <==> forall k :: 0 <= k < j ==> Penalised(score, pen, ids[k]) <= Penalised(score, pen, ids[j])
  {
    PickIsLast(ids, score, pen);
    assert forall k :: j < k < |ids| ==> Penalised(score, pen, ids[k]) <= -1.0 < Penalised(score, pen, ids[j]);
  }

  lemma {:induction false} QuotientAbove(x: real, n: nat)
    requires x > -1.0 && n >= 1
    ensures x / n as real > -1.0
  {
    var y := n as real;
    if x < 0.0 {
      assert x / y >= x;
    } else {
      assert x / y >= 0.0;
    }
  }

  /** In particular, scores above -1 and non-empty replica lists are enough. */
  lemma {:induction false} DcsAssigns(ssts: seq<Sst>, i: nat, score: string -> real)
    requires i < |ssts| && DistinctSsts(ssts) && "" !in Ids(ssts[i]) && ssts[i].replicas != []
    requires forall id :: id in Ids(ssts[i]) ==> score("csd" + id) > -1.0
    ensures ssts[i].name in Choices(ssts, |ssts|, score)
    ensures Choices(ssts, |ssts|, score)[ssts[i].name] in Ids(ssts[i])
  {
    DcsAssignsIff(ssts, i, score);
    var pen, id := Penalties(ssts[..i]), Ids(ssts[i])[0];
    if id in pen {
      QuotientAbove(score("csd" + id), pen[id]);
    }
    assert Qualifies(score, pen, Ids(ssts[i])[0]);
  }

  /** The choice is not the best-scored replica: 5 against 1 picks 1. */
  lemma {:induction false} LaterReplicaWins(score: string -> real)
    requires score("csd1") == 5.0 && score("csd2") == 1.0
    ensures Choice([Sst("a", [Replica("1", "", []), Replica("2", "", [])], 1)], 0, score) == "2"
  {
    var sst := Sst("a", [Replica("1", "", []), Replica("2", "", [])], 1);
    assert Ids(sst)[1] == "2" && "csd" + "2" == "csd2";
    assert Penalties([sst][..0]) == map[];
  }
}
