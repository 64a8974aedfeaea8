/** Dispatch of a scheduled snippet: one request per chosen CSD, with the blocks
    of the SSTs assigned to it and their count. */
module Dispatch {
  import opened Permutations
  import opened Snippets
  import opened Wrappers

  /** What is collected for one CSD. */
  datatype Request = Request(partition: Option<string>, blocks: seq<BlockEntry>, sstList: seq<string>, blockCount: int)

  const NO_REQUEST := Request(None, [], [], 0)

  // ------------------------------------------------------------ specification

  /** An entry with one offset stands for as many blocks as it has lengths. */
  function EntryBlocks(e: BlockEntry): int {
    if |e.offsets| == 1 then |e.lengths| else 1
  }

  function BlocksIn(entries: seq<BlockEntry>): int {
    Sum(entries, EntryBlocks)
  }

  /** The first SST with a name, the first replica on a CSD: their index, or -1. */
  function FindSst(ssts: seq<Sst>, name: string): (k: int)
    ensures -1 <= k < |ssts| && (k >= 0 ==> ssts[k].name == name && forall i :: 0 <= i < k ==> ssts[i].name != name)
    ensures k == -1 ==> forall i :: 0 <= i < |ssts| ==> ssts[i].name != name
  {
    if ssts == [] then -1
    else
      var k := FindSst(ssts[..|ssts| - 1], name);
      if k >= 0 then k else if ssts[|ssts| - 1].name == name then |ssts| - 1 else -1
  }

  function FindReplica(rs: seq<Replica>, csd: string): (k: int)
    ensures -1 <= k < |rs| && (k >= 0 ==> rs[k].csdId == csd && forall i :: 0 <= i < k ==> rs[i].csdId != csd)
    ensures k == -1 ==> forall i :: 0 <= i < |rs| ==> rs[i].csdId != csd
  {
    if rs == [] then -1
    else
      var k := FindReplica(rs[..|rs| - 1], csd);
      if k >= 0 then k else if rs[|rs| - 1].csdId == csd then |rs| - 1 else -1
  }

  /** What one SST contributes to the request of a CSD: the partition and the
      block list of its replica there or, if that is empty, the whole SST. */
  function Part(ssts: seq<Sst>, csd: string, name: string): Request {
    var i := FindSst(ssts, name);
    if i < 0 then NO_REQUEST
    else
      var j := FindReplica(ssts[i].replicas, csd);
      if j < 0 then NO_REQUEST
      else
        var replica := ssts[i].replicas[j];
        if replica.blocks != [] then Request(Some(replica.partition), replica.blocks, [], BlocksIn(replica.blocks))
        else Request(Some(replica.partition), [], [name], ssts[i].blockCount)
  }

  /** Lists and counts add up; the first partition stays. */
  function Join(a: Request, b: Request): Request {
    Request(if a.partition.Some? then a.partition else b.partition, a.blocks + b.blocks, a.sstList + b.sstList,
            a.blockCount + b.blockCount)
  }

  function PartOf(ssts: seq<Sst>, csd: string): string -> Request {
    (name: string) => Part(ssts, csd, name)
  }

  function JoinAll(names: seq<string>, part: string -> Request): Request {
    if names == [] then NO_REQUEST else Join(JoinAll(names[..|names| - 1], part), part(names[|names| - 1]))
  }

  /** Everything that `names` contribute to the request of a CSD. */
  function Collect(ssts: seq<Sst>, csd: string, names: seq<string>): Request {
    JoinAll(names, PartOf(ssts, csd))
  }

  /** The SSTs assigned to a CSD, in the iteration order of the assignment. */
  function Assigned(order: seq<string>, best: map<string, string>, csd: string): seq<string>
    requires Known(order, best)
  {
    if order == [] then []
    else
      var x := order[|order| - 1];
      Assigned(order[..|order| - 1], best, csd) + if best[x] == csd then [x] else []
  }

  // -------------------------------------------------------------- the methods

  /** The selecting and counting part of `serialize`. */
  method Serialize(ssts: seq<Sst>, csd: string, targets: seq<string>) returns (r: Request)
    ensures r == Collect(ssts, csd, targets)
  {
    r := NO_REQUEST;
    ghost var part := PartOf(ssts, csd);
    for t := 0 to |targets|
      invariant r == JoinAll(targets[..t], part)
    {
      r := AddSst(ssts, csd, targets[t], r);
      assert targets[..t + 1][..t] == targets[..t];
    }
    assert targets[..|targets|] == targets;
  }

  method AddSst(ssts: seq<Sst>, csd: string, target: string, r: Request) returns (out: Request)
    ensures out == Join(r, PartOf(ssts, csd)(target))
  {
    out := r;
    var i := 0;
    while i < |ssts|
      invariant i <= |ssts| && FindSst(ssts[..i], target) == -1
      invariant out == r
    {
      assert ssts[..i + 1][..i] == ssts[..i];
      if ssts[i].name == target {
        FoundHere(ssts, target, i);
        out := AddReplica(ssts, i, csd, r);
        return;
      }
      i := i + 1;
    }
    assert ssts[..|ssts|] == ssts;
  }

  method AddReplica(ssts: seq<Sst>, i: nat, csd: string, r: Request) returns (out: Request)
    requires i < |ssts| && FindSst(ssts, ssts[i].name) == i
    ensures out == Join(r, Part(ssts, csd, ssts[i].name))
  {
    out := r;
    var rs := ssts[i].replicas;
    var j := 0;
    while j < |rs|
      invariant j <= |rs| && FindReplica(rs[..j], csd) == -1
      invariant out == r
    {
      assert rs[..j + 1][..j] == rs[..j];
      if rs[j].csdId == csd {
        ReplicaHere(rs, csd, j);
        if out.partition.None? {
          out := out.(partition := Some(rs[j].partition));
        }
        if |rs[j].blocks| > 0 {
          out := AddBlocks(rs[j].blocks, out);
        } else {
          out := out.(sstList := out.sstList + [ssts[i].name], blockCount := out.blockCount + ssts[i].blockCount);
        }
        return;
      }
      j := j + 1;
    }
    assert rs[..|rs|] == rs;
  }

  method AddBlocks(entries: seq<BlockEntry>, r: Request) returns (out: Request)
    ensures out == r.(blocks := r.blocks + entries, blockCount := r.blockCount + BlocksIn(entries))
  {
    out := r;
    for k := 0 to |entries|
      invariant out == r.(blocks := r.blocks + entries[..k], blockCount := r.blockCount + BlocksIn(entries[..k]))
    {
      assert entries[..k + 1][..k] == entries[..k];
      if |entries[k].offsets| == 1 {
        out := out.(blockCount := out.blockCount + |entries[k].lengths|);
      } else {
        out := out.(blockCount := out.blockCount + 1);
      }
      out := out.(blocks := out.blocks + [entries[k]]);
      assert r.blocks + entries[..k + 1] == r.blocks + entries[..k] + [entries[k]];
    }
    assert entries[..|entries|] == entries;
  }

  lemma {:induction false} FoundHere(ssts: seq<Sst>, name: string, i: nat)
    requires i < |ssts| && ssts[i].name == name && FindSst(ssts[..i], name) == -1
    ensures FindSst(ssts, name) == i
  {
    assert forall j :: 0 <= j < i ==> ssts[..i][j] == ssts[j];
  }

  lemma {:induction false} ReplicaHere(rs: seq<Replica>, csd: string, j: nat)
    requires j < |rs| && rs[j].csdId == csd && FindReplica(rs[..j], csd) == -1
    ensures FindReplica(rs, csd) == j
  {
  }

  /** A request as it is sent. */
  datatype Sent = Sent(csd: string, request: Request)

  ghost predicate Orders(order: seq<string>, best: map<string, string>) {
    && (forall x :: x in order <==> x in best)
    && forall i, j :: 0 <= i < j < |order| ==> order[i] != order[j]
  }

  ghost predicate Sends(sent: seq<Sent>, csd: string) {
    exists i :: 0 <= i < |sent| && sent[i].csd == csd
  }

  ghost predicate OneEach(sent: seq<Sent>) {
    forall i, j :: 0 <= i < j < |sent| ==> sent[i].csd != sent[j].csd
  }

  ghost predicate Known(order: seq<string>, best: map<string, string>) {
    forall k :: 0 <= k < |order| ==> order[k] in best
  }

  /** One request per CSD that was chosen for something. */
  ghost predicate Dispatched(sent: seq<Sent>, ssts: seq<Sst>, order: seq<string>, best: map<string, string>)
    requires Orders(order, best)
  {
    && OneEach(sent)
    && (forall c :: Sends(sent, c) <==> c in best.Values)
    && Correct(sent, ssts, order, best)
  }

  ghost predicate Correct(sent: seq<Sent>, ssts: seq<Sst>, order: seq<string>, best: map<string, string>)
    requires Known(order, best)
  {
    forall i :: 0 <= i < |sent| ==> sent[i].request == Collect(ssts, sent[i].csd, Assigned(order, best, sent[i].csd))
  }

  /** `setupSnippet`: group the assignment by CSD, send one request per group.
      `order` is the order in which the map of the assignment is walked. */
  method SetupSnippet(ssts: seq<Sst>, best: map<string, string>, order: seq<string>) returns (sent: seq<Sent>)
    requires Orders(order, best)
    ensures Dispatched(sent, ssts, order, best)
  {
    var groups: map<string, seq<string>> := map[];
    for k := 0 to |order|
      invariant Grouped(groups, order[..k], best)
    {
      assert order[k] in order;
      var csd := best[order[k]];
      GroupedStep(groups, order, best, k);
      groups := groups[csd := (if csd in groups then groups[csd] else []) + [order[k]]];
    }
    assert order[..|order|] == order;
    sent := SendGroups(ssts, groups, RequestFor(ssts, order, best));
    GroupKeys(groups, order, best);
  }

  /** The request for a CSD. */
  function RequestFor(ssts: seq<Sst>, order: seq<string>, best: map<string, string>): string -> Request
    requires Known(order, best)
  {
    (csd: string) => Collect(ssts, csd, Assigned(order, best, csd))
  }

  ghost predicate Answers(sent: seq<Sent>, request: string -> Request) {
    forall i :: 0 <= i < |sent| ==> sent[i].request == request(sent[i].csd)
  }

  /** The loop over the groups; `request` says what each of them asks for. */
  method SendGroups(ssts: seq<Sst>, groups: map<string, seq<string>>, ghost request: string -> Request)
    returns (sent: seq<Sent>)
    requires forall c :: c in groups ==> Collect(ssts, c, groups[c]) == request(c)
    ensures OneEach(sent) && (forall c :: Sends(sent, c) <==> c in groups) && Answers(sent, request)
  {
    sent := [];
    var todo := groups.Keys;
    while todo != {}
      invariant todo <= groups.Keys
      invariant forall c :: Sends(sent, c) <==> c in groups && c !in todo
      invariant OneEach(sent) && Answers(sent, request)
    {
      var csd :| csd in todo;
      var r := Serialize(ssts, csd, groups[csd]);
      SendOneMore(sent, Sent(csd, r));
      sent := sent + [Sent(csd, r)];
      todo := todo - {csd};
    }
  }

  lemma {:induction false} SendOneMore(sent: seq<Sent>, x: Sent)
    requires OneEach(sent) && !Sends(sent, x.csd)
    ensures OneEach(sent + [x])
    ensures forall c :: Sends(sent + [x], c) <==> Sends(sent, c) || c == x.csd
  {
    forall c ensures Sends(sent + [x], c) <==> Sends(sent, c) || c == x.csd {
      if i :| 0 <= i < |sent| && sent[i].csd == c {
        assert (sent + [x])[i].csd == c;
      }
      if c == x.csd {
        assert (sent + [x])[|sent|].csd == c;
      }
    }
  }

  ghost predicate Grouped(groups: map<string, seq<string>>, order: seq<string>, best: map<string, string>) {
    && (forall k :: 0 <= k < |order| ==> order[k] in best && best[order[k]] in groups)
    && forall c :: c in groups ==> groups[c] != [] && groups[c] == Assigned(order, best, c)
  }

  lemma {:induction false} GroupedStep(groups: map<string, seq<string>>, order: seq<string>, best: map<string, string>,
                                       k: nat)
    requires Orders(order, best) && k < |order| && order[k] in best && Grouped(groups, order[..k], best)
    ensures var csd := best[order[k]];
      Grouped(groups[csd := (if csd in groups then groups[csd] else []) + [order[k]]], order[..k + 1], best)
  {
    var x := order[k];
    assert order[..k + 1] == order[..k] + [x];
    assert order[..k + 1][..k] == order[..k];
    if best[x] !in groups {
      NothingAssigned(order[..k], best, best[x]);
    }
  }

  lemma {:induction false} NothingAssigned(order: seq<string>, best: map<string, string>, csd: string)
    requires forall k :: 0 <= k < |order| ==> order[k] in best && best[order[k]] != csd
    ensures Assigned(order, best, csd) == []
  {
    if order != [] {
      NothingAssigned(order[..|order| - 1], best, csd);
    }
  }

  lemma {:induction false} SomethingAssigned(order: seq<string>, best: map<string, string>, csd: string)
    requires Known(order, best)
    ensures forall x :: x in Assigned(order, best, csd) <==> x in order && best[x] == csd
  {
    if order != [] {
      SomethingAssigned(order[..|order| - 1], best, csd);
      assert order == order[..|order| - 1] + [order[|order| - 1]];
    }
  }

  lemma {:induction false} GroupKeys(groups: map<string, seq<string>>, order: seq<string>, best: map<string, string>)
    requires Orders(order, best) && Grouped(groups, order, best)
    ensures forall c :: c in groups <==> c in best.Values
  {
    forall c | c in groups ensures c in best.Values {
      SomethingAssigned(order, best, c);
      assert groups[c][0] in Assigned(order, best, c);
    }
    forall c | c in best.Values ensures c in groups {
      var x :| x in best && best[x] == c;
      assert x in order;
      var k :| 0 <= k < |order| && order[k] == x;
    }
  }

  // ------------------------------------------------------------- conservation

  function Groups(sent: seq<Sent>, order: seq<string>, best: map<string, string>): seq<string>
    requires Known(order, best)
  {
    if sent == [] then []
    else Groups(sent[..|sent| - 1], order, best) + Assigned(order, best, sent[|sent| - 1].csd)
  }

  lemma {:induction false} AssignedStep(order: seq<string>, x: string, best: map<string, string>, csd: string)
    requires Known(order, best) && x in best
    ensures Known(order + [x], best)
    ensures Assigned(order + [x], best, csd) == Assigned(order, best, csd) + if best[x] == csd then [x] else []
  {
    assert (order + [x])[..|order|] == order;
  }

  lemma {:induction false} LastSent(sent: seq<Sent>, csd: string)
    requires sent != [] && OneEach(sent)
    ensures OneEach(sent[..|sent| - 1])
    ensures Sends(sent, csd) <==> Sends(sent[..|sent| - 1], csd) || sent[|sent| - 1].csd == csd
    ensures !(Sends(sent[..|sent| - 1], csd) && sent[|sent| - 1].csd == csd)
  {
    var n := |sent| - 1;
    if i :| 0 <= i < n && sent[..n][i].csd == csd {
      assert sent[i].csd == csd;
    }
    if i :| 0 <= i < |sent| && sent[i].csd == csd {
      assert i < n ==> sent[..n][i].csd == csd;
    }
  }

  /** Adding one SST to the order adds it to exactly one group. */
  lemma {:induction false} GroupsStep(sent: seq<Sent>, order: seq<string>, x: string, best: map<string, string>)
    requires Known(order, best) && x in best && OneEach(sent)
    ensures Known(order + [x], best)
    ensures multiset(Groups(sent, order + [x], best))
         == multiset(Groups(sent, order, best)) + if Sends(sent, best[x]) then multiset{x} else multiset{}
  {
    assert Known(order + [x], best);
    if sent != [] {
      var n := |sent| - 1;
      var csd, init := sent[n].csd, sent[..n];
      LastSent(sent, best[x]);
      GroupsStep(init, order, x, best);
      AssignedStep(order, x, best, csd);
      OneGroupMore(Groups(init, order, best), Assigned(order, best, csd), Groups(init, order + [x], best), x,
                   Sends(init, best[x]), best[x] == csd);
    }
  }

  lemma {:induction false} OneGroupMore(a: seq<string>, b: seq<string>, c: seq<string>, x: string, before: bool,
                                        last: bool)
    requires multiset(c) == multiset(a) + (if before then multiset{x} else multiset{}) && !(before && last)
    ensures multiset(c + (b + if last then [x] else []))
         == multiset(a + b) + if before || last then multiset{x} else multiset{}
  {
    assert b + [] == b;
  }

  lemma {:induction false} GroupsGrow(sent: seq<Sent>, order: seq<string>, x: string, best: map<string, string>)
    requires Known(order, best) && x in best && OneEach(sent) && Sends(sent, best[x])
    requires multiset(Groups(sent, order, best)) == multiset(order)
    ensures Known(order + [x], best)
    ensures multiset(Groups(sent, order + [x], best)) == multiset(order + [x])
  {
    GroupsStep(sent, order, x, best);
  }

  lemma {:induction false} LastApart(order: seq<string>)
    requires order != []
    ensures order[..|order| - 1] + [order[|order| - 1]] == order
  {
  }

  /** The groups partition the SSTs: every SST is in the group of its CSD and in
      no other. */
  lemma {:induction false} GroupsPartition(sent: seq<Sent>, order: seq<string>, best: map<string, string>)
    requires Known(order, best) && OneEach(sent)
    requires forall k :: 0 <= k < |order| ==> Sends(sent, best[order[k]])
    ensures multiset(Groups(sent, order, best)) == multiset(order)
  {
    if order == [] {
      NoGroups(sent, best);
    } else {
      var n := |order| - 1;
      assert forall k :: 0 <= k < n ==> order[..n][k] == order[k];
      GroupsPartition(sent, order[..n], best);
      GroupsGrow(sent, order[..n], order[n], best);
      LastApart(order);
    }
  }

  lemma {:induction false} NoGroups(sent: seq<Sent>, best: map<string, string>)
    ensures Groups(sent, [], best) == []
  {
    if sent != [] {
      NoGroups(sent[..|sent| - 1], best);
    }
  }

  /** What an SST counts where it was assigned. */
  function Weight(ssts: seq<Sst>, best: map<string, string>): string -> int {
    (name: string) => if name in best then Part(ssts, best[name], name).blockCount else 0
  }

  function CountSent(x: Sent): int {
    x.request.blockCount
  }

  function TotalSent(sent: seq<Sent>): int {
    Sum(sent, CountSent)
  }

  lemma {:induction false} CountJoins(names: seq<string>, part: string -> Request, w: string -> int)
    requires forall k :: 0 <= k < |names| ==> w(names[k]) == part(names[k]).blockCount
    ensures JoinAll(names, part).blockCount == Sum(names, w)
  {
    if names != [] {
      CountJoins(names[..|names| - 1], part, w);
    }
  }

  lemma {:induction false} CountOfRequest(ssts: seq<Sst>, csd: string, names: seq<string>, best: map<string, string>)
    requires forall k :: 0 <= k < |names| ==> names[k] in best && best[names[k]] == csd
    ensures Collect(ssts, csd, names).blockCount == Sum(names, Weight(ssts, best))
  {
    CountJoins(names, PartOf(ssts, csd), Weight(ssts, best));
  }

  lemma {:induction false} CountOfSent(x: Sent, ssts: seq<Sst>, order: seq<string>, best: map<string, string>)
    requires Known(order, best) && x.request == Collect(ssts, x.csd, Assigned(order, best, x.csd))
    ensures CountSent(x) == Sum(Assigned(order, best, x.csd), Weight(ssts, best))
  {
    var g := Assigned(order, best, x.csd);
    SomethingAssigned(order, best, x.csd);
    assert forall k :: 0 <= k < |g| ==> g[k] in g;
    CountOfRequest(ssts, x.csd, g, best);
  }

  lemma {:induction false} TotalIsSumOfGroups(sent: seq<Sent>, ssts: seq<Sst>, order: seq<string>,
                                              best: map<string, string>)
    requires Known(order, best)
    requires Correct(sent, ssts, order, best)
    ensures TotalSent(sent) == Sum(Groups(sent, order, best), Weight(ssts, best))
  {
    if sent != [] {
      var n := |sent| - 1;
      TotalIsSumOfGroups(sent[..n], ssts, order, best);
      CountOfSent(sent[n], ssts, order, best);
      SumAppend(Groups(sent[..n], order, best), Assigned(order, best, sent[n].csd), Weight(ssts, best));
    }
  }

  /** Dispatch conserves blocks: the groups partition the SSTs and the counts of
      all requests add up to the counts of all assigned SSTs. */
  lemma {:induction false} DispatchConserves(sent: seq<Sent>, ssts: seq<Sst>, order: seq<string>,
                                             best: map<string, string>)
    requires Orders(order, best) && Dispatched(sent, ssts, order, best)
    ensures multiset(Groups(sent, order, best)) == multiset(order)
    ensures TotalSent(sent) == Sum(order, Weight(ssts, best))
  {
    forall k | 0 <= k < |order| ensures order[k] in best && Sends(sent, best[order[k]]) {
      assert order[k] in order;
      assert best[order[k]] in best.Values;
    }
    GroupsPartition(sent, order, best);
    TotalIsSumOfGroups(sent, ssts, order, best);
    SumPermuted(Groups(sent, order, best), order, Weight(ssts, best));
  }

  /** Under a valid assignment every SST counts with its replica on the chosen
      CSD: that replica's blocks, or the whole SST. */
  lemma {:induction false} WeightIsReplicas(ssts: seq<Sst>, best: map<string, string>, i: nat)
    requires i < |ssts| && DistinctSsts(ssts)
    requires ssts[i].name in best && best[ssts[i].name] in Ids(ssts[i])
    ensures var j := FindReplica(ssts[i].replicas, best[ssts[i].name]);
      && 0 <= j && ssts[i].replicas[j].csdId == best[ssts[i].name]
      && Part(ssts, best[ssts[i].name], ssts[i].name).blocks == ssts[i].replicas[j].blocks
      && Weight(ssts, best)(ssts[i].name)
         == if ssts[i].replicas[j].blocks != [] then BlocksIn(ssts[i].replicas[j].blocks) else ssts[i].blockCount
  {
    var k := FindSst(ssts, ssts[i].name);
    assert k == i;
    var ids := Ids(ssts[i]);
    var j :| 0 <= j < |ids| && ids[j] == best[ssts[i].name];
    assert ssts[i].replicas[j].csdId == ids[j];
  }

  // -------------------------------------------------------------- what is counted

  /** The lengths of all entries with one offset, one after the other. */
  function LengthsOfOne(entries: seq<BlockEntry>): seq<int> {
    if entries == [] then []
    else
      var e := entries[|entries| - 1];
      LengthsOfOne(entries[..|entries| - 1]) + if |e.offsets| == 1 then e.lengths else []
  }

  /** The other entries. */
  function Others(entries: seq<BlockEntry>): seq<BlockEntry> {
    if entries == [] then []
    else
      var e := entries[|entries| - 1];
      Others(entries[..|entries| - 1]) + if |e.offsets| == 1 then [] else [e]
  }

  /** All lengths, one after the other. */
  function AllLengths(entries: seq<BlockEntry>): seq<int> {
    if entries == [] then [] else AllLengths(entries[..|entries| - 1]) + entries[|entries| - 1].lengths
  }

  lemma {:induction false} CountedApart(entries: seq<BlockEntry>)
    ensures BlocksIn(entries) == |LengthsOfOne(entries)| + |Others(entries)|
  {
    if entries != [] {
      CountedApart(entries[..|entries| - 1]);
    }
  }

  lemma {:induction false} OneOffsetOnly(entries: seq<BlockEntry>)
    requires forall k :: 0 <= k < |entries| ==> |entries[k].offsets| == 1
    ensures LengthsOfOne(entries) == AllLengths(entries) && Others(entries) == []
  {
    if entries != [] {
      OneOffsetOnly(entries[..|entries| - 1]);
    }
  }

  lemma {:induction false} NoOneOffset(entries: seq<BlockEntry>)
    requires forall k :: 0 <= k < |entries| ==> |entries[k].offsets| != 1
    ensures LengthsOfOne(entries) == [] && Others(entries) == entries
  {
    if entries != [] {
      var n := |entries| - 1;
      NoOneOffset(entries[..n]);
      assert Others(entries) == entries[..n] + [entries[n]];
    }
  }

  /** The announced block counts of SSTs, found by their names. */
  function WholeCount(ssts: seq<Sst>, names: seq<string>): int {
    if names == [] then 0
    else
      var i := FindSst(ssts, names[|names| - 1]);
      WholeCount(ssts, names[..|names| - 1]) + if i < 0 then 0 else ssts[i].blockCount
  }

  lemma {:induction false} PartCounts(ssts: seq<Sst>, csd: string, name: string)
    ensures var r := Part(ssts, csd, name); r.blockCount == BlocksIn(r.blocks) + WholeCount(ssts, r.sstList)
  {
    assert [name][..0] == [];
    assert WholeCount(ssts, [name]) == var i := FindSst(ssts, name); if i < 0 then 0 else ssts[i].blockCount;
  }

  lemma {:induction false} JoinedCounts(ssts: seq<Sst>, a: seq<string>, b: seq<string>, d: seq<BlockEntry>,
                                        e: seq<BlockEntry>)
    requires |b| <= 1
    ensures WholeCount(ssts, a + b) == WholeCount(ssts, a) + WholeCount(ssts, b)
    ensures BlocksIn(d + e) == BlocksIn(d) + BlocksIn(e)
  {
    SumAppend(d, e, EntryBlocks);
    if b == [] {
      assert a + b == a;
    } else {
      assert (a + b)[..|a|] == a && b[..0] == [];
    }
  }

  lemma {:induction false} CollectedCounts(ssts: seq<Sst>, csd: string, names: seq<string>)
    ensures var r := Collect(ssts, csd, names); r.blockCount == BlocksIn(r.blocks) + WholeCount(ssts, r.sstList)
  {
    if names != [] {
      var n := |names| - 1;
      CollectedCounts(ssts, csd, names[..n]);
      PartCounts(ssts, csd, names[n]);
      var r, p := Collect(ssts, csd, names[..n]), Part(ssts, csd, names[n]);
      JoinedCounts(ssts, r.sstList, p.sstList, r.blocks, p.blocks);
      assert Collect(ssts, csd, names) == Join(r, p);
    }
  }

  /** The announced count of a request: one per length of the collected entries that
      have one offset, one per entry of the others, and the announced counts of the
      SSTs that are taken whole. */
  lemma {:induction false} CountMeans(ssts: seq<Sst>, csd: string, names: seq<string>)
    ensures var r := Collect(ssts, csd, names);
      && r.blockCount == |LengthsOfOne(r.blocks)| + |Others(r.blocks)| + WholeCount(ssts, r.sstList)
      && ((forall k :: 0 <= k < |r.blocks| ==> |r.blocks[k].offsets| == 1) ==>
            r.blockCount == |AllLengths(r.blocks)| + WholeCount(ssts, r.sstList))
      && ((forall k :: 0 <= k < |r.blocks| ==> |r.blocks[k].offsets| != 1) ==>
            r.blockCount == |r.blocks| + WholeCount(ssts, r.sstList))
  {
    var r := Collect(ssts, csd, names);
    CollectedCounts(ssts, csd, names);
    CountedApart(r.blocks);
    if forall k :: 0 <= k < |r.blocks| ==> |r.blocks[k].offsets| == 1 {
      OneOffsetOnly(r.blocks);
    }
    if forall k :: 0 <= k < |r.blocks| ==> |r.blocks[k].offsets| != 1 {
      NoOneOffset(r.blocks);
    }
  }

  /** What an SST contributes: the blocks of its first replica on the CSD or, if it has
      none there, its name; nothing without such a replica. */
  lemma {:induction false} PartMeans(ssts: seq<Sst>, csd: string, i: nat, j: nat)
    requires i < |ssts| && forall k :: 0 <= k < i ==> ssts[k].name != ssts[i].name
    requires j <= |ssts[i].replicas| && forall k :: 0 <= k < j ==> ssts[i].replicas[k].csdId != csd
    requires j < |ssts[i].replicas| ==> ssts[i].replicas[j].csdId == csd
    ensures var r, rs := Part(ssts, csd, ssts[i].name), ssts[i].replicas;
      && r.blocks == (if j < |rs| then rs[j].blocks else [])
      && r.sstList == (if j < |rs| && rs[j].blocks == [] then [ssts[i].name] else [])
      && r.partition == if j < |rs| then Some(rs[j].partition) else None
  {
    assert FindSst(ssts, ssts[i].name) == i;
  }

  /** A request collects what the SSTs contribute, one after the other. */
  lemma {:induction false} CollectMeans(ssts: seq<Sst>, csd: string, names: seq<string>)
    ensures var r := Collect(ssts, csd, names);
      && r.blocks == FlatMap(names, (x: string) => Part(ssts, csd, x).blocks)
      && r.sstList == FlatMap(names, (x: string) => Part(ssts, csd, x).sstList)
  {
    var f, g := (x: string) => Part(ssts, csd, x).blocks, (x: string) => Part(ssts, csd, x).sstList;
    if names != [] {
      var n := |names| - 1;
      CollectMeans(ssts, csd, names[..n]);
      assert names[..n + 1] == names;
      FlatMapOneMore(names, f, n);
      FlatMapOneMore(names, g, n);
    }
  }

  lemma {:induction false} BlockOwner(names: seq<string>, part: string -> Request, e: BlockEntry) returns (k: nat)
    requires e in JoinAll(names, part).blocks
    ensures k < |names| && e in part(names[k]).blocks
  {
    var n := |names| - 1;
    if e in part(names[n]).blocks {
      k := n;
    } else {
      k := BlockOwner(names[..n], part, e);
    }
  }

  /** A CSD is asked only for blocks of its own replicas of SSTs assigned to it. */
  lemma {:induction false} OnlyOwnReplicas(ssts: seq<Sst>, csd: string, names: seq<string>, e: BlockEntry)
    returns (i: nat, j: nat)
    requires e in Collect(ssts, csd, names).blocks
    ensures i < |ssts| && ssts[i].name in names
    ensures j < |ssts[i].replicas| && ssts[i].replicas[j].csdId == csd && e in ssts[i].replicas[j].blocks
  {
    var k := BlockOwner(names, PartOf(ssts, csd), e);
    assert PartOf(ssts, csd)(names[k]) == Part(ssts, csd, names[k]);
    i := FindSst(ssts, names[k]);
    j := FindReplica(ssts[i].replicas, csd);
  }

  // ------------------------------------------------------------ the partition

  /** The partition a request names is that of every SST in it. */
  ghost predicate FitsAll(p: Option<string>, names: seq<string>, part: string -> Request) {
    forall k :: 0 <= k < |names| && part(names[k]).partition.Some? ==> part(names[k]).partition == p
  }

  ghost predicate OnePartition(names: seq<string>, part: string -> Request) {
    forall i, j :: 0 <= i < j < |names| && part(names[i]).partition.Some? && part(names[j]).partition.Some? ==>
      part(names[i]).partition == part(names[j]).partition
  }

  /** The request names the partition of the first SST that has one. */
  lemma {:induction false} FirstPartition(names: seq<string>, part: string -> Request)
    ensures var p := JoinAll(names, part).partition;
      if p.None? then forall k :: 0 <= k < |names| ==> part(names[k]).partition.None?
      else exists k :: 0 <= k < |names| && part(names[k]).partition == p
                    && forall i :: 0 <= i < k ==> part(names[i]).partition.None?
  {
    if names != [] {
      var n := |names| - 1;
      var init := names[..n];
      FirstPartition(init, part);
      assert forall k :: 0 <= k < n ==> init[k] == names[k];
      var p := JoinAll(init, part).partition;
      if p.Some? {
        var k :| 0 <= k < |init| && part(init[k]).partition == p
               && forall i :: 0 <= i < k ==> part(init[i]).partition.None?;
        assert part(names[k]).partition == p;
      } else {
        assert JoinAll(names, part).partition == part(names[n]).partition;
      }
    }
  }

  /** The one partition of a request is right for all its SSTs exactly when their
      replicas on the CSD are on one partition. */
  lemma {:induction false} PartitionFitsIff(ssts: seq<Sst>, csd: string, names: seq<string>)
    ensures FitsAll(Collect(ssts, csd, names).partition, names, PartOf(ssts, csd))
       <==> OnePartition(names, PartOf(ssts, csd))
  {
    FirstPartition(names, PartOf(ssts, csd));
  }

  // ---------------------------------------------------------- what is emitted

  /** Lines 91-95: the block list if there is one, else the SST list. */
  function Emitted(r: Request): Request {
    if r.blocks != [] then r.(sstList := []) else r
  }

  /** Some SST of the group has a block list and another has none. */
  ghost predicate Mixed(ssts: seq<Sst>, csd: string, names: seq<string>) {
    && (exists k :: 0 <= k < |names| && Part(ssts, csd, names[k]).blocks != [])
    && (exists k :: 0 <= k < |names| && Part(ssts, csd, names[k]).sstList != [])
  }

  lemma {:induction false} JoinedFrom(names: seq<string>, part: string -> Request)
    ensures JoinAll(names, part).blocks != [] <==> exists k :: 0 <= k < |names| && part(names[k]).blocks != []
    ensures JoinAll(names, part).sstList != [] <==> exists k :: 0 <= k < |names| && part(names[k]).sstList != []
  {
    if names != [] {
      var n := |names| - 1;
      JoinedFrom(names[..n], part);
      assert forall k :: 0 <= k < n ==> names[..n][k] == names[k];
      assert JoinAll(names, part) == Join(JoinAll(names[..n], part), part(names[n]));
    }
  }

  /** Everything that was selected and counted is also sent exactly when the
      group does not mix block lists with whole SSTs. */
  lemma {:induction false} NothingDroppedIff(ssts: seq<Sst>, csd: string, names: seq<string>)
    ensures Emitted(Collect(ssts, csd, names)) == Collect(ssts, csd, names) <==> !Mixed(ssts, csd, names)
  {
    JoinedFrom(names, PartOf(ssts, csd));
    assert forall x :: PartOf(ssts, csd)(x) == Part(ssts, csd, x);
  }
}
