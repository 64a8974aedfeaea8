/** What a snippet says about the sorted-string tables it reads and where their
    replicas are. */
module Snippets {

  /** A block entry: one offset with several lengths, or one length per offset. */
  datatype BlockEntry = BlockEntry(offsets: seq<int>, lengths: seq<int>)

  datatype Replica = Replica(csdId: string, partition: string, blocks: seq<BlockEntry>)

  datatype Sst = Sst(name: string, replicas: seq<Replica>, blockCount: int)

  /** The CSDs that hold a replica, in the listed order. */
  function Ids(sst: Sst): (ids: seq<string>)
    ensures |ids| == |sst.replicas|
    ensures forall k :: 0 <= k < |ids| ==> ids[k] == sst.replicas[k].csdId
  {
    seq(|sst.replicas|, k requires 0 <= k < |sst.replicas| => sst.replicas[k].csdId)
  }

  ghost predicate DistinctSsts(ssts: seq<Sst>) {
    forall i, j :: 0 <= i < j < |ssts| ==> ssts[i].name != ssts[j].name
  }
}
