/**
 The communicator of one unit: for every rank boundary, the rank and the tags its persistent requests are made with.
 */
module OmpiCommunicator {
  import opened DistributedInterfaces
  import opened MirroredReading
  import opened HaloProtocol
  import opened Derivatives
  import opened DistributedDerivatives
  import opened Pipeline
  import opened PipelineNumbering

  datatype OMPIRankBoundary = OMPIRankBoundary(dbData: RankBoundary, sendRank: nat, receiveRank: nat, sendTag: int,
                                               receiveTag: int)

  class OMPICommunicator {
    var rankBoundaries: seq<OMPIRankBoundary>

    /** One rank boundary for every record of the metadata, in the same order. */
    constructor (dbData: seq<RankBoundary>)
      ensures |rankBoundaries| == |dbData| && forall i | 0 <= i < |dbData| :: rankBoundaries[i] == Configured(dbData[i])
    {
      var made: seq<OMPIRankBoundary> := [];
      for i := 0 to |dbData|
        invariant |made| == i && forall j | 0 <= j < i :: made[j] == Configured(dbData[j])
      {
        var sendRank := dbData[i].localityEx;
        var receiveRank := dbData[i].localityEx;
        var sendTag := Tag(dbData[i].submeshIn, dbData[i].submeshEx);
        var receiveTag := Tag(dbData[i].submeshEx, dbData[i].submeshIn);
        made := made + [OMPIRankBoundary(dbData[i], sendRank, receiveRank, sendTag, receiveTag)];
      }
      rankBoundaries := made;
    }
  }

  function Configured(b: RankBoundary): OMPIRankBoundary {
    OMPIRankBoundary(b, b.localityEx, b.localityEx, Tag(b.submeshIn, b.submeshEx), Tag(b.submeshEx, b.submeshIn))
  }

  /** The channel that the send request of a rank boundary on the given rank uses, and that of its receive request. */
  function SendChannel(rank: nat, x: OMPIRankBoundary): Key {
    Key(rank, x.sendRank, x.sendTag)
  }

  function ReceiveChannel(rank: nat, x: OMPIRankBoundary): Key {
    Key(x.receiveRank, rank, x.receiveTag)
  }

  /** The requests made from a unit's own metadata use the channels of the protocol. */
  lemma RequestsUseChannels(c: Machine, o: Ops, l: Layout, i: nat, j: nat)
    requires c.Valid() && c.LaidOut(l) && IsRankBoundary(c, i, j)
    ensures var x, far := Configured(c.w.Read(c.codes[i])[j]), c.Far(c.w.Read(c.codes[i])[j]);
            && far < |l.rank| && Exchange(o, c.Parts(), l).Nbr(i, far)
            && SendChannel(l.rank[i], x) == Exchange(o, c.Parts(), l).SendKey(i, far)
            && ReceiveChannel(l.rank[i], x) == Exchange(o, c.Parts(), l).ReceiveKey(i, far)
  {
    EndsOf(c, i, j);
    assert c.Beyond(i, c.Far(c.w.Read(c.codes[i])[j]));
  }

  /** Each side of a pair of units reads its own file, and yet what one sends is what exactly the other receives. */
  lemma RequestsMeet(c: Machine, o: Ops, l: Layout, i: nat, j: nat, v: nat, k: nat)
    requires c.Valid() && c.LaidOut(l) && Exchange(o, c.Parts(), l).WellFormed()
    requires IsRankBoundary(c, i, j) && IsRankBoundary(c, v, k)
    ensures SendChannel(l.rank[i], Configured(c.w.Read(c.codes[i])[j]))
            == ReceiveChannel(l.rank[v], Configured(c.w.Read(c.codes[v])[k]))
       <==> Facing(c, i, j, v, k)
  {
    RequestsUseChannels(c, o, l, i, j);
    RequestsUseChannels(c, o, l, v, k);
    var x, far, near := Exchange(o, c.Parts(), l), c.Far(c.w.Read(c.codes[i])[j]), c.Far(c.w.Read(c.codes[v])[k]);
    KeysAgree(x, near, v);
    if SendChannel(l.rank[i], Configured(c.w.Read(c.codes[i])[j]))
        == ReceiveChannel(l.rank[v], Configured(c.w.Read(c.codes[v])[k])) {
      KeyInjective(x, i, far, near, v);
    }
  }
}
