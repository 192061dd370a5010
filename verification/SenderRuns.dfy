/** Whole runs of the sender, which starts with an empty cache and no block. */
module SenderRuns {
  import opened Bytes
  import opened Wire
  import opened ProcessState
  import opened Grouping
  import opened Sender
  import opened Transmissions

  /** The sender between two batches. */
  datatype SenderState = SenderState(cache: Cache, batch: u32, capacity: nat)

  const START := SenderState(EMPTY, 0, 0)

  /** What a batch puts on the wire. */
  function BatchSent(st: SenderState, b: Batch): Sent
    requires Sendable(b)
  {
    SentFrom(st.capacity, st.cache, b, NextBatch(st.batch), 0)
  }

  /** The state after a batch that was sent completely. */
  function AfterBatch(st: SenderState, b: Batch): SenderState
    requires Sendable(b)
  {
    SenderState(Looked(st.cache, b, |b.buffer.samples|), NextBatch(st.batch), BatchSent(st, b).capacity)
  }

  function BatchPackets(st: SenderState, b: Batch): seq<Packet>
    requires |b.answers| == |b.buffer.samples| < 0x8000_0000
  {
    PacketsFrom(st.cache, b, NextBatch(st.batch), 0)
  }

  ghost predicate AllSendable(bs: seq<Batch>) {
    forall k :: 0 <= k < |bs| ==> Sendable(bs[k])
  }

  function AfterAll(bs: seq<Batch>): SenderState
    requires AllSendable(bs)
  {
    if bs == [] then START
    else
      assert Sendable(bs[|bs| - 1]);
      AfterBatch(AfterAll(bs[..|bs| - 1]), bs[|bs| - 1])
  }

  /** All packets of a run that starts with an empty cache. */
  function AllPackets(bs: seq<Batch>): seq<Packet>
    requires AllSendable(bs)
  {
    if bs == [] then []
    else
      assert Sendable(bs[|bs| - 1]);
      AllPackets(bs[..|bs| - 1]) + BatchPackets(AfterAll(bs[..|bs| - 1]), bs[|bs| - 1])
  }

  lemma {:induction false} AllPacketsWellFormed(bs: seq<Batch>)
    requires AllSendable(bs)
    ensures AllWellFormed(AllPackets(bs))
  {
    if bs != [] {
      var st, b := AfterAll(bs[..|bs| - 1]), bs[|bs| - 1];
      AllPacketsWellFormed(bs[..|bs| - 1]);
      PacketsWellFormed(st.cache, b, NextBatch(st.batch));
    }
  }

  // ------------------------------------------------------------- what is transmitted

  /** Every batch of the run is sent completely. */
  ghost predicate RunGood(bs: seq<Batch>)
    requires AllSendable(bs)
  {
    forall k :: 0 <= k < |bs| ==> BatchSent(AfterAll(bs[..k]), bs[k]).good
  }

  /** What the run puts on the wire; it stops at the first batch that is not sent completely. */
  ghost function RunBytes(bs: seq<Batch>): seq<byte>
    requires AllSendable(bs)
  {
    if bs == [] then []
    else
      var before := bs[..|bs| - 1];
      assert Sendable(bs[|bs| - 1]);
      RunBytes(before) + if RunGood(before) then BatchSent(AfterAll(before), bs[|bs| - 1]).bytes else []
  }

  lemma RunGoodSnoc(bs: seq<Batch>)
    requires AllSendable(bs) && bs != []
    ensures var before := bs[..|bs| - 1];
      RunGood(bs) <==> RunGood(before) && Sendable(bs[|bs| - 1]) && BatchSent(AfterAll(before), bs[|bs| - 1]).good
  {
    hide BatchSent, AfterAll;
    var before := bs[..|bs| - 1];
    assert forall k :: 0 <= k < |before| ==> before[..k] == bs[..k] && before[k] == bs[k];
    if RunGood(bs) {
      forall k | 0 <= k < |before|
        ensures BatchSent(AfterAll(before[..k]), before[k]).good
      {
        assert BatchSent(AfterAll(bs[..k]), bs[k]).good;
      }
    }
  }

  /** Once a batch has failed nothing more is sent. */
  lemma {:induction false} NothingAfterFailure(bs: seq<Batch>, k: nat)
    requires AllSendable(bs) && k <= |bs| && !RunGood(bs[..k])
    ensures !RunGood(bs) && RunBytes(bs) == RunBytes(bs[..k])
    decreases |bs|
  {
    hide RunGood, BatchSent, AfterAll;
    if k == |bs| {
      assert bs[..k] == bs;
    } else {
      var before := bs[..|bs| - 1];
      assert before[..k] == bs[..k];
      NothingAfterFailure(before, k);
      RunGoodSnoc(bs);
    }
  }

  /** A run sends a beginning of the bytes of its packets, and all of them when every batch is sent completely. */
  lemma {:induction false} RunSent(bs: seq<Batch>)
    requires AllSendable(bs)
    ensures RunBytes(bs) <= EncodeAll(AllPackets(bs))
    ensures RunGood(bs) ==> RunBytes(bs) == EncodeAll(AllPackets(bs))
  {
    hide EncodeAll, AfterAll, SentFrom, PacketsFrom, RunGood;
    if bs == [] {
      NoBytes();
    } else {
      var before, b := bs[..|bs| - 1], bs[|bs| - 1];
      assert Sendable(b);
      var st := AfterAll(before);
      RunGoodSnoc(bs);
      RunSent(before);
      EncodeAllAppend(AllPackets(before), BatchPackets(st, b));
      SentIsPrefix(st.capacity, st.cache, b, NextBatch(st.batch), 0);
      assert AllPackets(bs) == AllPackets(before) + BatchPackets(st, b);
    }
  }

  // ---------------------------------------------------------- sample identity

  /** `p` is sent before `q` in the order of batch and first index. */
  predicate Before(p: Header, q: Header) {
    p.batch < q.batch || (p.batch == q.batch && p.firstIndex + p.quantity <= q.firstIndex)
  }

  lemma {:induction false} BatchNumber(bs: seq<Batch>)
    requires AllSendable(bs) && |bs| < 0x1_0000_0000
    ensures AfterAll(bs).batch == |bs|
  {
    hide BatchSent, Looked;
    if bs != [] {
      BatchNumber(bs[..|bs| - 1]);
    }
  }

  /** Every packet of a run is a group of one of its batches. */
  lemma {:induction false} PacketOrigin(bs: seq<Batch>, k: nat) returns (n: nat, g: Group)
    requires AllSendable(bs) && |bs| < 0x1_0000_0000 && k < |AllPackets(bs)|
    ensures n < |bs| && Fits(bs[n].buffer.samples, g)
    ensures AllPackets(bs)[k] == GroupPacket(AfterAll(bs[..n]).cache, bs[n], n + 1, g)
  {
    hide GroupPacket, PacketsFrom, SeenEntry, Looked, LongestFrom, Greedy, AfterAll;
    var last := |bs| - 1;
    var before := AllPackets(bs[..last]);
    if k < |before| {
      n, g := PacketOrigin(bs[..last], k);
      assert bs[..last][..n] == bs[..n];
    } else {
      n := last;
      BatchNumber(bs[..last]);
      PacketsAreGroups(AfterAll(bs[..last]).cache, bs[last], last + 1, 0);
      g := Greedy(bs[last].buffer.samples, 0)[k - |before|];
    }
  }

  lemma BatchIsOrdered(c: Cache, b: Batch, number: u32, j: nat, k: nat)
    requires |b.answers| == |b.buffer.samples| < 0x8000_0000
    requires j < k < |PacketsFrom(c, b, number, 0)|
    ensures Before(PacketsFrom(c, b, number, 0)[j].header, PacketsFrom(c, b, number, 0)[k].header)
  {
    hide PacketsFrom, Greedy, SeenEntry;
    var gs := Greedy(b.buffer.samples, 0);
    PacketsAreGroups(c, b, number, 0);
    GreedyIsSplit(b.buffer.samples, 0);
    SplitIsOrdered(b.buffer.samples, 0, gs, j, k);
  }

  lemma BatchIsNumbered(c: Cache, b: Batch, number: u32, k: nat)
    requires |b.answers| == |b.buffer.samples| < 0x8000_0000
    requires k < |PacketsFrom(c, b, number, 0)|
    ensures PacketsFrom(c, b, number, 0)[k].header.batch == number
  {
    hide PacketsFrom, Greedy, SeenEntry;
    PacketsAreGroups(c, b, number, 0);
  }

  /** For fewer than 2^32 batches, batch number and first index order all packets as they were sent,
      and the index ranges within a batch do not overlap: they name every sample uniquely. */
  lemma {:induction false} SampleIdentity(bs: seq<Batch>, j: nat, k: nat)
    requires AllSendable(bs) && |bs| < 0x1_0000_0000
    requires j < k < |AllPackets(bs)|
    ensures Before(AllPackets(bs)[j].header, AllPackets(bs)[k].header)
  {
    hide PacketsFrom, SeenEntry, Looked, LongestFrom, GroupPacket, AfterAll;
    var last := |bs| - 1;
    var before := AllPackets(bs[..last]);
    var c := AfterAll(bs[..last]).cache;
    if k < |before| {
      SampleIdentity(bs[..last], j, k);
    } else {
      BatchNumber(bs[..last]);
      if j < |before| {
        BatchIsNumbered(c, bs[last], last + 1, k - |before|);
        EarlierBatch(bs[..last], j);
      } else {
        BatchIsOrdered(c, bs[last], last + 1, j - |before|, k - |before|);
      }
    }
  }

  lemma EarlierBatch(bs: seq<Batch>, k: nat)
    requires AllSendable(bs) && |bs| < 0x1_0000_0000 && k < |AllPackets(bs)|
    ensures AllPackets(bs)[k].header.batch <= |bs|
  {
    hide AllPackets, SeenEntry;
    var n, g := PacketOrigin(bs, k);
  }
}
