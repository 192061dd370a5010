/** What of a batch goes on the wire when memory, the socket or the debug copy may fail. */
module Transmissions {
  import opened Bytes
  import opened Wire
  import opened ProcessState
  import opened Grouping
  import opened Sender

  /** The bytes put on the wire, whether all went well, and the size of the block afterwards. */
  datatype Sent = Sent(bytes: seq<byte>, good: bool, capacity: nat) {
    /** The same, with more behind it. */
    function Then(more: Sent): Sent {
      Sent(bytes + more.bytes, more.good, more.capacity)
    }
  }

  /** One packet: the block grows when it is too small and is lost when it cannot; the socket may take only a part. */
  function SentPacket(capacity: nat, p: Packet, t: Transmission): Sent {
    var bytes := Encode(p);
    var grown := if |bytes| <= capacity then capacity else |bytes|;
    if |bytes| > capacity && !t.memory then Sent([], false, 0)
    else if t.accepts < 0 then Sent([], false, grown)
    else if t.accepts < |bytes| then Sent(bytes[..t.accepts], false, grown)
    else Sent(bytes, t.copied, grown)
  }

  /** The packets from sample `lo` on, up to the first that fails. */
  function SentFrom(capacity: nat, c: Cache, b: Batch, number: u32, lo: nat): Sent
    requires |b.sends| == |b.answers| == |b.buffer.samples| < 0x8000_0000 && lo <= |b.buffer.samples|
    decreases |b.buffer.samples| - lo
  {
    if lo == |b.buffer.samples| then Sent([], true, capacity)
    else
      var end := LongestFrom(b.buffer.samples, lo, lo + 1);
      assert Fits(b.buffer.samples, Group(lo, lo + 1));
      var one := SentPacket(capacity, GroupPacket(c, b, number, Group(lo, end)), b.sends[lo]);
      if one.good then one.Then(SentFrom(one.capacity, c, b, number, end)) else one
  }

  /** What is sent is a beginning of the packets' bytes, and all of them when all went well. */
  lemma {:induction false} SentIsPrefix(capacity: nat, c: Cache, b: Batch, number: u32, lo: nat)
    requires |b.sends| == |b.answers| == |b.buffer.samples| < 0x8000_0000 && lo <= |b.buffer.samples|
    ensures var r, all := SentFrom(capacity, c, b, number, lo), EncodeAll(PacketsFrom(c, b, number, lo));
      r.bytes <= all && (r.good ==> r.bytes == all)
    decreases |b.buffer.samples| - lo
  {
    hide Encode, GroupPacket, EncodeAll;
    var ps := PacketsFrom(c, b, number, lo);
    if lo < |b.buffer.samples| {
      var end := LongestFrom(b.buffer.samples, lo, lo + 1);
      var one := SentPacket(capacity, ps[0], b.sends[lo]);
      EncodeAllCons(ps);
      assert ps[1..] == PacketsFrom(c, b, number, end);
      assert one.bytes <= Encode(ps[0]);
      SentIsPrefix(one.capacity, c, b, number, end);
    } else {
      NoBytes();
    }
  }

  lemma NoBytes()
    ensures EncodeAll([]) == []
  {
  }

  /** The block after some packets were sent: as large as the largest so far. */
  function Block(capacity: nat, ps: seq<Packet>): nat {
    if ps == [] then capacity
    else
      var before := Block(capacity, ps[..|ps| - 1]);
      var need := |Encode(ps[|ps| - 1])|;
      if need <= before then before else need
  }

  /** Everything that is asked of the environment for one packet works. Memory is only asked for when the block
      is too small. */
  predicate Works(block: nat, p: Packet, t: Transmission) {
    (|Encode(p)| <= block || t.memory) && |Encode(p)| <= t.accepts && t.copied
  }

  lemma BlockCons(capacity: nat, p: Packet, ps: seq<Packet>)
    ensures Block(capacity, [p] + ps) == Block(Block(capacity, [p]), ps)
  {
    hide Encode;
    if ps == [] {
      assert [p] + ps == [p];
    } else {
      BlockCons(capacity, p, ps[..|ps| - 1]);
      assert ([p] + ps)[..|ps|] == [p] + ps[..|ps| - 1];
    }
  }

  /** Everything that is asked of the environment for these packets, with a block of the given size at first. */
  ghost predicate AllWork(capacity: nat, ps: seq<Packet>, sends: seq<Transmission>) {
    forall k :: 0 <= k < |ps| ==>
      ps[k].header.firstIndex < |sends| && Works(Block(capacity, ps[..k]), ps[k], sends[ps[k].header.firstIndex])
  }

  lemma AllWorkCons(capacity: nat, p: Packet, ps: seq<Packet>, sends: seq<Transmission>)
    requires p.header.firstIndex < |sends|
    ensures AllWork(capacity, [p] + ps, sends)
      <==> Works(capacity, p, sends[p.header.firstIndex]) && AllWork(Block(capacity, [p]), ps, sends)
  {
    hide Works, Block;
    var all := [p] + ps;
    assert all[..0] == [] && Block(capacity, []) == capacity by { NoPackets(capacity); }
    forall k | 0 <= k < |ps|
      ensures Block(capacity, all[..k + 1]) == Block(Block(capacity, [p]), ps[..k]) && all[k + 1] == ps[k]
    {
      BlockCons(capacity, p, ps[..k]);
      assert all[..k + 1] == [p] + ps[..k];
    }
    if AllWork(capacity, all, sends) {
      assert all[0] == p;
      assert forall k :: 0 <= k < |ps| ==> ps[k] == all[k + 1];
    }
  }

  lemma NoPackets(capacity: nat)
    ensures Block(capacity, []) == capacity
  {
  }

  /** A packet is sent if and only if everything asked for it works, and then the block is large enough for it. */
  lemma SentPacketExactly(capacity: nat, p: Packet, t: Transmission)
    ensures var r := SentPacket(capacity, p, t);
      (r.good <==> Works(capacity, p, t)) && (r.good ==> r.capacity == Block(capacity, [p]))
  {
    hide Encode;
    assert [p][..0] == [];
  }

  /** A batch is sent completely if and only if everything it asks of the environment works. */
  lemma {:induction false} SentExactly(capacity: nat, c: Cache, b: Batch, number: u32, lo: nat)
    requires |b.sends| == |b.answers| == |b.buffer.samples| < 0x8000_0000 && lo <= |b.buffer.samples|
    ensures SentFrom(capacity, c, b, number, lo).good <==> AllWork(capacity, PacketsFrom(c, b, number, lo), b.sends)
    decreases |b.buffer.samples| - lo
  {
    hide Encode, SeenEntry, SentPacket, AllWork, Works, Block;
    if lo < |b.buffer.samples| {
      var end := LongestFrom(b.buffer.samples, lo, lo + 1);
      assert Fits(b.buffer.samples, Group(lo, lo + 1));
      var p, rest := GroupPacket(c, b, number, Group(lo, end)), PacketsFrom(c, b, number, end);
      var one := SentPacket(capacity, p, b.sends[lo]);
      SentPacketExactly(capacity, p, b.sends[lo]);
      SentExactly(one.capacity, c, b, number, end);
      AllWorkCons(capacity, p, rest, b.sends);
    } else {
      NothingToDo(capacity, b.sends);
    }
  }

  lemma NothingToDo(capacity: nat, sends: seq<Transmission>)
    ensures AllWork(capacity, [], sends)
  {
  }
}
