/** sender/network.cpp: the loop that looks up, collects and transmits the samples of a buffer. */
module Network {
  import opened Bytes
  import opened SampleBuffer
  import opened Wire
  import opened ProcessState
  import opened ProcessCache
  import opened Grouping
  import opened Sender
  import opened Transmissions
  import opened SenderRuns
  import opened Packetizer

  /** The variable `total` points to, before and after it was set. */
  datatype Total = Unset | Sum(n: nat)

  /** The sending program's statics. `wire` holds every byte the socket accepted. */
  class Sending {
    const packets: Accumulator
    const processes: Processes
    var wire: seq<byte>

    ghost predicate Valid()
      reads this, packets, processes, processes.Records()
    {
      packets.Valid() && processes.Valid()
    }

    ghost function State(): SenderState
      reads this, packets, processes, processes.Records()
    {
      SenderState(processes.View(), packets.header.batch, packets.memoryN)
    }

    constructor ()
      ensures Valid() && State() == START && wire == []
      ensures fresh(packets) && fresh(packets.samples) && fresh(processes)
      ensures packets.memory == null && processes.Records() == {}
    {
      packets := new Accumulator();
      processes := new Processes();
      wire := [];
    }

    /** `network_packet`: the socket accepts all bytes, or only some of them, or reports an error;
        writing the debug copy may fail afterwards. Only success sets `sent`. */
    method SendPacket(packet: array<byte>, bytes: nat, t: Transmission, sent: nat) returns (rc: int, nowSent: nat)
      requires bytes <= packet.Length
      modifies this`wire
      ensures rc == if t.accepts >= bytes && t.copied then 0 else -1
      ensures nowSent == if rc == 0 then bytes else sent
      ensures wire == old(wire) + packet[..if t.accepts < 0 then 0 else if t.accepts < bytes then t.accepts else bytes]
    {
      var sentBytes := if t.accepts < bytes then t.accepts else bytes;
      if sentBytes < 0 {
        return -1, sent;
      }
      wire := wire + packet[..sentBytes];
      if sentBytes != bytes {
        return -1, sent;
      }
      if !t.copied {
        return -1, sent;
      }
      return 0, sentBytes;
    }

    /** `transmit`: sends what is pending, if anything; `sent` stays as it was when nothing is. */
    method Transmit(t: Transmission, sent: nat) returns (rc: int, nowSent: nat)
      requires Valid() && packets.PointersLive()
      modifies this`wire, packets, packets.memory, packets.samples
      ensures Valid() && packets.header.batch == old(packets.header.batch)
      ensures packets.currentIndex == old(packets.currentIndex)
      ensures packets.memory != null ==> packets.memory == old(packets.memory) || fresh(packets.memory)
      ensures rc == 0 ==> packets.Empty()
      ensures if old(packets.Empty()) then
          rc == 0 && nowSent == sent && wire == old(wire) && packets.memoryN == old(packets.memoryN)
        else
          var r := SentPacket(old(packets.memoryN), old(packets.Pending()), t);
          && rc == (if r.good then 0 else -1)
          && wire == old(wire) + r.bytes && packets.memoryN == r.capacity
          && (rc == 0 ==> nowSent == |r.bytes|)
    {
      hide Encode;
      var created, packet, bytes := packets.Create(t.memory);
      if created != 0 {
        return -1, sent;
      }
      if packet == null {
        return 0, sent;
      }
      assert forall k :: 0 <= k <= bytes ==> packet[..bytes][..k] == packet[..k];
      rc, nowSent := SendPacket(packet, bytes, t, sent);
    }

    /** Samples `start` to `i - 1` of the batch are pending, and only they, after `looked` samples were
        looked up: the packet has their header, its strings are borrowed from the record of their process. */
    ghost predicate Holds(c: Cache, b: Batch, number: u32, start: nat, i: nat, looked: nat)
      requires Sendable(b) && i <= looked <= |b.buffer.samples|
      reads this, packets, packets.samples, processes, processes.Records()
    {
      var ss := b.buffer.samples;
      && Valid()
      && processes.View() == Looked(c, b, looked)
      && packets.currentIndex == i
      && packets.header.batch == number
      && if i == 0 then start == 0 && packets.Empty()
         else
           && start < i && Fits(ss, Group(start, i))
           && LongestFrom(ss, start, start + 1) == LongestFrom(ss, start, i)
           && !packets.Empty()
           && packets.header == GroupPacket(c, b, number, Group(start, i)).header
           && packets.samples[..packets.header.quantity] == ss[start..i]
           && ss[start].pid in processes.procMap
           && packets.info == processes.procMap[ss[start].pid]
           && packets.borrowed == SeenEntry(c, b, start).loads
    }

    lemma HoldsOnly(c: Cache, b: Batch, number: u32, start: nat, i: nat, looked: nat)
      requires Sendable(b) && i <= looked <= |b.buffer.samples| && Holds(c, b, number, start, i, looked)
      ensures Valid() && processes.View() == Looked(c, b, looked)
      ensures packets.currentIndex == i && packets.header.batch == number
      ensures if i == 0 then start == 0 && packets.Empty()
              else start < i && Fits(b.buffer.samples, Group(start, i)) && !packets.Empty()
    {
    }

    /** The pending packet is the one the specification sends next, and its string pointers are good:
        no look since it was started has touched the record they point into. */
    lemma {:induction false} PendingPacket(c: Cache, b: Batch, number: u32, start: nat, i: nat, looked: nat)
      requires Sendable(b) && 0 < i <= looked <= |b.buffer.samples|
      requires Holds(c, b, number, start, i, looked)
      ensures packets.PointersLive()
      ensures packets.Pending() == GroupPacket(c, b, number, Group(start, i))
      ensures packets.info.View() == SeenEntry(c, b, start) && packets.header.firstIndex == start
    {
      var pid := b.buffer.samples[start].pid;
      SeenEntryStays(c, b, start, looked);
      assert processes.View().entries[pid] == processes.procMap[pid].View();
    }

    /** Cutting at `i`, as the code decides it, is what the greedy grouping does. The mode alone never forces a cut. */
    lemma {:induction false} CutsGreedily(c: Cache, b: Batch, number: u32, start: nat, i: nat, mode: Mode)
      requires Sendable(b) && 0 < i < |b.buffer.samples|
      requires Fits(b.buffer.samples, Group(start, i))
      requires packets.header == GroupPacket(c, b, number, Group(start, i)).header
      requires mode == SeenEntry(c, b, i).mode
      ensures packets.ShouldCreate(b.buffer, b.buffer.samples[i], mode)
         <==> i - start == MAX_QUANTITY || b.buffer.samples[i].pid != b.buffer.samples[start].pid
    {
      hide Looked, SeenEntry;
      var ss := b.buffer.samples;
      if ss[i].pid == ss[start].pid {
        SeenEntryStays(c, b, start, i + 1);
        SeenEntryStays(c, b, i, i + 1);
      }
    }

    /** What is still to be sent when the group from `start` ends at `i`. */
    lemma NextPacket(capacity: nat, c: Cache, b: Batch, number: u32, start: nat, i: nat)
      requires Sendable(b) && start < i <= |b.buffer.samples|
      requires Fits(b.buffer.samples, Group(start, i)) && LongestFrom(b.buffer.samples, start, start + 1) == i
      ensures var one := SentPacket(capacity, GroupPacket(c, b, number, Group(start, i)), b.sends[start]);
        SentFrom(capacity, c, b, number, start)
          == if one.good then one.Then(SentFrom(one.capacity, c, b, number, i)) else one
    {
      hide SentPacket, GroupPacket;
    }

    /** One look of the loop. While a packet is pending nothing is re-read. */
    method Look(ghost c: Cache, b: Batch, ghost number: u32, ghost start: nat, i: nat) returns (pi: ProcessInfo)
      requires Sendable(b) && i < |b.buffer.samples| && Holds(c, b, number, start, i, i)
      modifies processes, processes.Records()
      ensures Holds(c, b, number, start, i, i + 1)
      ensures b.buffer.samples[i].pid in processes.procMap && pi == processes.procMap[b.buffer.samples[i].pid]
      ensures pi.View() == SeenEntry(c, b, i)
      ensures fresh(processes.Records() - old(processes.Records()))
    {
      hide Lookup, GroupPacket, SeenEntry;
      pi := processes.GetProcessInfo(b.buffer.samples[i].pid, packets.Empty(), b.answers[i]);
      assert processes.View() == Looked(c, b, i + 1);
      SeenEntryStays(c, b, i, i + 1);
    }

    /** Appending sample `i` to the pending packet, or starting the next one with it, never fails. */
    method Take(ghost c: Cache, b: Batch, ghost number: u32, ghost start: nat, i: nat, pi: ProcessInfo)
      returns (rc: int, ghost newStart: nat)
      requires Sendable(b) && i < |b.buffer.samples| && Valid() && processes.View() == Looked(c, b, i + 1)
      requires
        if packets.Empty() then start == i && packets.currentIndex == i && packets.header.batch == number
        else 0 < i && Holds(c, b, number, start, i, i + 1)
             && !packets.ShouldCreate(b.buffer, b.buffer.samples[i], pi.mode)
      requires b.buffer.samples[i].pid in processes.procMap && pi == processes.procMap[b.buffer.samples[i].pid]
      requires pi.View() == SeenEntry(c, b, i)
      modifies packets, packets.samples
      ensures rc == 0 && newStart == start && Holds(c, b, number, start, i + 1, i + 1)
      ensures packets.memory == old(packets.memory)
    {
      hide Looked, SeenEntry, LongestFrom, Fits;
      newStart := start;
      GroupStarts(b.buffer.samples, i);
      if !packets.Empty() {
        CutsGreedily(c, b, number, start, i, pi.mode);
        GroupGrows(b.buffer.samples, start, i);
      }
      rc := packets.Append(b.buffer, b.buffer.samples[i], pi, b.missed);
    }

    static lemma GroupStarts(ss: seq<Sample>, i: nat)
      requires i < |ss|
      ensures Fits(ss, Group(i, i + 1))
    {
    }

    static lemma GroupGrows(ss: seq<Sample>, start: nat, i: nat)
      requires start < i < |ss| && Fits(ss, Group(start, i))
      requires i - start < MAX_QUANTITY && ss[i].pid == ss[start].pid
      ensures Fits(ss, Group(start, i + 1)) && LongestFrom(ss, start, i) == LongestFrom(ss, start, i + 1)
    {
    }

    /** What goes on the wire of a batch from sample `lo` on. */
    ghost function Rest(c: Cache, b: Batch, number: u32, lo: nat): Sent
      requires Sendable(b) && lo <= |b.buffer.samples|
      reads packets
    {
      SentFrom(packets.memoryN, c, b, number, lo)
    }

    /** Transmits the pending packet of the group from `start` to `i`; at the very beginning there is none. */
    method SendPending(ghost c: Cache, b: Batch, ghost number: u32, ghost start: nat, ghost i: nat,
                       ghost looked: nat, sent: nat)
      returns (rc: int, nowSent: nat)
      requires Sendable(b) && i <= looked <= |b.buffer.samples| && Holds(c, b, number, start, i, looked)
      requires i == 0 ==> sent == 0
      requires i > 0 ==> start < i && LongestFrom(b.buffer.samples, start, start + 1) == i
      modifies this`wire, packets, packets.memory, packets.samples
      ensures Valid() && packets.currentIndex == i && packets.header.batch == number
      ensures processes.View() == Looked(c, b, looked)
      ensures packets.memory != null ==> packets.memory == old(packets.memory) || fresh(packets.memory)
      ensures Outcome(old(wire), old(Rest(c, b, number, start)), c, b, number, i, rc)
      ensures rc == 0 ==> nowSent == |wire| - |old(wire)| && packets.Empty()
    {
      hide Encode, Looked, SeenEntry, GroupPacket, LongestFrom, SentFrom, SentPacket, Holds, Fits;
      HoldsOnly(c, b, number, start, i, looked);
      var t := Transmission(true, 0, true);
      if !packets.Empty() {
        PendingPacket(c, b, number, start, i, looked);
        t := b.sends[packets.header.firstIndex];
        NextPacket(packets.memoryN, c, b, number, start, i);
      }
      rc, nowSent := Transmit(t, sent);
    }

    /** After bytes were sent from a state with `wire` sent and `rest` to come: either all went well so far and what is
        on the wire and what is to come from sample `i` on are together the same, or nothing more will come. */
    ghost predicate Outcome(wire: seq<byte>, rest: Sent, c: Cache, b: Batch, number: u32, i: nat, rc: int)
      requires Sendable(b) && i <= |b.buffer.samples|
      reads this, packets
    {
      && (rc == 0 || rc == -1) && wire <= this.wire
      && if rc == 0 then
           var now := Rest(c, b, number, i);
           rest.good == now.good && rest.capacity == now.capacity && wire + rest.bytes == this.wire + now.bytes
         else
           !rest.good && rest.capacity == packets.memoryN && wire + rest.bytes == this.wire
    }

    /** The body of the loop: sample `i` is looked up, what is pending is sent if it cannot take the sample,
        and the sample is appended. */
    method SendSample(ghost c: Cache, b: Batch, ghost number: u32, ghost start: nat, i: nat, sent: nat)
      returns (rc: int, added: nat, nowSent: nat, ghost newStart: nat)
      requires Sendable(b) && i < |b.buffer.samples| && Holds(c, b, number, start, i, i)
      modifies this`wire, packets, packets.memory, packets.samples, processes, processes.Records()
      ensures Valid() && packets.header.batch == number && newStart <= |b.buffer.samples|
      ensures Outcome(old(wire), old(Rest(c, b, number, start)), c, b, number, newStart, rc)
      ensures rc == 0 ==>
        newStart <= i && Holds(c, b, number, newStart, i + 1, i + 1) && added == |wire| - |old(wire)|
      ensures packets.memory != null ==> packets.memory == old(packets.memory) || fresh(packets.memory)
      ensures fresh(processes.Records() - old(processes.Records()))
    {
      hide Looked, SeenEntry, GroupPacket, LongestFrom, SentFrom, Holds, Fits;
      added, nowSent, newStart := 0, sent, start;
      var s := b.buffer.samples[i];
      var pi := Look(c, b, number, start, i);
      HoldsOnly(c, b, number, start, i, i + 1);
      if packets.ShouldCreate(b.buffer, s, pi.mode) {
        GroupEnds(c, b, number, start, i, pi);
        rc, nowSent := SendPending(c, b, number, start, i, i + 1, nowSent);
        if rc != 0 {
          return;
        }
        added, newStart := nowSent, i;
      }
      rc, newStart := Take(c, b, number, newStart, i, pi);
      if rc != 0 {
        assert false;  // nothing is pending, or what is pending takes the sample
      }
      HoldsOnly(c, b, number, newStart, i + 1, i + 1);
    }

    /** `network_send`. It succeeds exactly when everything it asks of the environment works, and puts on the wire
        exactly what `BatchSent` says, whether it succeeds or not. */
    method NetworkSend(b: Batch) returns (rc: int, total: Total)
      requires Valid() && Sendable(b)
      modifies this`wire, packets, packets.memory, packets.samples, processes, processes.Records()
      ensures Valid()
      ensures var r := BatchSent(old(State()), b);
        && rc == (if r.good then 0 else -1)
        && wire == old(wire) + r.bytes && packets.memoryN == r.capacity
        && total == if r.good then Sum(|r.bytes|) else Unset
      ensures packets.header.batch == NextBatch(old(packets.header.batch))
      ensures rc == 0 ==> State() == AfterBatch(old(State()), b)
      ensures packets.memory != null ==> packets.memory == old(packets.memory) || fresh(packets.memory)
      ensures fresh(processes.Records() - old(processes.Records()))
    {
      hide Looked, SeenEntry, GroupPacket, LongestFrom, SentFrom, Holds;
      ghost var c, number := processes.View(), NextBatch(packets.header.batch);
      ghost var start: nat := 0;
      var n := |b.buffer.samples|;
      var sent: nat, sentTotal: nat, added: nat := 0, 0, 0;
      total := Unset;
      packets.StartBatch();
      StartHolds(c, b, number);
      ghost var all := Rest(c, b, number, 0);
      for index := 0 to n
        invariant start <= index && Holds(c, b, number, start, index, index)
        invariant Outcome(old(wire), all, c, b, number, start, 0) && sentTotal == |wire| - |old(wire)|
        invariant index == 0 ==> sent == 0
        invariant packets.memory != null ==> packets.memory == old(packets.memory) || fresh(packets.memory)
        invariant fresh(processes.Records() - old(processes.Records()))
      {
        rc, added, sent, start := SendSample(c, b, number, start, index, sent);
        if rc != 0 {
          return -1, Unset;
        }
        sentTotal := sentTotal + added;
      }
      LastGroupEnds(c, b, number, start);
      rc, sent := SendPending(c, b, number, start, n, n, sent);
      if rc != 0 {
        return -1, Unset;
      }
      NothingLeft(c, b, number);
      sentTotal := sentTotal + sent;
      total := Sum(sentTotal);
    }

    lemma NothingLeft(c: Cache, b: Batch, number: u32)
      requires Sendable(b)
      ensures Rest(c, b, number, |b.buffer.samples|) == Sent([], true, packets.memoryN)
    {
    }

    lemma StartHolds(c: Cache, b: Batch, number: u32)
      requires Sendable(b) && Valid() && packets.Empty()
      requires processes.View() == c && packets.currentIndex == 0 && packets.header.batch == number
      ensures Holds(c, b, number, 0, 0, 0)
    {
    }

    lemma LastGroupEnds(c: Cache, b: Batch, number: u32, start: nat)
      requires Sendable(b)
      requires Holds(c, b, number, start, |b.buffer.samples|, |b.buffer.samples|)
      ensures var n := |b.buffer.samples|;
        n > 0 ==> start < n && LongestFrom(b.buffer.samples, start, start + 1) == n
    {
      hide GroupPacket, SeenEntry, Looked;
    }

    /** When the code cuts before sample `i`, the greedy group ends there. */
    lemma GroupEnds(c: Cache, b: Batch, number: u32, start: nat, i: nat, pi: ProcessInfo)
      requires Sendable(b) && 0 < i < |b.buffer.samples|
      requires Holds(c, b, number, start, i, i + 1)
      requires pi.View() == SeenEntry(c, b, i)
      requires packets.ShouldCreate(b.buffer, b.buffer.samples[i], pi.mode)
      ensures LongestFrom(b.buffer.samples, start, start + 1) == i
    {
      hide Looked, SeenEntry, GroupPacket;
      CutsGreedily(c, b, number, start, i, pi.mode);
    }
  }
}
