/** What `network_send` puts on the wire, as functions of the buffer, the process cache and /proc. */
module Sender {
  import opened Bytes
  import opened SampleBuffer
  import opened Wire
  import opened ProcessState
  import opened Grouping

  /** What the environment does when a packet is transmitted: whether the block may grow, how many bytes the socket is
      ready to accept, negative for an error, and whether the debug copy, if any, can be written. */
  datatype Transmission = Transmission(memory: bool, accepts: int, copied: bool)

  /** One call of `network_send`; `answers[i]` is what /proc would answer while sample `i` is looked up, and `sends[i]`
      is what would happen to the packet that starts with sample `i`. */
  datatype Batch = Batch(buffer: BufferData, missed: u32, answers: seq<Answer>, sends: seq<Transmission>)

  ghost predicate Sendable(b: Batch) {
    && |b.sends| == |b.answers| == |b.buffer.samples| < 0x8000_0000
    && forall i :: 0 <= i < |b.buffer.samples| ==> b.buffer.samples[i].pid < 0x1_0000_0000
  }

  /** The cache after the first `i` samples of a batch were looked up; only the first look re-checks. */
  function Looked(c: Cache, b: Batch, i: nat): Cache
    requires |b.answers| == |b.buffer.samples| && i <= |b.buffer.samples|
  {
    if i == 0 then c
    else Lookup(Looked(c, b, i - 1), b.buffer.samples[i - 1].pid, i == 1, b.answers[i - 1])
  }

  /** The entry sample `i` is sent with. */
  function SeenEntry(c: Cache, b: Batch, i: nat): Entry
    requires |b.answers| == |b.buffer.samples| && i < |b.buffer.samples|
  {
    Looked(c, b, i + 1).entries[b.buffer.samples[i].pid]
  }

  /** A process seen in a batch keeps its entry until the end of the batch. */
  lemma {:induction false} SeenEntryStays(c: Cache, b: Batch, i: nat, j: nat)
    requires |b.answers| == |b.buffer.samples| && i < j <= |b.buffer.samples|
    ensures var pid := b.buffer.samples[i].pid;
      && pid in Looked(c, b, j).entries
      && Looked(c, b, j).entries[pid] == SeenEntry(c, b, i)
      && SeenEntry(c, b, i).mode != Unknown
    decreases j
  {
    LookupKnows(Looked(c, b, i), b.buffer.samples[i].pid, i == 0, b.answers[i]);
    if i + 1 < j {
      SeenEntryStays(c, b, i, j - 1);
      UncheckedLookupKeeps(Looked(c, b, j - 1), b.buffer.samples[j - 1].pid, b.answers[j - 1], b.buffer.samples[i].pid);
    }
  }

  /** At most one process known before a batch is re-read during it: that of the first sample. */
  lemma {:induction false} OthersNotRefreshed(c: Cache, b: Batch, i: nat, known: u64)
    requires |b.answers| == |b.buffer.samples| && i <= |b.buffer.samples|
    requires known in c.entries && c.entries[known].mode != Unknown
    requires i > 0 ==> known != b.buffer.samples[0].pid
    ensures known in Looked(c, b, i).entries && Looked(c, b, i).entries[known] == c.entries[known]
  {
    if i > 0 {
      OthersNotRefreshed(c, b, i - 1, known);
      if i > 1 {
        UncheckedLookupKeeps(Looked(c, b, i - 1), b.buffer.samples[i - 1].pid, b.answers[i - 1], known);
      }
    }
  }

  /** The number of the batch after batch `n`. */
  function NextBatch(n: u32): u32 {
    Low32(n + 1)
  }

  function KernelByte(m: Mode): byte {
    if m == Kernel then 1 else 0
  }

  /** The packet of samples `g.lo` to `g.hi - 1`: the strings and the mode are those seen at its first sample. */
  function GroupPacket(c: Cache, b: Batch, number: u32, g: Group): Packet
    requires |b.answers| == |b.buffer.samples| < 0x8000_0000
    requires g.lo < g.hi <= |b.buffer.samples| && g.hi - g.lo <= MAX_QUANTITY
  {
    var ss := b.buffer.samples;
    var e := SeenEntry(c, b, g.lo);
    Packet(Header(KernelByte(e.mode), NUM_COUNTERS, b.buffer.core % 0x100, g.hi - g.lo,
                  number, b.missed, g.lo, Low32(ss[g.lo].pid)),
           ss[g.lo..g.hi], CString(e.cmdline), CString(e.executable))
  }

  function PacketsFrom(c: Cache, b: Batch, number: u32, lo: nat): seq<Packet>
    requires |b.answers| == |b.buffer.samples| < 0x8000_0000 && lo <= |b.buffer.samples|
    decreases |b.buffer.samples| - lo
  {
    if lo == |b.buffer.samples| then []
    else
      var end := LongestFrom(b.buffer.samples, lo, lo + 1);
      assert Fits(b.buffer.samples, Group(lo, lo + 1));
      [GroupPacket(c, b, number, Group(lo, end))] + PacketsFrom(c, b, number, end)
  }

  /** The packets are those of the greedy groups, one for one. */
  lemma {:induction false} PacketsAreGroups(c: Cache, b: Batch, number: u32, lo: nat)
    requires |b.answers| == |b.buffer.samples| < 0x8000_0000 && lo <= |b.buffer.samples|
    ensures var gs, ps := Greedy(b.buffer.samples, lo), PacketsFrom(c, b, number, lo);
      && |ps| == |gs|
      && forall k :: 0 <= k < |gs| ==>
           Fits(b.buffer.samples, gs[k]) && ps[k] == GroupPacket(c, b, number, gs[k])
    decreases |b.buffer.samples| - lo
  {
    hide GroupPacket;
    if lo < |b.buffer.samples| {
      var end := LongestFrom(b.buffer.samples, lo, lo + 1);
      assert Fits(b.buffer.samples, Group(lo, lo + 1));
      PacketsAreGroups(c, b, number, end);
    }
  }

  /** No other way to cut the buffer into packets of one process and at most 255 samples sends fewer packets. */
  lemma {:induction false} FewestPackets(c: Cache, b: Batch, number: u32, gs: seq<Group>)
    requires |b.answers| == |b.buffer.samples| < 0x8000_0000 && IsSplit(b.buffer.samples, 0, gs)
    ensures |PacketsFrom(c, b, number, 0)| <= |gs|
  {
    PacketsAreGroups(c, b, number, 0);
    GreedyIsOptimal(b.buffer.samples, 0, gs);
  }

  /** A group is a packet the format can carry. */
  lemma GroupPacketWellFormed(c: Cache, b: Batch, number: u32, g: Group)
    requires |b.answers| == |b.buffer.samples| < 0x8000_0000 && Fits(b.buffer.samples, g)
    ensures WellFormed(GroupPacket(c, b, number, g))
  {
    var e := SeenEntry(c, b, g.lo);
    StrLenUnique(CString(e.cmdline), StrLen(e.cmdline));
    StrLenUnique(CString(e.executable), StrLen(e.executable));
  }

  lemma PacketsWellFormed(c: Cache, b: Batch, number: u32)
    requires |b.answers| == |b.buffer.samples| < 0x8000_0000
    ensures AllWellFormed(PacketsFrom(c, b, number, 0))
  {
    PacketsAreGroups(c, b, number, 0);
    var gs := Greedy(b.buffer.samples, 0);
    forall k | 0 <= k < |gs|
      ensures WellFormed(GroupPacket(c, b, number, gs[k]))
    {
      GroupPacketWellFormed(c, b, number, gs[k]);
    }
  }

  /** Aliasing safety, as values: when a packet is written, after up to `j` further looks, the strings and
      the mode of its process are those it was started with, and all its samples agree on the mode. */
  lemma {:induction false} PacketAgreesWithCache(c: Cache, b: Batch, number: u32, g: Group, i: nat, j: nat)
    requires |b.answers| == |b.buffer.samples| < 0x8000_0000 && Fits(b.buffer.samples, g)
    requires g.lo <= i < g.hi && i < j <= |b.buffer.samples|
    ensures var p, pid := GroupPacket(c, b, number, g), b.buffer.samples[i].pid;
      && pid in Looked(c, b, j).entries
      && var e := Looked(c, b, j).entries[pid];
         && e == SeenEntry(c, b, i)
         && p.cmdline == CString(e.cmdline) && p.exe == CString(e.executable)
         && (p.header.kernel == 1 <==> e.mode == Kernel)
  {
    SeenEntryStays(c, b, g.lo, j);
    SeenEntryStays(c, b, i, j);
  }
}
