/** How the samples of a run go through its packets: all of them, in order, and which of them the splitter drops. */
module SampleFlow {
  import opened Bytes
  import opened SampleBuffer
  import opened Wire
  import opened Grouping
  import opened Sender
  import opened SenderRuns
  import opened Splitting
  import ProcessState

  /** Some cores, as a packet numbers them. */
  type CoreSet = byte -> bool

  /** The samples of a process, in order. */
  ghost function ProcessSamples(ss: seq<Sample>, pid: u32): seq<Sample> {
    if ss == [] then []
    else ProcessSamples(ss[..|ss| - 1], pid) + if ss[|ss| - 1].pid == pid then [ss[|ss| - 1]] else []
  }

  ghost function ProcessRows(ss: seq<Sample>, pid: u32): seq<Line> {
    RowsOf(ProcessSamples(ss, pid))
  }

  /** The lines are rows that show a beginning of these samples. */
  ghost predicate ShowsBeginning(rows: seq<Line>, ss: seq<Sample>) {
    |rows| <= |ss| && RowsShow(rows, ss[..|rows|])
  }

  lemma ProcessRowsShow(rows: seq<Line>, ss: seq<Sample>, pid: u32)
    ensures rows <= ProcessRows(ss, pid) ==> ShowsBeginning(rows, ProcessSamples(ss, pid))
    ensures rows == ProcessRows(ss, pid) <==> RowsShow(rows, ProcessSamples(ss, pid))
  {
    hide ProcessSamples;
    var all := ProcessRows(ss, pid);
    RowsOfShow(ProcessSamples(ss, pid));
    if RowsShow(rows, ProcessSamples(ss, pid)) {
      assert forall k :: 0 <= k < |rows| ==> rows[k] == all[k];
    }
  }

  /** All samples of a run, in order. */
  ghost function EverySample(bs: seq<Batch>): seq<Sample> {
    if bs == [] then [] else EverySample(bs[..|bs| - 1]) + bs[|bs| - 1].buffer.samples
  }

  /** The samples of a run from some cores, in order. */
  ghost function SamplesOf(bs: seq<Batch>, cores: CoreSet): seq<Sample> {
    if bs == [] then []
    else
      var b := bs[|bs| - 1].buffer;
      SamplesOf(bs[..|bs| - 1], cores) + if cores(b.core % 0x100) then b.samples else []
  }

  /** The rows of the packets of some cores and of one process, in order. */
  ghost function PacketRows(ps: seq<Packet>, cores: CoreSet, pid: u32): seq<Line> {
    if ps == [] then []
    else
      var p := ps[|ps| - 1];
      PacketRows(ps[..|ps| - 1], cores, pid)
      + if cores(p.header.core) && p.header.pid == pid then RowsOf(p.samples) else []
  }

  ghost function EveryCore(): CoreSet {
    c => true
  }

  /** The cores the splitter has outputs for. */
  ghost function ServedCores(): CoreSet {
    c => c < CORES
  }

  // -------------------------------------------------------- from samples to packets

  lemma {:induction false} ProcessSamplesAppend(a: seq<Sample>, b: seq<Sample>, pid: u32)
    ensures ProcessSamples(a + b, pid) == ProcessSamples(a, pid) + ProcessSamples(b, pid)
  {
    if b == [] {
      assert a + b == a;
    } else {
      ProcessSamplesAppend(a, b[..|b| - 1], pid);
      assert (a + b)[..|a + b| - 1] == a + b[..|b| - 1];
    }
  }

  lemma RowsOfAppend(a: seq<Sample>, b: seq<Sample>)
    ensures RowsOf(a + b) == RowsOf(a) + RowsOf(b)
  {
  }

  lemma ProcessRowsAppend(a: seq<Sample>, b: seq<Sample>, pid: u32)
    ensures ProcessRows(a + b, pid) == ProcessRows(a, pid) + ProcessRows(b, pid)
  {
    ProcessSamplesAppend(a, b, pid);
    RowsOfAppend(ProcessSamples(a, pid), ProcessSamples(b, pid));
  }

  lemma PacketRowsSnoc(ps: seq<Packet>, p: Packet, cores: CoreSet, pid: u32)
    ensures PacketRows(ps + [p], cores, pid)
         == PacketRows(ps, cores, pid) + if cores(p.header.core) && p.header.pid == pid then RowsOf(p.samples) else []
  {
    hide RowsOf;
    assert (ps + [p])[..|ps|] == ps;
  }

  lemma LastApart(ps: seq<Packet>, qs: seq<Packet>)
    requires qs != []
    ensures var front, q := qs[..|qs| - 1], qs[|qs| - 1];
      ps + qs == ps + front + [q] && qs == front + [q]
  {
  }

  lemma Regrouped(a: seq<Line>, b: seq<Line>, c: seq<Line>)
    ensures a + b + c == a + (b + c)
  {
  }

  lemma {:induction false} PacketRowsAppend(ps: seq<Packet>, qs: seq<Packet>, cores: CoreSet, pid: u32)
    ensures PacketRows(ps + qs, cores, pid) == PacketRows(ps, cores, pid) + PacketRows(qs, cores, pid)
  {
    hide RowsOf;
    if qs == [] {
      assert ps + qs == ps;
    } else {
      hide PacketRows;
      var front, q := qs[..|qs| - 1], qs[|qs| - 1];
      var rows := if cores(q.header.core) && q.header.pid == pid then RowsOf(q.samples) else [];
      PacketRowsAppend(ps, front, cores, pid);
      PacketRowsSnoc(ps + front, q, cores, pid);
      PacketRowsSnoc(front, q, cores, pid);
      LastApart(ps, qs);
      Regrouped(PacketRows(ps, cores, pid), PacketRows(front, cores, pid), rows);
    }
  }

  /** The rows the splitter writes are those of the packets of the cores it serves. */
  lemma {:induction false} ServedRows(ps: seq<Packet>, pid: u32)
    ensures ExpectedRows(ps, pid) == PacketRows(ps, ServedCores(), pid)
  {
    hide RowsOf;
    if ps != [] {
      ServedRows(ps[..|ps| - 1], pid);
    }
  }

  lemma {:induction false} OneProcess(ss: seq<Sample>, pid: u32, only: u32)
    requires forall i :: 0 <= i < |ss| ==> ss[i].pid == only
    ensures ProcessSamples(ss, pid) == if only == pid then ss else []
  {
    if ss != [] {
      OneProcess(ss[..|ss| - 1], pid, only);
    }
  }

  /** The rows of a packet survive the wire. */
  lemma RowsCarried(p: Packet)
    ensures RowsOf(Carried(p).samples) == RowsOf(p.samples)
  {
  }

  lemma GroupRows(p: Packet, cores: CoreSet, pid: u32)
    requires forall i :: 0 <= i < |p.samples| ==> p.samples[i].pid == p.header.pid
    ensures PacketRows([Carried(p)], cores, pid) == if cores(p.header.core) then ProcessRows(p.samples, pid) else []
  {
    RowsCarried(p);
    OneProcess(p.samples, pid, p.header.pid);
    assert RowsOf([]) == [];
    hide RowsOf, ProcessSamples;
    assert [Carried(p)][..0] == [];
    assert [] + RowsOf(p.samples) == RowsOf(p.samples);
    assert PacketRows([], cores, pid) == [];
  }

  lemma CarriedAppend(ps: seq<Packet>, qs: seq<Packet>)
    ensures CarriedAll(ps + qs) == CarriedAll(ps) + CarriedAll(qs)
  {
    hide Carried;
  }

  lemma GroupShape(c: ProcessState.Cache, b: Batch, number: u32, g: Group)
    requires Sendable(b) && Fits(b.buffer.samples, g)
    ensures var p := GroupPacket(c, b, number, g);
      && p.samples == b.buffer.samples[g.lo..g.hi] && p.header.core == b.buffer.core % 0x100
      && forall i :: 0 <= i < |p.samples| ==> p.samples[i].pid == p.header.pid
  {
    hide SeenEntry;
  }

  /** The first packet from sample `lo` on, and the others. */
  lemma FirstPacket(c: ProcessState.Cache, b: Batch, number: u32, lo: nat)
    requires Sendable(b) && lo < |b.buffer.samples|
    ensures var end := LongestFrom(b.buffer.samples, lo, lo + 1);
      && end - lo <= MAX_QUANTITY && Fits(b.buffer.samples, Group(lo, end))
      && PacketsFrom(c, b, number, lo) == [GroupPacket(c, b, number, Group(lo, end))] + PacketsFrom(c, b, number, end)
  {
    hide GroupPacket;
    assert Fits(b.buffer.samples, Group(lo, lo + 1));
  }

  lemma {:induction false} BatchRows(c: ProcessState.Cache, b: Batch, number: u32, lo: nat, cores: CoreSet, pid: u32)
    requires Sendable(b) && lo <= |b.buffer.samples|
    ensures PacketRows(CarriedAll(PacketsFrom(c, b, number, lo)), cores, pid)
         == if cores(b.buffer.core % 0x100) then ProcessRows(b.buffer.samples[lo..], pid) else []
    decreases |b.buffer.samples| - lo
  {
    hide SeenEntry, PacketRows, ProcessRows, CarriedAll, Carried, GroupPacket, PacketsFrom, LongestFrom, Fits;
    var ss := b.buffer.samples;
    if lo == |ss| {
      NoRowsLeft(c, b, number, cores, pid);
    } else {
      var end := LongestFrom(ss, lo, lo + 1);
      FirstPacket(c, b, number, lo);
      var p := GroupPacket(c, b, number, Group(lo, end));
      var rest := PacketsFrom(c, b, number, end);
      GroupShape(c, b, number, Group(lo, end));
      GroupRows(p, cores, pid);
      BatchRows(c, b, number, end, cores, pid);
      FirstAndRest(p, rest, cores, pid);
      SplitRows(ss, lo, end, pid);
    }
  }

  lemma NoRowsLeft(c: ProcessState.Cache, b: Batch, number: u32, cores: CoreSet, pid: u32)
    requires Sendable(b)
    ensures PacketRows(CarriedAll(PacketsFrom(c, b, number, |b.buffer.samples|)), cores, pid) == []
    ensures ProcessRows(b.buffer.samples[|b.buffer.samples|..], pid) == []
  {
    NoRows(cores, pid);
    NothingCarried();
    assert b.buffer.samples[|b.buffer.samples|..] == [];
  }

  lemma FirstAndRest(p: Packet, rest: seq<Packet>, cores: CoreSet, pid: u32)
    ensures PacketRows(CarriedAll([p] + rest), cores, pid)
         == PacketRows([Carried(p)], cores, pid) + PacketRows(CarriedAll(rest), cores, pid)
  {
    hide PacketRows, CarriedAll, Carried;
    CarriedAppend([p], rest);
    OneCarried(p);
    PacketRowsAppend([Carried(p)], CarriedAll(rest), cores, pid);
  }

  lemma SplitRows(ss: seq<Sample>, lo: nat, end: nat, pid: u32)
    requires lo <= end <= |ss|
    ensures ProcessRows(ss[lo..], pid) == ProcessRows(ss[lo..end], pid) + ProcessRows(ss[end..], pid)
  {
    hide ProcessRows;
    ProcessRowsAppend(ss[lo..end], ss[end..], pid);
    assert ss[lo..] == ss[lo..end] + ss[end..];
  }

  lemma NothingCarried()
    ensures CarriedAll([]) == []
  {
  }

  lemma OneCarried(p: Packet)
    ensures CarriedAll([p]) == [Carried(p)]
  {
    hide Carried;
  }

  lemma NoRows(cores: CoreSet, pid: u32)
    ensures PacketRows([], cores, pid) == [] && ProcessRows([], pid) == []
  {
  }

  /** Whatever cores are looked at, their packets carry each process's samples from these cores, all of them, once,
      and in order. */
  lemma {:induction false} RunRowsOf(bs: seq<Batch>, cores: CoreSet, pid: u32)
    requires AllSendable(bs)
    ensures PacketRows(CarriedAll(AllPackets(bs)), cores, pid) == ProcessRows(SamplesOf(bs, cores), pid)
  {
    hide Carried, PacketsFrom, ProcessRows;
    if bs == [] {
      NoRows(cores, pid);
      assert CarriedAll(AllPackets(bs)) == [];
    } else {
      var before, b := bs[..|bs| - 1], bs[|bs| - 1];
      assert Sendable(b);
      var st := AfterAll(before);
      NoRows(cores, pid);
      RunRowsOf(before, cores, pid);
      BatchRows(st.cache, b, NextBatch(st.batch), 0, cores, pid);
      assert b.buffer.samples[0..] == b.buffer.samples;
      CarriedAppend(AllPackets(before), BatchPackets(st, b));
      PacketRowsAppend(CarriedAll(AllPackets(before)), CarriedAll(BatchPackets(st, b)), cores, pid);
      ProcessRowsAppend(SamplesOf(before, cores), if cores(b.buffer.core % 0x100) then b.buffer.samples else [], pid);
    }
  }

  lemma {:induction false} FromEveryCore(bs: seq<Batch>)
    ensures SamplesOf(bs, EveryCore()) == EverySample(bs)
  {
    if bs != [] {
      FromEveryCore(bs[..|bs| - 1]);
    }
  }

  /** The packets of a run carry each process's samples, all of them, once, and in order. */
  lemma {:induction false} RunRows(bs: seq<Batch>, pid: u32)
    requires AllSendable(bs)
    ensures RowsShow(PacketRows(CarriedAll(AllPackets(bs)), EveryCore(), pid), ProcessSamples(EverySample(bs), pid))
  {
    RunRowsOf(bs, EveryCore(), pid);
    FromEveryCore(bs);
    ProcessRowsShow(ProcessRows(EverySample(bs), pid), EverySample(bs), pid);
  }

  // ---------------------------------------------------------------- what is not served

  /** No buffer with samples of the process is from a core the splitter has no output for. */
  ghost predicate ServedFor(bs: seq<Batch>, pid: u32) {
    forall i :: 0 <= i < |bs| ==> bs[i].buffer.core % 0x100 < CORES || ProcessSamples(bs[i].buffer.samples, pid) == []
  }

  /** No buffer with samples is from such a core. */
  ghost predicate CoresServed(bs: seq<Batch>) {
    forall i :: 0 <= i < |bs| ==> bs[i].buffer.core % 0x100 < CORES || bs[i].buffer.samples == []
  }

  lemma ServedLast(bs: seq<Batch>, pid: u32)
    requires bs != []
    ensures var b := bs[|bs| - 1].buffer;
      ServedFor(bs, pid) <==>
        ServedFor(bs[..|bs| - 1], pid) && (b.core % 0x100 < CORES || ProcessSamples(b.samples, pid) == [])
  {
    var before := bs[..|bs| - 1];
    assert forall i :: 0 <= i < |before| ==> before[i] == bs[i];
    if ServedFor(bs, pid) {
      forall i | 0 <= i < |before|
        ensures before[i].buffer.core % 0x100 < CORES || ProcessSamples(before[i].buffer.samples, pid) == []
      {
        assert bs[i].buffer.core % 0x100 < CORES || ProcessSamples(bs[i].buffer.samples, pid) == [];
      }
    }
  }

  /** Leaving out the cores without an output loses samples of a process exactly when it has some there. */
  lemma {:induction false} LostSamples(bs: seq<Batch>, pid: u32)
    ensures |ProcessSamples(SamplesOf(bs, ServedCores()), pid)| <= |ProcessSamples(EverySample(bs), pid)|
    ensures ProcessSamples(SamplesOf(bs, ServedCores()), pid) == ProcessSamples(EverySample(bs), pid)
       <==> ServedFor(bs, pid)
    ensures !ServedFor(bs, pid) ==>
      |ProcessSamples(SamplesOf(bs, ServedCores()), pid)| < |ProcessSamples(EverySample(bs), pid)|
  {
    hide ProcessSamples, ServedFor;
    if bs == [] {
      assert ServedFor(bs, pid) by { NothingServed(pid); }
    } else {
      var before, b := bs[..|bs| - 1], bs[|bs| - 1].buffer;
      LostSamples(before, pid);
      ServedLast(bs, pid);
      ProcessSamplesAppend(SamplesOf(before, ServedCores()), b.samples, pid);
      ProcessSamplesAppend(EverySample(before), b.samples, pid);
      assert SamplesOf(before, ServedCores()) + [] == SamplesOf(before, ServedCores());
    }
  }

  lemma NothingServed(pid: u32)
    ensures ServedFor([], pid)
  {
  }

  lemma {:induction false} SampleIsThere(ss: seq<Sample>, pid: u32)
    requires ss != [] && ss[|ss| - 1].pid == pid
    ensures ProcessSamples(ss, pid) != []
  {
  }

  lemma NothingFromNothing(pid: u32)
    ensures ProcessSamples([], pid) == []
  {
  }

  /** No process loses samples if and only if no buffer with samples is from a core without an output. */
  lemma {:induction false} ServedExactly(bs: seq<Batch>)
    requires AllSendable(bs)
    ensures CoresServed(bs) <==>
      forall pid: u32 :: ProcessSamples(SamplesOf(bs, ServedCores()), pid) == ProcessSamples(EverySample(bs), pid)
  {
    hide ProcessSamples, SamplesOf, EverySample;
    forall pid: u32
      ensures ProcessSamples(SamplesOf(bs, ServedCores()), pid) == ProcessSamples(EverySample(bs), pid)
         <==> ServedFor(bs, pid)
      ensures CoresServed(bs) ==> ServedFor(bs, pid)
    {
      LostSamples(bs, pid);
      NothingFromNothing(pid);
    }
    if i :| 0 <= i < |bs| && bs[i].buffer.core % 0x100 >= CORES && bs[i].buffer.samples != [] {
      var ss := bs[i].buffer.samples;
      assert Sendable(bs[i]);
      var pid: u32 := ss[|ss| - 1].pid;
      SampleIsThere(ss, pid);
      assert !ServedFor(bs, pid);
      assert ProcessSamples(SamplesOf(bs, ServedCores()), pid) != ProcessSamples(EverySample(bs), pid);
    }
  }

  // ----------------------------------------------------------------------- core 16

  /** No buffer with samples is from core 16. */
  ghost predicate NoneFromCore16(bs: seq<Batch>) {
    forall i :: 0 <= i < |bs| ==> bs[i].buffer.samples == [] || bs[i].buffer.core % 0x100 != CORES
  }

  lemma BatchAborts(c: ProcessState.Cache, b: Batch, number: u32)
    requires Sendable(b)
    ensures NoneAborts(CarriedAll(PacketsFrom(c, b, number, 0)))
       <==> b.buffer.samples == [] || b.buffer.core % 0x100 != CORES
  {
    hide SeenEntry;
    var ps := PacketsFrom(c, b, number, 0);
    PacketsAreGroups(c, b, number, 0);
    forall k | 0 <= k < |ps|
      ensures CarriedAll(ps)[k].header.core == b.buffer.core % 0x100
    {
      assert ps[k] == GroupPacket(c, b, number, Greedy(b.buffer.samples, 0)[k]);
    }
    if b.buffer.samples != [] {
      assert CarriedAll(ps)[0].header.core == b.buffer.core % 0x100;
    }
  }

  lemma AbortsApart(ps: seq<Packet>, qs: seq<Packet>)
    ensures NoneAborts(ps + qs) <==> NoneAborts(ps) && NoneAborts(qs)
  {
    if NoneAborts(ps + qs) {
      assert forall i :: 0 <= i < |ps| ==> ps[i] == (ps + qs)[i];
      assert forall i :: 0 <= i < |qs| ==> qs[i] == (ps + qs)[|ps| + i];
    }
  }

  /** The reading program runs into its assertion exactly when some buffer with samples is from core 16. */
  lemma {:induction false} RunAborts(bs: seq<Batch>)
    requires AllSendable(bs)
    ensures NoneAborts(CarriedAll(AllPackets(bs))) <==> NoneFromCore16(bs)
  {
    hide PacketsFrom, Carried, NoneAborts;
    if bs == [] {
      assert NoneAborts([]) by { NothingToAbort(); }
      assert CarriedAll(AllPackets(bs)) == [];
    } else {
      var before, b := bs[..|bs| - 1], bs[|bs| - 1];
      assert Sendable(b);
      var st := AfterAll(before);
      RunAborts(before);
      BatchAborts(st.cache, b, NextBatch(st.batch));
      CarriedAppend(AllPackets(before), BatchPackets(st, b));
      AbortsApart(CarriedAll(AllPackets(before)), CarriedAll(BatchPackets(st, b)));
      assert NoneFromCore16(bs) <==> NoneFromCore16(before) && NoneFromCore16([b]) by { LastBuffer(bs); }
      assert NoneFromCore16([b]) <==> b.buffer.samples == [] || b.buffer.core % 0x100 != CORES by {
        assert [b][0] == b;
      }
    }
  }

  lemma NothingToAbort()
    ensures NoneAborts([])
  {
  }

  lemma LastBuffer(bs: seq<Batch>)
    requires bs != []
    ensures NoneFromCore16(bs) <==> NoneFromCore16(bs[..|bs| - 1]) && NoneFromCore16([bs[|bs| - 1]])
  {
    var before := bs[..|bs| - 1];
    assert bs == before + [bs[|bs| - 1]];
    if NoneFromCore16(before) && NoneFromCore16([bs[|bs| - 1]]) {
      assert [bs[|bs| - 1]][0] == bs[|bs| - 1];
      forall i | 0 <= i < |bs|
        ensures bs[i].buffer.samples == [] || bs[i].buffer.core % 0x100 != CORES
      {
        assert i < |before| ==> bs[i] == before[i];
      }
    }
  }

  /** The first batch of a run with samples from core 16, or the end of the run. */
  ghost function FirstFromCore16(bs: seq<Batch>): (k: nat)
    ensures k <= |bs|
  {
    if bs == [] then 0
    else
      var b, k := bs[|bs| - 1].buffer, FirstFromCore16(bs[..|bs| - 1]);
      if k < |bs| - 1 || (b.samples != [] && b.core % 0x100 == CORES) then k else |bs|
  }

  lemma {:induction false} FirstIsFirst(bs: seq<Batch>)
    ensures FirstFromCore16(bs) == |bs| <==> NoneFromCore16(bs)
    ensures NoneFromCore16(bs[..FirstFromCore16(bs)])
  {
    hide NoneFromCore16;
    if bs == [] {
      assert NoneFromCore16(bs) by { NothingFrom16(); }
      assert bs[..0] == bs;
    } else {
      var before, b := bs[..|bs| - 1], bs[|bs| - 1];
      FirstIsFirst(before);
      LastBuffer(bs);
      OneBuffer(b);
      var k := FirstFromCore16(bs);
      assert k < |bs| ==> bs[..k] == before[..FirstFromCore16(before)];
      assert bs[..|bs|] == bs && before[..|before|] == before;
    }
  }

  lemma NothingFrom16()
    ensures NoneFromCore16([])
  {
  }

  lemma OneBuffer(b: Batch)
    ensures NoneFromCore16([b]) <==> b.buffer.samples == [] || b.buffer.core % 0x100 != CORES
  {
    assert [b][0] == b;
  }

  lemma BatchStops(c: ProcessState.Cache, b: Batch, number: u32)
    requires Sendable(b) && b.buffer.samples != [] && b.buffer.core % 0x100 == CORES
    ensures BeforeAbort(CarriedAll(PacketsFrom(c, b, number, 0))) == []
  {
    hide SeenEntry;
    PacketsAreGroups(c, b, number, 0);
    assert PacketsFrom(c, b, number, 0)[0] == GroupPacket(c, b, number, Greedy(b.buffer.samples, 0)[0]);
  }

  lemma AllPacketsLast(bs: seq<Batch>)
    requires AllSendable(bs) && bs != []
    ensures var before, b := bs[..|bs| - 1], bs[|bs| - 1];
      Sendable(b) && AllPackets(bs) == AllPackets(before) + BatchPackets(AfterAll(before), b)
  {
    hide PacketsFrom, AfterAll;
  }

  /** Of the packets of a whole run, those of the batches before the first from core 16 are delivered. */
  lemma {:induction false} DeliveredOfRun(bs: seq<Batch>)
    requires AllSendable(bs)
    ensures BeforeAbort(CarriedAll(AllPackets(bs))) == CarriedAll(AllPackets(bs[..FirstFromCore16(bs)]))
  {
    hide PacketsFrom, Carried, CarriedAll, NoneAborts, NoneFromCore16, BeforeAbort, AllPackets, AfterAll, BatchSent;
    FirstIsFirst(bs);
    RunAborts(bs);
    if NoneFromCore16(bs) {
      NothingAborts(CarriedAll(AllPackets(bs)));
      assert bs[..|bs|] == bs;
    } else {
      assert bs != [] by { NothingFrom16(); }
      var before, b := bs[..|bs| - 1], bs[|bs| - 1];
      assert Sendable(b);
      var st := AfterAll(before);
      AllPacketsLast(bs);
      CarriedAppend(AllPackets(before), BatchPackets(st, b));
      FirstIsFirst(before);
      RunAborts(before);
      LastBuffer(bs);
      OneBuffer(b);
      if NoneFromCore16(before) {
        AbortAfter(CarriedAll(AllPackets(before)), CarriedAll(BatchPackets(st, b)));
        BatchStops(st.cache, b, NextBatch(st.batch));
      } else {
        DeliveredOfRun(before);
        AbortStays(CarriedAll(AllPackets(before)), CarriedAll(BatchPackets(st, b)));
        assert before[..FirstFromCore16(before)] == bs[..FirstFromCore16(bs)];
      }
    }
  }
}
