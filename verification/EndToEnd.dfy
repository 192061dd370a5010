/** From buffers to files: what the sender, the stream, the reader and the splitter do together. */
module EndToEnd {
  import opened Bytes
  import opened SampleBuffer
  import opened Wire
  import opened Sender
  import opened SenderRuns
  import opened SampleFlow
  import opened PacketContents
  import opened Streams
  import opened Splitting
  import opened Splitter
  import opened Network
  import opened Reader
  import PacketReader

  // ------------------------------------------------------------------- from bytes to files

  /** What the reading program delivers of a stream before it ends. */
  ghost function Arrived(stream: seq<byte>, behind: seq<byte>): seq<Packet> {
    BeforeAbort(ParseStream(stream, behind).packets)
  }

  /** Cutting off packets behind cuts off rows behind. */
  lemma FewerPackets(ps: seq<Packet>, qs: seq<Packet>, cores: CoreSet, pid: u32)
    requires qs <= ps
    ensures PacketRows(qs, cores, pid) <= PacketRows(ps, cores, pid)
  {
    hide PacketRows;
    PacketRowsAppend(qs, ps[|qs|..], cores, pid);
    assert ps == qs + ps[|qs|..];
  }

  /** The same headers and samples; the strings may differ. */
  ghost predicate SameSamples(ps: seq<Packet>, qs: seq<Packet>) {
    |ps| == |qs| && forall i :: 0 <= i < |ps| ==> ps[i].header == qs[i].header && ps[i].samples == qs[i].samples
  }

  lemma {:induction false} SameRows(ps: seq<Packet>, qs: seq<Packet>, cores: CoreSet, pid: u32)
    requires SameSamples(ps, qs)
    ensures PacketRows(ps, cores, pid) == PacketRows(qs, cores, pid)
    ensures NoneAborts(ps) <==> NoneAborts(qs)
  {
    hide RowsOf;
    if ps != [] {
      SameRows(ps[..|ps| - 1], qs[..|qs| - 1], cores, pid);
    }
  }

  /** What is handed on of a cut stream has the headers and samples of the packets it starts with. */
  lemma {:induction false} CutSamples(ps: seq<Packet>, n: nat, behind: seq<byte>)
    requires AllWellFormed(ps) && n <= |EncodeAll(ps)|
    ensures var r := ParseStream(EncodeAll(ps)[..n], behind);
      && |r.packets| <= |ps| && SameSamples(r.packets, CarriedAll(ps)[..|r.packets|])
      && (r.end.OpenString? ==> exists i :: 0 <= i < |ps| && CarriedAll(ps)[i].header.core == r.end.core)
      && (n == |EncodeAll(ps)| ==> r == Stream(CarriedAll(ps), AtEnd, n))
  {
    hide EncodeAll, ParseStream, Encode, CutOutcome;
    var k := AnyCut(ps, n, behind);
    var r := ParseStream(EncodeAll(ps)[..n], behind);
    if k < |ps| {
      CutIsRead(ps[k], n - |EncodeAll(ps[..k])|, behind);
      assert CarriedAll(ps)[k].header == ps[k].header;
      assert CarriedAll(ps[..k]) == CarriedAll(ps)[..k];
    } else {
      assert CarriedAll(ps)[..|ps|] == CarriedAll(ps);
    }
  }

  /** A packet as it arrives: a true header, and each sample it counts, with the lowest 32 bits of its cycles, the pid
      of the header and its counters. */
  ghost predicate TrueArrival(bs: seq<Batch>, p: Packet) {
    && TrueHeader(bs, p.header) && |p.samples| == p.header.quantity
    && var ss := bs[p.header.batch - 1].buffer.samples;
       forall i :: 0 <= i < |p.samples| ==>
         && p.samples[i].cycles == ss[p.header.firstIndex + i].cycles % 0x1_0000_0000
         && p.samples[i].pid == p.header.pid
         && p.samples[i].counters == ss[p.header.firstIndex + i].counters
  }

  lemma CarriedIsTrue(bs: seq<Batch>, p: Packet)
    requires AllSendable(bs) && TruePacket(bs, p)
    ensures TrueArrival(bs, Carried(p))
  {
    hide AnswersUpTo;
  }

  lemma SameArrival(bs: seq<Batch>, p: Packet, q: Packet)
    requires TrueArrival(bs, q) && p.header == q.header && p.samples == q.samples
    ensures TrueArrival(bs, p)
  {
    hide TrueHeader;
  }

  /** Every packet handed on of any beginning of the bytes of a run tells the truth about its samples and its batch. */
  lemma {:induction false} ArrivalsAreTrue(bs: seq<Batch>, n: nat, behind: seq<byte>, k: nat)
    requires AllSendable(bs) && |bs| < 0x1_0000_0000 && n <= |EncodeAll(AllPackets(bs))|
    requires k < |ParseStream(EncodeAll(AllPackets(bs))[..n], behind).packets|
    ensures TrueArrival(bs, ParseStream(EncodeAll(AllPackets(bs))[..n], behind).packets[k])
  {
    hide EncodeAll, ParseStream, AllPackets, Carried, TrueArrival, TruePacket;
    var ps := AllPackets(bs);
    AllPacketsWellFormed(bs);
    CutSamples(ps, n, behind);
    PacketsAreTrue(bs, k);
    CarriedIsTrue(bs, ps[k]);
    var got := ParseStream(EncodeAll(ps)[..n], behind).packets;
    assert CarriedAll(ps)[..|got|][k] == Carried(ps[k]);
    SameArrival(bs, got[k], Carried(ps[k]));
  }

  /** The same for what a run puts on the wire, however it ends. */
  lemma {:induction false} WireIsTrue(bs: seq<Batch>, behind: seq<byte>, k: nat)
    requires AllSendable(bs) && |bs| < 0x1_0000_0000 && k < |ParseStream(RunBytes(bs), behind).packets|
    ensures TrueArrival(bs, ParseStream(RunBytes(bs), behind).packets[k])
  {
    hide EncodeAll, ParseStream, AllPackets, RunBytes, TrueArrival, RunGood;
    RunSent(bs);
    assert RunBytes(bs) == EncodeAll(AllPackets(bs))[..|RunBytes(bs)|];
    ArrivalsAreTrue(bs, |RunBytes(bs)|, behind, k);
  }

  /** Any beginning of the bytes of a run, whatever is readable behind it, delivers from any cores a beginning of each
      process's samples, never a wrong, repeated or misplaced one. */
  lemma {:induction false} StreamToRows(bs: seq<Batch>, n: nat, behind: seq<byte>, cores: CoreSet, pid: u32)
    requires AllSendable(bs) && n <= |EncodeAll(AllPackets(bs))|
    ensures PacketRows(Arrived(EncodeAll(AllPackets(bs))[..n], behind), cores, pid)
         <= ProcessRows(SamplesOf(bs, cores), pid)
    ensures ShowsBeginning(PacketRows(Arrived(EncodeAll(AllPackets(bs))[..n], behind), cores, pid),
                           ProcessSamples(SamplesOf(bs, cores), pid))
  {
    hide EncodeAll, ParseStream, AllPackets, Carried, PacketRows, SamplesOf, ProcessRows, BeforeAbort, ShowsBeginning;
    var ps := AllPackets(bs);
    var carried := CarriedAll(ps);
    AllPacketsWellFormed(bs);
    CutSamples(ps, n, behind);
    var got := ParseStream(EncodeAll(ps)[..n], behind).packets;
    SameRows(got, carried[..|got|], cores, pid);
    AbortIsPrefix(got);
    FewerPackets(got, BeforeAbort(got), cores, pid);
    FewerPackets(carried, carried[..|got|], cores, pid);
    RunRowsOf(bs, cores, pid);
    ProcessRowsShow(PacketRows(BeforeAbort(got), cores, pid), SamplesOf(bs, cores), pid);
  }

  /** The reading program does not run into its assertion when no buffer is from core 16. */
  lemma {:induction false} NoAssertion(bs: seq<Batch>, n: nat, behind: seq<byte>)
    requires AllSendable(bs) && n <= |EncodeAll(AllPackets(bs))| && NoneFromCore16(bs)
    ensures LoopEndOf(ParseStream(EncodeAll(AllPackets(bs))[..n], behind)) != CoreAssertion
  {
    hide NoneFromCore16, EncodeAll, ParseStream, AllPackets, Carried, BeforeAbort;
    var ps := AllPackets(bs);
    var carried := CarriedAll(ps);
    AllPacketsWellFormed(bs);
    CutSamples(ps, n, behind);
    var got := ParseStream(EncodeAll(ps)[..n], behind).packets;
    SameRows(got, carried[..|got|], EveryCore(), 0);
    RunAborts(bs);
    AbortsApart(carried[..|got|], carried[|got|..]);
    assert carried == carried[..|got|] + carried[|got|..];
    AbortExactly(got);
  }

  /** All bytes of a run deliver exactly the packets of the batches before the first from core 16; the reading program
      ends at the end of the stream, or in its assertion when there is such a batch. */
  lemma {:induction false} WholeStream(bs: seq<Batch>, behind: seq<byte>)
    requires AllSendable(bs)
    ensures Arrived(EncodeAll(AllPackets(bs)), behind) == CarriedAll(AllPackets(bs[..FirstFromCore16(bs)]))
    ensures LoopEndOf(ParseStream(EncodeAll(AllPackets(bs)), behind))
         == if NoneFromCore16(bs) then Finished else CoreAssertion
  {
    hide NoneFromCore16, EncodeAll, ParseStream, AllPackets, CarriedAll, BeforeAbort;
    AllPacketsWellFormed(bs);
    StreamRoundTrip(AllPackets(bs), behind);
    DeliveredOfRun(bs);
    RunAborts(bs);
    AbortExactly(CarriedAll(AllPackets(bs)));
  }

  /** Any beginning of the bytes of a run gives each process's file a beginning of its samples from the cores the
      splitter serves; all bytes give it exactly those from the batches before the first from core 16. */
  lemma {:induction false} StreamToFiles(bs: seq<Batch>, n: nat, behind: seq<byte>, pid: u32)
    requires AllSendable(bs) && n <= |EncodeAll(AllPackets(bs))|
    ensures
      var rows := RowsIn(LinesOf(Arrived(EncodeAll(AllPackets(bs))[..n], behind), pid));
      && ShowsBeginning(rows, ProcessSamples(SamplesOf(bs, ServedCores()), pid))
      && (n == |EncodeAll(AllPackets(bs))| ==>
            RowsShow(rows, ProcessSamples(SamplesOf(bs[..FirstFromCore16(bs)], ServedCores()), pid)))
  {
    hide NoneFromCore16, EncodeAll, AllPackets, CarriedAll, PacketRows, ProcessRows, SamplesOf, RowsIn, LinesOf,
      Arrived, ShowsBeginning, RowsShow;
    var all, sent := EncodeAll(AllPackets(bs)), bs[..FirstFromCore16(bs)];
    FileRows(Arrived(all[..n], behind), pid);
    ServedRows(Arrived(all[..n], behind), pid);
    StreamToRows(bs, n, behind, ServedCores(), pid);
    if n == |all| {
      assert all[..n] == all;
      WholeStream(bs, behind);
      RunRowsOf(sent, ServedCores(), pid);
      ProcessRowsShow(ProcessRows(SamplesOf(sent, ServedCores()), pid), SamplesOf(sent, ServedCores()), pid);
    }
  }

  /** Nothing is lost between the buffers and the files, for any process, if and only if no buffer with samples is from
      a core the splitter has no output for. */
  lemma {:induction false} NothingLost(bs: seq<Batch>, behind: seq<byte>)
    requires AllSendable(bs)
    ensures CoresServed(bs) <==>
      forall pid: u32 ::
        RowsShow(RowsIn(LinesOf(Arrived(EncodeAll(AllPackets(bs)), behind), pid)), ProcessSamples(EverySample(bs), pid))
  {
    hide EncodeAll, AllPackets, ProcessSamples, SamplesOf, EverySample, RowsIn, LinesOf, Arrived, FirstFromCore16,
      RowsShow;
    var all := EncodeAll(AllPackets(bs));
    assert all[..|all|] == all;
    ServedExactly(bs);
    FirstIsFirst(bs);
    assert bs[..|bs|] == bs;
    assert CoresServed(bs) ==> FirstFromCore16(bs) == |bs|;
    forall pid: u32
      ensures CoresServed(bs) ==>
        RowsShow(RowsIn(LinesOf(Arrived(all, behind), pid)), ProcessSamples(EverySample(bs), pid))
      ensures RowsShow(RowsIn(LinesOf(Arrived(all, behind), pid)), ProcessSamples(EverySample(bs), pid)) ==>
        ProcessSamples(SamplesOf(bs, ServedCores()), pid) == ProcessSamples(EverySample(bs), pid)
    {
      var rows := RowsIn(LinesOf(Arrived(all, behind), pid));
      StreamToFiles(bs, |all|, behind, pid);
      LostSamples(bs, pid);
      ShownAre(rows, ProcessSamples(EverySample(bs), pid));
      assert |rows| <= |ProcessSamples(SamplesOf(bs, ServedCores()), pid)|;
    }
  }

  lemma ShownAre(rows: seq<Line>, ss: seq<Sample>)
    ensures RowsShow(rows, ss) ==> |rows| == |ss|
  {
  }

  /** The sending loop stops at the first batch that fails. */
  method SendBatches(bs: seq<Batch>) returns (rc: int, wire: seq<byte>)
    requires AllSendable(bs)
    ensures rc == 0 <==> RunGood(bs)
    ensures wire == RunBytes(bs)
  {
    hide AfterBatch, BatchSent, RunGood, NextBatch;
    var sending := new Sending();
    rc := 0;
    assert RunGood([]) by { NothingFails(); }
    for k := 0 to |bs|
      invariant rc == 0 && sending.Valid() && fresh(sending)
      invariant fresh(sending.packets) && fresh(sending.packets.samples) && fresh(sending.processes)
      invariant sending.packets.memory != null ==> fresh(sending.packets.memory)
      invariant fresh(sending.processes.Records())
      invariant sending.State() == AfterAll(bs[..k])
      invariant RunGood(bs[..k]) && sending.wire == RunBytes(bs[..k])
    {
      var total;
      assert bs[..k + 1][..k] == bs[..k];
      RunGoodSnoc(bs[..k + 1]);
      rc, total := sending.NetworkSend(bs[k]);
      if rc != 0 {
        NothingAfterFailure(bs, k + 1);
        return rc, sending.wire;
      }
    }
    assert bs[..|bs|] == bs;
    wire := sending.wire;
  }

  lemma NothingFails()
    ensures RunGood([])
  {
  }

  ghost function LinesAt(disk: map<u32, seq<Line>>, pid: u32): seq<Line> {
    if pid in disk then disk[pid] else []
  }

  /** The files on disk hold what the splitter writes for these packets: one for each process with a packet, with one
      title, its packets' rows in order, and one separator for each time a core turned from it to another process. */
  ghost predicate DiskShows(disk: map<u32, seq<Line>>, ps: seq<Packet>) {
    forall pid: u32 ::
      && LinesAt(disk, pid) == LinesOf(ps, pid)
      && (pid in disk <==> exists i :: 0 <= i < |ps| && Goes(ps[i], pid))
      && (pid in disk ==> OpenedOnce(disk[pid]))
      && RowsShow(RowsIn(LinesAt(disk, pid)), SamplesFor(ps, pid))
      && Separators(LinesAt(disk, pid)) == TurnsAway(ps, pid)
  }

  lemma DiskIs(disk: map<u32, seq<Line>>, ps: seq<Packet>)
    requires disk.Keys == DeliverAll(ps).files.Keys
    requires forall pid :: pid in disk ==> disk[pid] == DeliverAll(ps).files[pid].lines
    ensures DiskShows(disk, ps)
  {
    hide RowsIn, RowsShow, SamplesFor, DeliverAll, Separators, TurnsAway, OpenedOnce, Goes;
    forall pid: u32
      ensures LinesAt(disk, pid) == LinesOf(ps, pid)
      ensures pid in disk <==> exists i :: 0 <= i < |ps| && Goes(ps[i], pid)
      ensures pid in disk ==> OpenedOnce(disk[pid])
      ensures RowsShow(RowsIn(LinesAt(disk, pid)), SamplesFor(ps, pid))
      ensures Separators(LinesAt(disk, pid)) == TurnsAway(ps, pid)
    {
      FileShows(ps, pid);
      FileOpened(ps, pid);
      FileSeparators(ps, pid);
    }
  }

  /** The reading program on a file of a description and a stream. The index has one line for each file, with the
      strings of the latest packet, when the program gets as far as writing it. */
  method SplitFile(description: seq<byte>, stream: seq<byte>, behind: seq<byte>)
    returns (end: LoopEnd, setup: seq<byte>, disk: map<u32, seq<Line>>, index: seq<IndexLine>)
    requires StrLen(description) == |description|
    requires |description| + 1 + |stream| + |behind| <= PacketReader.SIZE_MAX
    ensures setup == description && end == LoopEndOf(ParseStream(stream, behind))
    ensures DiskShows(disk, Arrived(stream, behind))
    ensures if end == Finished || end == MoreNeeded
      then IndexOf(DeliverAll(Arrived(stream, behind)).files, index)
      else index == []
  {
    hide ParseStream, DeliverAll, IndexOf, LoopEndOf, BeforeAbort, DiskShows, StrLen;
    var file := description + [0] + stream;
    StringInFront(description, stream);
    assert file[|description|] == 0;
    var out := new Outputs();
    var position;
    end, position := ReadFileLoop(file, behind, out);
    setup, disk, index := out.setup, out.shared.Disk(), [];
    DiskIs(disk, Arrived(stream, behind));
    if end == Finished || end == MoreNeeded {
      ghost var files := out.shared.View();
      out.shared.CloseAll();
      index := out.shared.index;
      assert forall lines: seq<IndexLine> :: [] + lines == lines;
    }
  }

  /** Sending a run, then splitting whatever was sent. Every process's file holds a beginning of its samples from the
      cores the splitter serves, in order. When everything was sent, these are all of them up to the first batch from
      core 16, and nothing at all is lost if and only if no buffer with samples is from a core without an output. */
  method Transfer(description: seq<byte>, bs: seq<Batch>, behind: seq<byte>)
    returns (rc: int, end: LoopEnd, setup: seq<byte>, disk: map<u32, seq<Line>>, index: seq<IndexLine>)
    requires AllSendable(bs) && StrLen(description) == |description|
    requires |description| + 1 + |RunBytes(bs)| + |behind| <= PacketReader.SIZE_MAX
    ensures rc == 0 <==> RunGood(bs)
    ensures setup == description && DiskShows(disk, Arrived(RunBytes(bs), behind))
    ensures forall pid: u32 ::
      ShowsBeginning(RowsIn(LinesAt(disk, pid)), ProcessSamples(SamplesOf(bs, ServedCores()), pid))
    ensures NoneFromCore16(bs) ==> end != CoreAssertion
    ensures rc == 0 ==> end == if NoneFromCore16(bs) then Finished else CoreAssertion
    ensures rc == 0 ==> forall pid: u32 ::
      RowsShow(RowsIn(LinesAt(disk, pid)),
               ProcessSamples(SamplesOf(bs[..FirstFromCore16(bs)], ServedCores()), pid))
    ensures rc == 0 ==>
      (CoresServed(bs) <==>
         forall pid: u32 :: RowsShow(RowsIn(LinesAt(disk, pid)), ProcessSamples(EverySample(bs), pid)))
    ensures if end == Finished || end == MoreNeeded
      then IndexOf(DeliverAll(Arrived(RunBytes(bs), behind)).files, index)
      else index == []
  {
    hide RunBytes, RunGood, EncodeAll, AllPackets, ParseStream, RowsIn, ProcessSamples, SamplesOf, EverySample,
      DeliverAll, NoneFromCore16, CoresServed, FirstFromCore16, IndexOf, LoopEndOf, Arrived, SamplesFor, LinesOf,
      LinesAt, RowsShow, ShowsBeginning;
    var wire;
    rc, wire := SendBatches(bs);
    end, setup, disk, index := SplitFile(description, wire, behind);
    RunSent(bs);
    ghost var all := EncodeAll(AllPackets(bs));
    assert wire == all[..|wire|];
    forall pid: u32
      ensures ShowsBeginning(RowsIn(LinesAt(disk, pid)), ProcessSamples(SamplesOf(bs, ServedCores()), pid))
      ensures rc == 0 ==>
        RowsShow(RowsIn(LinesAt(disk, pid)),
                 ProcessSamples(SamplesOf(bs[..FirstFromCore16(bs)], ServedCores()), pid))
      ensures LinesAt(disk, pid) == LinesOf(Arrived(wire, behind), pid)
    {
      StreamToFiles(bs, |wire|, behind, pid);
    }
    if NoneFromCore16(bs) {
      NoAssertion(bs, |wire|, behind);
    }
    if rc == 0 {
      WholeStream(bs, behind);
      NothingLost(bs, behind);
    }
  }
}
