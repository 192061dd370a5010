/** The two parts together: from the samples the kernel's cores store to the rows in the files. */
module KernelToDisk {
  import opened Bytes
  import opened SampleBuffer
  import opened Wire
  import opened Sender
  import opened SenderRuns
  import opened SampleFlow
  import opened Splitting
  import opened EndToEnd
  import opened PoolMachine
  import opened PoolInvariant
  import opened PoolSteps
  import opened PoolTheorems
  import opened PoolReaders
  import opened PoolReadings

  /** The sending program sends, in order, the buffers that user space got. */
  ghost predicate Feeds(copied: seq<Copied>, bs: seq<Batch>) {
    && |bs| <= |copied|
    && forall i :: 0 <= i < |bs| ==>
         bs[i].buffer.core == copied[i].content.core && bs[i].buffer.samples == copied[i].content.samples
  }

  /** The same, for deliveries. */
  ghost predicate SameBuffers(ds: seq<Delivery>, bs: seq<Batch>) {
    && |ds| == |bs|
    && forall i :: 0 <= i < |bs| ==> bs[i].buffer.core == ds[i].core < 0x100 && bs[i].buffer.samples == ds[i].samples
  }

  ghost function Only(c: nat): CoreSet {
    core => core == c
  }

  /** The samples of deliveries from some cores, in the order the buffers were popped. */
  ghost function SamplesIn(ds: seq<Delivery>, cores: CoreSet): seq<Sample> {
    if ds == [] then []
    else
      var d := ds[|ds| - 1];
      SamplesIn(ds[..|ds| - 1], cores) + if d.core < 0x100 && cores(d.core) then d.samples else []
  }

  lemma FrontBuffers(ds: seq<Delivery>, bs: seq<Batch>)
    requires SameBuffers(ds, bs) && bs != []
    ensures SameBuffers(ds[..|ds| - 1], bs[..|bs| - 1])
  {
  }

  lemma {:induction false} SameSamplesIn(ds: seq<Delivery>, bs: seq<Batch>, cores: CoreSet)
    requires SameBuffers(ds, bs)
    ensures SamplesOf(bs, cores) == SamplesIn(ds, cores)
  {
    if bs != [] {
      var last := |bs| - 1;
      assert bs[last].buffer.core == ds[last].core && bs[last].buffer.samples == ds[last].samples;
      FrontBuffers(ds, bs);
      hide SameBuffers;
      SameSamplesIn(ds[..last], bs[..last], cores);
    }
  }

  lemma {:induction false} OnlyOneCore(ds: seq<Delivery>, c: nat)
    requires c < 0x100
    ensures SamplesIn(ds, Only(c)) == OfCore(ds, c)
  {
    if ds != [] {
      OnlyOneCore(ds[..|ds| - 1], c);
    }
  }

  lemma {:induction false} AllServed(ds: seq<Delivery>)
    requires forall i :: 0 <= i < |ds| ==> ds[i].core < CORES
    ensures SamplesIn(ds, ServedCores()) == SamplesIn(ds, EveryCore())
  {
    if ds != [] {
      AllServed(ds[..|ds| - 1]);
    }
  }

  lemma OfCorePrefix(ds: seq<Delivery>, n: nat, c: nat)
    requires n <= |ds|
    ensures OfCore(ds[..n], c) <= OfCore(ds, c)
  {
    hide OfCore;
    OfCoreAppend(ds[..n], ds[n..], c);
    assert ds == ds[..n] + ds[n..];
  }

  /** The buffers a single reader passes on are the first ones popped, in this order. */
  lemma {:induction false} FedInOrder<B>(p: Pool<B>, acts: seq<Action>, q: Pool<B>, bs: seq<Batch>)
    requires Initial(p) && RunsTo(p, acts, q) && |p.readers| == 1 && q.failed == [] && |p.cores| <= 0x100
    requires Feeds(q.copied, bs)
    ensures |bs| <= |q.delivered| && SameBuffers(q.delivered[..|bs|], bs)
    ensures forall i :: 0 <= i < |bs| ==> q.delivered[..|bs|][i].core < |p.cores|
  {
    hide RunsTo, Initial, Structured;
    OneReader(p, acts, q);
    FillDiscipline(p, acts, q);
  }

  /** Each core's samples in them are a beginning of what the core stored and did not give up. */
  lemma {:induction false} KeptFirst<B>(p: Pool<B>, acts: seq<Action>, q: Pool<B>, n: nat, c: nat)
    requires Initial(p) && RunsTo(p, acts, q) && n <= |q.delivered| && c < |q.cores|
    ensures OfCore(q.delivered[..n], c) <= Kept(q.cores[c].log)
  {
    hide RunsTo, Initial, OfCore, Kept, Partial, Contents, Structured;
    Conservation(p, acts, q, c);
    OfCorePrefix(q.delivered, n, c);
  }

  lemma PrefixSamples(a: seq<Sample>, b: seq<Sample>, pid: u32)
    requires a <= b
    ensures ProcessSamples(a, pid) <= ProcessSamples(b, pid)
  {
    hide ProcessSamples;
    ProcessSamplesAppend(a, b[|a|..], pid);
    assert b == a + b[|a|..];
  }

  lemma ShowsMore(rows: seq<Line>, a: seq<Sample>, b: seq<Sample>)
    requires ShowsBeginning(rows, a) && a <= b
    ensures ShowsBeginning(rows, b)
  {
    assert a[..|rows|] == b[..|rows|];
  }

  /** From the kernel to the disk, per core. For any interleaving in the kernel, one reader whose copies worked, any
      failure of the sender and any cut of the stream: the rows of a process that arrive from a core are a beginning of
      the samples of this process that the core stored and did not give up, in order. */
  lemma {:induction false} CoreToDisk<B>(p: Pool<B>, acts: seq<Action>, q: Pool<B>, bs: seq<Batch>, n: nat,
                                         behind: seq<byte>, c: nat, pid: u32)
    requires Initial(p) && RunsTo(p, acts, q) && |p.readers| == 1 && q.failed == [] && |p.cores| <= 0x100
    requires AllSendable(bs) && Feeds(q.copied, bs) && n <= |EncodeAll(AllPackets(bs))| && c < |q.cores|
    ensures ShowsBeginning(PacketRows(Arrived(EncodeAll(AllPackets(bs))[..n], behind), Only(c), pid),
                           ProcessSamples(Kept(q.cores[c].log), pid))
  {
    hide RunsTo, Initial, EncodeAll, AllPackets, Arrived, PacketRows, ProcessSamples, SamplesOf, SamplesIn, OfCore,
      Kept, AllSendable, Feeds, SameBuffers, ShowsBeginning;
    FedInOrder(p, acts, q, bs);
    BuffersStay(p, acts, q);
    KeptFirst(p, acts, q, |bs|, c);
    SameSamplesIn(q.delivered[..|bs|], bs, Only(c));
    OnlyOneCore(q.delivered[..|bs|], c);
    StreamToRows(bs, n, behind, Only(c), pid);
    var sent := OfCore(q.delivered[..|bs|], c);
    PrefixSamples(sent, Kept(q.cores[c].log), pid);
    ShowsMore(PacketRows(Arrived(EncodeAll(AllPackets(bs))[..n], behind), Only(c), pid), ProcessSamples(sent, pid),
              ProcessSamples(Kept(q.cores[c].log), pid));
  }

  /** From the kernel to the disk, per file. Each file's rows are a beginning of the samples of its process in the
      buffers popped, in the order they were popped; with at most sixteen cores and nothing cut off, they are all
      samples of the process in the buffers the sending program got. */
  lemma {:induction false} BuffersToDisk<B>(p: Pool<B>, acts: seq<Action>, q: Pool<B>, bs: seq<Batch>, n: nat,
                                            behind: seq<byte>, pid: u32)
    requires Initial(p) && RunsTo(p, acts, q) && |p.readers| == 1 && q.failed == [] && |p.cores| <= 0x100
    requires AllSendable(bs) && Feeds(q.copied, bs) && n <= |EncodeAll(AllPackets(bs))|
    ensures |bs| <= |q.delivered|
    ensures
      var rows := RowsIn(LinesOf(Arrived(EncodeAll(AllPackets(bs))[..n], behind), pid));
      && ShowsBeginning(rows, ProcessSamples(SamplesIn(q.delivered[..|bs|], ServedCores()), pid))
      && (|p.cores| <= CORES && n == |EncodeAll(AllPackets(bs))| ==>
            RowsShow(rows, ProcessSamples(SamplesIn(q.delivered[..|bs|], EveryCore()), pid)))
  {
    hide RunsTo, Initial, EncodeAll, AllPackets, Arrived, LinesOf, RowsIn, ProcessSamples, SamplesOf, SamplesIn,
      AllSendable, Feeds, RowsShow, ShowsBeginning, FirstFromCore16, NoneFromCore16;
    FedInOrder(p, acts, q, bs);
    var ds := q.delivered[..|bs|];
    SameSamplesIn(ds, bs, ServedCores());
    StreamToFiles(bs, n, behind, pid);
    if |p.cores| <= CORES {
      AllServed(ds);
      FirstIsFirst(bs);
      FewCores(ds, bs);
      assert bs[..|bs|] == bs;
    }
  }

  lemma FewCores(ds: seq<Delivery>, bs: seq<Batch>)
    requires SameBuffers(ds, bs) && forall i :: 0 <= i < |ds| ==> ds[i].core < CORES
    ensures NoneFromCore16(bs)
  {
  }

  // ------------------------------------------------------------------ from readings to rows

  /** The readings of a process, in order. */
  ghost function ProcessReadings(readings: seq<Reading>, pid: u32): seq<Reading> {
    if readings == [] then []
    else
      var last := readings[|readings| - 1];
      ProcessReadings(readings[..|readings| - 1], pid) + if last.pid == pid then [last] else []
  }

  lemma {:induction false} ReadingsOfProcess(ss: seq<Sample>, readings: seq<Reading>, pid: u32)
    requires ShowReadings(ss, readings)
    ensures ShowReadings(ProcessSamples(ss, pid), ProcessReadings(readings, pid))
  {
    hide ShowsReading;
    if ss != [] {
      var last := |ss| - 1;
      assert ShowsReading(ss[last], readings[last]);
      assert ss[last].pid == readings[last].pid by { SamePid(ss[last], readings[last]); }
      ReadingsOfProcess(ss[..last], readings[..last], pid);
    }
  }

  lemma SamePid(s: Sample, reading: Reading)
    requires ShowsReading(s, reading)
    ensures s.pid == reading.pid
  {
  }

  /** The row has the lowest 32 bits of the cycles and the counters of the reading, zero where there are none. */
  ghost predicate RowOfReading(row: Line, reading: Reading) {
    && row.Row? && row.cycles == reading.cycles % 0x1_0000_0000 && |reading.counters| <= NUM_COUNTERS
    && forall i :: 0 <= i < NUM_COUNTERS ==>
         row.counters[i] == if i < |reading.counters| then reading.counters[i] else 0
  }

  ghost predicate RowsOfReadings(rows: seq<Line>, readings: seq<Reading>) {
    |rows| <= |readings| && forall k :: 0 <= k < |rows| ==> RowOfReading(rows[k], readings[k])
  }

  lemma ShownReadings(rows: seq<Line>, ss: seq<Sample>, readings: seq<Reading>)
    requires ShowsBeginning(rows, ss) && ShowReadings(ss, readings)
    ensures RowsOfReadings(rows, readings)
  {
    forall k | 0 <= k < |rows|
      ensures RowOfReading(rows[k], readings[k])
    {
      assert ShowsReading(ss[k], readings[k]);
      assert rows[k].counters == ss[..|rows|][k].counters;
    }
  }

  /** From the hardware to the disk. For any interleaving in the kernel, one reader whose copies worked, any failure of
      the sender and any cut of the stream: the rows of a process that arrive from a core are a beginning of the
      readings the core took for it and did not give up. No reading is changed, moved or repeated, and
      none is left out before the last one that arrives. */
  lemma {:induction false} ReadingsToDisk<B>(p: Pool<B>, acts: seq<Action>, q: Pool<B>, bs: seq<Batch>, n: nat,
                                             behind: seq<byte>, c: nat, pid: u32)
    requires Initial(p) && RunsTo(p, acts, q) && |p.readers| == 1 && q.failed == [] && |p.cores| <= 0x100
    requires AllSendable(bs) && Feeds(q.copied, bs) && n <= |EncodeAll(AllPackets(bs))| && c < |q.cores|
    ensures RowsOfReadings(PacketRows(Arrived(EncodeAll(AllPackets(bs))[..n], behind), Only(c), pid),
                           ProcessReadings(KeptReadings(q.cores[c].log, ReadingsOf(acts, c)), pid))
  {
    hide RunsTo, EncodeAll, AllPackets, Arrived, PacketRows, ProcessSamples, ProcessReadings, ReadingsOf, Kept,
      KeptReadings, AllSendable, Feeds, ShowsBeginning, RowsOfReadings, ShowReadings, StoredSamples, Initial;
    var log, readings := q.cores[c].log, ReadingsOf(acts, c);
    CoreToDisk(p, acts, q, bs, n, behind, c, pid);
    SamplesAreReadings(p, acts, q, c);
    KeptShow(log, readings);
    ReadingsOfProcess(Kept(log), KeptReadings(log, readings), pid);
    ShownReadings(PacketRows(Arrived(EncodeAll(AllPackets(bs))[..n], behind), Only(c), pid),
                  ProcessSamples(Kept(log), pid), ProcessReadings(KeptReadings(log, readings), pid));
  }
}
