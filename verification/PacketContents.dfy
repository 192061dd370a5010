/** What every packet of a run contains, in terms of the buffers and of the answers of /proc alone. */
module PacketContents {
  import opened Bytes
  import opened Wire
  import opened ProcessState
  import opened ProcessLaws
  import opened ProcessHistory
  import opened Grouping
  import opened Sender
  import opened SenderRuns

  // ------------------------------------------------------------------ lookups of a run

  /** The lookups of a batch: one for each sample, and only the first may re-check. */
  ghost function BatchCalls(b: Batch): (calls: seq<Call>)
    requires |b.answers| == |b.buffer.samples|
    ensures |calls| == |b.answers|
  {
    seq(|b.answers|, i requires 0 <= i < |b.answers| => Call(b.buffer.samples[i].pid, i == 0, b.answers[i]))
  }

  ghost function RunCalls(bs: seq<Batch>): seq<Call>
    requires AllSendable(bs)
  {
    if bs == [] then []
    else
      assert Sendable(bs[|bs| - 1]);
      RunCalls(bs[..|bs| - 1]) + BatchCalls(bs[|bs| - 1])
  }

  lemma {:induction false} LookedIsRun(calls: seq<Call>, b: Batch, i: nat)
    requires |b.answers| == |b.buffer.samples| && i <= |b.buffer.samples|
    ensures Looked(Run(calls), b, i) == Run(calls + BatchCalls(b)[..i])
  {
    hide Lookup, Run;
    if i == 0 {
      assert calls + BatchCalls(b)[..0] == calls;
    } else {
      var before, call := calls + BatchCalls(b)[..i - 1], BatchCalls(b)[i - 1];
      LookedIsRun(calls, b, i - 1);
      assert calls + BatchCalls(b)[..i] == before + [call];
      RunSnoc(before, call);
    }
  }

  /** The cache of a run is that of its lookups, so everything that holds over any lookups holds of the sender. */
  lemma {:induction false} CacheOfRun(bs: seq<Batch>)
    requires AllSendable(bs)
    ensures AfterAll(bs).cache == Run(RunCalls(bs))
  {
    hide Looked, Run, BatchSent, BatchCalls;
    if bs == [] {
      assert Run([]) == EMPTY by { NothingLookedUp(); }
    } else {
      var before, b := bs[..|bs| - 1], bs[|bs| - 1];
      assert Sendable(b);
      CacheOfRun(before);
      LookedIsRun(RunCalls(before), b, |b.buffer.samples|);
      assert BatchCalls(b)[..|b.buffer.samples|] == BatchCalls(b);
    }
  }

  lemma NothingLookedUp()
    ensures Run([]) == EMPTY
  {
  }

  // ------------------------------------------------------------------------- packets

  /** The answers read for a process up to the lookup of sample `i` of batch `n`. */
  ghost function AnswersUpTo(bs: seq<Batch>, n: nat, i: nat, pid: u64): seq<Answer>
    requires AllSendable(bs) && n < |bs| && Sendable(bs[n]) && i < |bs[n].buffer.samples|
  {
    AnswersRead(RunCalls(bs[..n]) + BatchCalls(bs[n])[..i + 1], pid)
  }

  /** A header that tells the truth about samples of batch `header.batch`, counted from 1. */
  ghost predicate TrueHeader(bs: seq<Batch>, h: Header) {
    && 1 <= h.batch <= |bs|
    && var b := bs[h.batch - 1];
       && 1 <= h.quantity && h.firstIndex + h.quantity <= |b.buffer.samples|
       && h.counters == 6 && h.core == b.buffer.core % 0x100 && h.missed == b.missed
       && forall i :: h.firstIndex <= i < h.firstIndex + h.quantity ==> b.buffer.samples[i].pid == h.pid
  }

  /** The packet holds these samples, the strings of the latest answer read for their process when the first of them was
      looked up, and the kernel flag that follows from these strings. */
  ghost predicate TruePacket(bs: seq<Batch>, p: Packet)
    requires AllSendable(bs)
  {
    && TrueHeader(bs, p.header)
    && var n, lo := p.header.batch - 1, p.header.firstIndex;
       && Sendable(bs[n])
       && p.samples == bs[n].buffer.samples[lo..lo + p.header.quantity]
       && p.header.kernel == (if p.cmdline == [] && p.exe == [] then 1 else 0)
       && var answers := AnswersUpTo(bs, n, lo, p.header.pid);
          && answers != []
          && p.cmdline == CString(answers[|answers| - 1].cmdline)
          && p.exe == CString(answers[|answers| - 1].executable)
  }

  /** What is seen of a process while a batch is looked up. */
  lemma SeenStrings(bs: seq<Batch>, n: nat, i: nat)
    requires AllSendable(bs) && n < |bs| && Sendable(bs[n]) && i < |bs[n].buffer.samples|
    ensures
      var e := SeenEntry(AfterAll(bs[..n]).cache, bs[n], i);
      var answers := AnswersUpTo(bs, n, i, bs[n].buffer.samples[i].pid);
      answers != [] && Repeats(e, answers[|answers| - 1])
  {
    hide AfterAll, Looked, Run, AnswersRead, BatchCalls, StringChecks, ZygoteChecks, Repeats;
    var pid := bs[n].buffer.samples[i].pid;
    var calls := RunCalls(bs[..n]) + BatchCalls(bs[n])[..i + 1];
    CacheOfRun(bs[..n]);
    LookedIsRun(RunCalls(bs[..n]), bs[n], i + 1);
    AlwaysRemembers(calls, pid);
    SeenEntryStays(AfterAll(bs[..n]).cache, bs[n], i, i + 1);
  }

  lemma GroupIsTrue(bs: seq<Batch>, n: nat, g: Group)
    requires AllSendable(bs) && |bs| < 0x1_0000_0000 && n < |bs| && Sendable(bs[n]) && Fits(bs[n].buffer.samples, g)
    ensures TruePacket(bs, GroupPacket(AfterAll(bs[..n]).cache, bs[n], n + 1, g))
  {
    hide AfterAll, SeenEntry, AnswersUpTo, CString;
    var b := bs[n];
    var e := SeenEntry(AfterAll(bs[..n]).cache, b, g.lo);
    SeenStrings(bs, n, g.lo);
    BlankIs(e.cmdline);
    BlankIs(e.executable);
    SmallPid(b.buffer.samples[g.lo].pid);
  }

  lemma SmallPid(pid: u64)
    requires pid < 0x1_0000_0000
    ensures Low32(pid) == pid
  {
  }

  /** Every packet of a run of fewer than 2^32 batches tells the truth about its samples, its batch and its process. */
  lemma {:induction false} PacketsAreTrue(bs: seq<Batch>, k: nat)
    requires AllSendable(bs) && |bs| < 0x1_0000_0000 && k < |AllPackets(bs)|
    ensures TruePacket(bs, AllPackets(bs)[k])
  {
    hide AllPackets, AfterAll, GroupPacket, TruePacket, Fits;
    var n, g := PacketOrigin(bs, k);
    assert Sendable(bs[n]);
    GroupIsTrue(bs, n, g);
  }
}
