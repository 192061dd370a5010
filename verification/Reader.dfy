/** reader/reader.cpp and the program-wide parts of reader/splitter_reader.cpp: the framing loop and its outputs. */
module Reader {
  import opened Bytes
  import opened SampleBuffer
  import opened Wire
  import opened Streams
  import opened PacketReader
  import opened Splitting
  import opened Splitter
  import opened Options

  /** What the global `process_packet` does with a packet. */
  datatype Verdict = Delivered | Skipped | Aborted

  /** The splitter's globals. `state` is what the files and cursors amount to. */
  class Outputs {
    const shared: Shared
    const cores: seq<CoreOutput>
    var setup: seq<byte>
    ghost var state: Split

    ghost predicate Valid()
      reads this, shared, shared.streams, cores
    {
      && |cores| == |state.last| == CORES
      && (forall i, j :: 0 <= i < j < CORES ==> cores[i] != cores[j])
      && shared.Valid() && shared.View() == state.files
      && forall i :: 0 <= i < CORES ==> cores[i].Valid(shared) && cores[i].Last() == state.last[i]
    }

    constructor ()
      ensures Valid() && state == EMPTY && shared.index == []
      ensures fresh(shared) && fresh(shared.streams) && forall i :: 0 <= i < |cores| ==> fresh(cores[i])
    {
      var made: seq<CoreOutput> := [];
      for i := 0 to CORES
        invariant |made| == i
        invariant forall j :: 0 <= j < i ==> fresh(made[j]) && made[j].Last() == None && made[j].currFile == null
        invariant forall j, k :: 0 <= j < k < i ==> made[j] != made[k]
      {
        var core := new CoreOutput();
        made := made + [core];
      }
      cores := made;
      shared := new Shared();
      setup := [];
      state := EMPTY;
    }

    /** `process_file`: the description becomes the set-up file. */
    method ProcessFile(description: seq<byte>)
      requires Valid()
      modifies this`setup
      ensures Valid() && setup == description
    {
      setup := description;
    }

    /** The global `process_packet`. Core 16 passes the guard and then fails the assertion. */
    method ProcessPacket(head: Header, cmdline: seq<byte>, exe: seq<byte>, samples: array<Sample>)
      returns (r: Verdict)
      requires Valid() && head.quantity <= samples.Length
      modifies this`state, shared`pidFiles, shared`files, shared`streams, shared.streams, cores
      ensures Valid()
      ensures r == if head.core > CORES then Skipped else if head.core == CORES then Aborted else Delivered
      ensures state == if r == Aborted then old(state)
                       else Deliver(old(state), Packet(head, samples[..head.quantity], cmdline, exe))
      ensures fresh(shared.streams - old(shared.streams)) && shared.index == old(shared.index)
    {
      hide TurnTo, AddLines, RowsOf, Shared.View, Shared.Consistent;
      if head.core > CORES {
        return Skipped;
      }
      if head.core == CORES {
        return Aborted;
      }
      state := Deliver(state, Packet(head, samples[..head.quantity], cmdline, exe));
      cores[head.core].ProcessPacket(shared, head, cmdline, exe, samples);
      r := Delivered;
    }
  }

  /** Why the loop ended: at the end of the file, at an incomplete packet, by reading memory that is not readable,
      or by the assertion of `process_packet`. */
  datatype LoopEnd = Finished | MoreNeeded | MemoryFault | CoreAssertion

  /** How the loop over a stream ends. An executable that does not end in readable memory is noticed only
      when the splitter copies it, which it does for its own cores. */
  function LoopEndOf(all: Stream): LoopEnd {
    if BeforeAbort(all.packets) != all.packets then CoreAssertion
    else
      match all.end
      case AtEnd => Finished
      case Incomplete => MoreNeeded
      case Unreadable => MemoryFault
      case OpenString(core) =>
        if core < CORES then MemoryFault else if core == CORES then CoreAssertion else Finished
  }

  /** The part of the file from a position on that may lie behind its end. */
  function From(file: seq<byte>, position: nat): seq<byte> {
    if position < |file| then file[position..] else []
  }

  /** After `done`, the rest of the stream is what a block of bytes holds. */
  ghost predicate Remains(all: Stream, done: seq<Packet>, offset: nat, block: seq<byte>, behind: seq<byte>) {
    && NoneAborts(done)
    && var r := ParseStream(block, behind);
       all == Stream(done + r.packets, r.end, offset + r.taken)
  }

  /** How the loop over a stream ends, what was delivered, and where it stopped. */
  ghost predicate EndsWith(all: Stream, state: Split, offset: nat, end: LoopEnd) {
    && state == DeliverAll(BeforeAbort(all.packets))
    && end == LoopEndOf(all)
    && (end == Finished || end == MoreNeeded ==> offset == all.taken)
  }

  lemma NothingRemains(all: Stream, done: seq<Packet>, offset: nat, behind: seq<byte>)
    requires Remains(all, done, offset, [], behind)
    ensures EndsWith(all, DeliverAll(done), offset, Finished)
  {
    hide ParsePacket, DeliverAll;
    AbortAfter(done, []);
    assert done + [] == done;
  }

  lemma NoPacket(all: Stream, done: seq<Packet>, offset: nat, block: seq<byte>, behind: seq<byte>)
    requires Remains(all, done, offset, block, behind) && block != []
    ensures match ParsePacket(block, behind)
      case Short => EndsWith(all, DeliverAll(done), offset, MoreNeeded)
      case Fault => EndsWith(all, DeliverAll(done), offset, MemoryFault)
      case Endless(p, n) =>
        if p.header.core > CORES then EndsWith(all, DeliverAll(done), offset + n, Finished)
        else EndsWith(all, DeliverAll(done), offset,
                      if p.header.core == CORES then CoreAssertion else MemoryFault)
      case Complete(_, _) => true
  {
    hide ParsePacket, DeliverAll;
    AbortAfter(done, []);
    assert done + [] == done;
  }

  lemma OneRemains(all: Stream, done: seq<Packet>, offset: nat, block: seq<byte>, behind: seq<byte>)
    requires Remains(all, done, offset, block, behind) && block != [] && ParsePacket(block, behind).Complete?
    ensures var r := ParsePacket(block, behind);
      if r.packet.header.core == CORES then EndsWith(all, DeliverAll(done), offset, CoreAssertion)
      else Remains(all, done + [r.packet], offset + r.read, From(block, r.read), behind)
  {
    hide ParsePacket, DeliverAll;
    var r := ParsePacket(block, behind);
    var rest := ParseStream(From(block, r.read), behind);
    assert [r.packet] + [] == [r.packet];
    AbortAfter(done, [r.packet] + rest.packets);
    assert done + [] == done;
    assert done + ([r.packet] + rest.packets) == (done + [r.packet]) + rest.packets;
  }

  /** `read_file_loop`: the description, then packets until the end of the file or the first that is not complete.
      `behind` is what can be read behind the end of the file. */
  method ReadFileLoop(file: seq<byte>, behind: seq<byte>, out: Outputs) returns (end: LoopEnd, position: nat)
    requires 0 in file && |file| + |behind| <= SIZE_MAX
    requires out.Valid() && out.state == EMPTY
    modifies out, out.shared, out.shared.streams, out.cores
    ensures out.Valid() && out.setup == CString(file)
    ensures fresh(out.shared.streams - old(out.shared.streams)) && out.shared.index == old(out.shared.index)
    ensures
      var start := StrLen(file) + 1;
      start <= position && EndsWith(ParseStream(file[start..], behind), out.state, position - start, end)
    ensures end == Finished ==> position >= |file|
  {
    hide ParsePacket, ParseStream, Deliver, DeliverAll, CString, HasEnd, From, Outputs.Valid, EndsWith, Remains;
    NulInside(file);
    var start := StrLen(file) + 1;
    position := start;
    var samples := new Sample[256](_ => ZERO_SAMPLE);
    out.ProcessFile(CString(file));
    ghost var done: seq<Packet>, over := [], false;
    ghost var all := ParseStream(file[start..], behind);
    StartRemains(file, start, behind);
    while position < |file|
      invariant start <= position && out.Valid() && out.setup == CString(file)
      invariant fresh(out.shared.streams - old(out.shared.streams)) && out.shared.index == old(out.shared.index)
      invariant out.state == DeliverAll(done)
      invariant !over ==> Remains(all, done, position - start, From(file, position), behind)
      invariant over ==> position >= |file| && EndsWith(all, DeliverAll(done), position - start, Finished)
      decreases |file| - position
    {
      ghost var block := file[position..];
      Ahead(file, position);
      var rc, head, cmdline, exe, pbytes := PacketRead(file, behind, position, samples);
      NoPacket(all, done, position - start, block, behind);
      if rc != Success {
        end := if rc == NeedMore then MoreNeeded else MemoryFault;
        return;
      }
      var memory := file + behind;
      if head.core < CORES && !HasEnd(memory[exe..]) {
        end := MemoryFault;  // while the splitter copies the executable
        return;
      }
      ghost var p := Packet(head, samples[..head.quantity], CString(memory[cmdline..]), CString(memory[exe..]));
      if ParsePacket(block, behind).Complete? {
        OneRemains(all, done, position - start, block, behind);
        DeliverAllSnoc(done, p);
      } else {
        NotDelivered(DeliverAll(done), p);
      }
      var r := out.ProcessPacket(head, CString(memory[cmdline..]), CString(memory[exe..]), samples);
      if r == Aborted {
        end := CoreAssertion;
        return;
      }
      if ParsePacket(block, behind).Complete? {
        done := done + [p];
      } else {
        over := true;
      }
      Ahead(file, position + pbytes);
      position := position + pbytes;
    }
    if !over {
      Ahead(file, position);
      NothingRemains(all, done, position - start, behind);
    }
    end := Finished;
  }

  lemma NotDelivered(st: Split, p: Packet)
    requires p.header.core >= CORES && |st.last| == CORES
    ensures Deliver(st, p) == st
  {
  }

  lemma Ahead(file: seq<byte>, position: nat)
    ensures position < |file| ==> From(file, position) == file[position..]
    ensures position >= |file| ==> From(file, position) == []
    ensures forall more: nat :: position < |file| ==> From(file[position..], more) == From(file, position + more)
  {
  }

  lemma StartRemains(file: seq<byte>, start: nat, behind: seq<byte>)
    requires start <= |file|
    ensures Remains(ParseStream(file[start..], behind), [], 0, From(file, start), behind)
    ensures DeliverAll([]) == EMPTY
  {
    hide ParseStream;
    var r := ParseStream(file[start..], behind);
    assert From(file, start) == file[start..];
    assert [] + r.packets == r.packets;
  }

  lemma NulInside(file: seq<byte>)
    requires 0 in file
    ensures StrLen(file) < |file|
  {
    var i :| 0 <= i < |file| && file[i] == 0;
  }
}
