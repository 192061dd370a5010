/** The writing half of sender/packet.cpp: the accumulated packet and its serialization in place. */
module Packetizer {
  import opened Bytes
  import opened SampleBuffer
  import opened Wire
  import opened ProcessState
  import opened ProcessCache
  import opened Sender

  /** Stores `v` in network byte order. */
  method WriteWord(block: array<byte>, pos: nat, v: u32)
    requires pos + 4 <= block.Length
    modifies block
    ensures Wrote(old(block[..]), block[..], pos, BigEndian(v))
  {
    var b := BigEndian(v);
    block[pos], block[pos + 1], block[pos + 2], block[pos + 3] := b[0], b[1], b[2], b[3];
  }

  /** `memcpy` of a string and its NUL. */
  method WriteString(block: array<byte>, pos: nat, s: seq<byte>) returns (next: nat)
    requires pos + |s| + 1 <= block.Length
    modifies block
    ensures Wrote(old(block[..]), block[..], pos, s + [0])
    ensures next == pos + |s| + 1
  {
    forall i | 0 <= i < |s| {
      block[pos + i] := s[i];
    }
    block[pos + |s|] := 0;
    next := pos + |s| + 1;
  }

  /** The statics of the file. `info` is the record whose strings `info.cmdline` and `info.exe` point
      into, and `borrowed` the number of loads that record had when the pointers were taken. */
  class Accumulator {
    var memory: array?<byte>
    var memoryN: nat
    var header: Header
    var info: ProcessInfo?
    ghost var borrowed: nat
    const samples: array<Sample>
    var currentIndex: nat

    ghost predicate Valid()
      reads this
    {
      && samples.Length == 256
      && (memory == null ==> memoryN == 0)
      && (memory != null ==> memoryN == memory.Length)
      && (header.quantity > 0 <==> info != null)
    }

    /** The strings the pointers refer to were not overwritten since the pointers were taken. */
    ghost predicate PointersLive()
      reads this, info
    {
      info != null ==> info.loads == borrowed
    }

    predicate Empty()
      reads this
    {
      header.quantity == 0
    }

    /** The packet that would be written now. */
    ghost function Pending(): Packet
      requires Valid() && !Empty()
      reads this, samples, info
    {
      Packet(header, samples[..header.quantity], CString(info.cmdline), CString(info.executable))
    }

    constructor ()
      ensures Valid() && Empty() && header == ZERO_HEADER && memory == null && fresh(samples)
    {
      memory, memoryN := null, 0;
      header := ZERO_HEADER;
      info := null;
      borrowed := 0;
      samples := new Sample[256](_ => ZERO_SAMPLE);
      currentIndex := 0;
    }

    /** `packet_should_create`: the packet cannot take the sample. */
    predicate ShouldCreate(b: BufferData, s: Sample, mode: Mode)
      reads this
    {
      && header.quantity != 0
      && (|| header.quantity == 255
          || (header.kernel != 0 && mode != Kernel)
          || header.core != b.core % 0x100
          || header.pid != s.pid)
    }

    method ClearData()
      requires Valid()
      modifies this, samples
      ensures Valid() && header == ZERO_HEADER.(batch := old(header.batch))
      ensures forall i :: 0 <= i < 256 ==> samples[i] == ZERO_SAMPLE
      ensures memory == old(memory) && memoryN == old(memoryN) && currentIndex == old(currentIndex)
    {
      var batch := header.batch;
      header := ZERO_HEADER;
      forall i | 0 <= i < 256 {
        samples[i] := ZERO_SAMPLE;
      }
      info := null;
      header := header.(batch := batch);
    }

    /** `packet_start_batch`: whatever was pending is dropped. */
    method StartBatch()
      requires Valid()
      modifies this, samples
      ensures Valid() && Empty() && header.batch == NextBatch(old(header.batch)) && currentIndex == 0
      ensures memory == old(memory) && memoryN == old(memoryN)
    {
      ClearData();
      currentIndex := 0;
      header := header.(batch := Low32(header.batch + 1));
    }

    /** `packet_append`; -1 is returned, and nothing changed, exactly when `ShouldCreate` holds. */
    method Append(b: BufferData, s: Sample, pi: ProcessInfo, missed: u32) returns (rc: int)
      requires Valid() && currentIndex < 0x7FFF_FFFF
      modifies this`header, this`info, this`borrowed, this`currentIndex, samples
      ensures Valid() && rc == (if old(ShouldCreate(b, s, pi.mode)) then -1 else 0)
      ensures rc == 0 <==>
        old(Empty()) || (old(header.quantity) < 255 && old(header.core) == b.core % 0x100 && old(header.pid) == s.pid
                         && (old(header.kernel) == 0 || pi.mode == Kernel))
      ensures rc == -1 ==>
        header == old(header) && info == old(info) && borrowed == old(borrowed)
        && currentIndex == old(currentIndex) && samples[..] == old(samples[..])
      ensures rc == 0 ==>
        && header.quantity == old(header.quantity) + 1
        && samples[..header.quantity] == old(samples[..header.quantity]) + [s]
        && currentIndex == old(currentIndex) + 1
        && if old(Empty()) then
             && header == Header(KernelByte(pi.mode), NUM_COUNTERS, b.core % 0x100, 1, old(header.batch),
                                 missed, old(currentIndex), Low32(s.pid))
             && info == pi && borrowed == pi.loads
           else
             header == old(header).(quantity := header.quantity)
             && info == old(info) && borrowed == old(borrowed)
    {
      if ShouldCreate(b, s, pi.mode) {
        return -1;
      }
      if header.quantity == 0 {
        header := header.(kernel := if pi.mode == Kernel then 1 else 0);
        header := header.(missed := missed);
        header := header.(firstIndex := currentIndex);
        header := header.(counters := NUM_COUNTERS);
        header := header.(core := b.core % 0x100);
        header := header.(pid := Low32(s.pid));
        info := pi;
        borrowed := pi.loads;
      }
      samples[header.quantity] := s;
      header := header.(quantity := header.quantity + 1);
      currentIndex := currentIndex + 1;
      rc := 0;
    }

    /** `demand_memory`: the block grows when the pending packet does not fit; zero means `realloc` failed. */
    method DemandMemory(allocates: bool) returns (amt: nat)
      requires Valid() && !Empty()
      modifies this`memory, this`memoryN
      ensures Valid()
      ensures var need := old(|Encode(Pending())|);
        if need <= old(memoryN) then amt == need && memory == old(memory) && memoryN == old(memoryN)
        else if allocates then amt == need == memoryN && fresh(memory)
        else amt == 0 && memory == null
    {
      hide Encode;
      amt := 20 + 4 * (NUM_COUNTERS + 1) * header.quantity
             + StrLen(info.cmdline) + 1 + StrLen(info.executable) + 1;
      EncodeIs(Pending());
      assert 4 * (NUM_COUNTERS + 1) * header.quantity == 28 * header.quantity;
      if amt <= memoryN {
        return;
      }
      if !allocates {
        memory, memoryN := null, 0;
        return 0;
      }
      var grown := new byte[amt];
      if memory != null {
        forall i | 0 <= i < memoryN {
          grown[i] := memory[i];
        }
      }
      memory, memoryN := grown, amt;
    }

    method WriteHeader(block: array<byte>) returns (next: nat)
      requires 20 <= block.Length
      modifies block
      ensures Wrote(old(block[..]), block[..], 0, HeaderBytes(header))
      ensures next == 20
    {
      hide BigEndian;
      ghost var start := block[..];
      var front := [header.kernel, header.counters, header.core, header.quantity];
      block[0], block[1], block[2], block[3] := header.kernel, header.counters, header.core, header.quantity;
      assert Wrote(start, block[..], 0, front);
      ghost var done := block[..];
      WriteWord(block, 4, header.batch);
      WroteThen(start, done, block[..], 0, front, BigEndian(header.batch));
      done := block[..];
      WriteWord(block, 8, header.missed);
      WroteThen(start, done, block[..], 0, front + BigEndian(header.batch), BigEndian(header.missed));
      done := block[..];
      WriteWord(block, 12, header.firstIndex);
      WroteThen(start, done, block[..], 0, front + BigEndian(header.batch) + BigEndian(header.missed),
                BigEndian(header.firstIndex));
      done := block[..];
      WriteWord(block, 16, header.pid);
      WroteThen(start, done, block[..], 0,
                front + BigEndian(header.batch) + BigEndian(header.missed) + BigEndian(header.firstIndex),
                BigEndian(header.pid));
      next := 20;
    }

    /** One sample: its cycles, then its counters. */
    method WriteSample(block: array<byte>, pos: nat, s: Sample)
      requires pos + 28 <= block.Length
      modifies block
      ensures Wrote(old(block[..]), block[..], pos, EncodeWords(SampleWords(s)))
    {
      hide BigEndian, EncodeWords, Low32, Wrote;
      ghost var start, words := block[..], SampleWords(s);
      WriteWord(block, pos, Low32(s.cycles));
      OneWord(words);
      for c := 0 to NUM_COUNTERS
        invariant Wrote(start, block[..], pos, EncodeWords(words[..c + 1]))
      {
        ghost var done := block[..];
        WriteWord(block, pos + 4 * (1 + c), s.counters[c]);
        EncodeWordsSnoc(words, c + 1);
        WroteThen(start, done, block[..], pos, EncodeWords(words[..c + 1]), BigEndian(words[c + 1]));
      }
      assert words[..7] == words;
    }

    static lemma OneWord(ws: seq<u32>)
      requires |ws| > 0
      ensures EncodeWords(ws[..1]) == BigEndian(ws[0])
    {
      hide BigEndian;
      EncodeWordsSnoc(ws, 0);
      assert ws[..0] == [];
    }

    static lemma {:induction false} EncodeWordsAppend(a: seq<u32>, b: seq<u32>)
      ensures EncodeWords(a + b) == EncodeWords(a) + EncodeWords(b)
    {
      hide BigEndian;
      if b == [] {
        assert a + b == a;
      } else {
        var last := |b| - 1;
        EncodeWordsAppend(a, b[..last]);
        assert (a + b)[..|a + b| - 1] == a + b[..last];
      }
    }

    static lemma NothingWritten(block: seq<byte>, pos: nat, none: seq<Sample>)
      requires pos <= |block| && none == []
      ensures Wrote(block, block, pos, EncodeWords(AllWords(none)))
    {
      assert block == block[..pos] + block[pos..];
    }

    method WriteSamples(block: array<byte>, pos: nat) returns (next: nat)
      requires Valid() && pos + 28 * header.quantity <= block.Length
      modifies block
      ensures Wrote(old(block[..]), block[..], pos, EncodeWords(AllWords(samples[..header.quantity])))
      ensures next == pos + 28 * header.quantity
    {
      hide EncodeWords, SampleWords, Wrote;
      ghost var start := block[..];
      next := pos;
      NothingWritten(start, pos, samples[..0]);
      for s := 0 to header.quantity
        invariant next == pos + 28 * s
        invariant Wrote(start, block[..], pos, EncodeWords(AllWords(samples[..s])))
      {
        ghost var done := block[..];
        WriteSample(block, next, samples[s]);
        AllWordsSnoc(samples[..], s);
        assert samples[..][..s] == samples[..s] && samples[..][..s + 1] == samples[..s + 1];
        EncodeWordsAppend(AllWords(samples[..s]), SampleWords(samples[s]));
        WroteThen(start, done, block[..], pos,
                  EncodeWords(AllWords(samples[..s])), EncodeWords(SampleWords(samples[s])));
        next := next + 28;
      }
    }

    /** Both strings are read through the pointers taken by `Append`. */
    method WriteInfo(block: array<byte>, pos: nat) returns (next: nat)
      requires info != null && PointersLive()
      requires pos + StrLen(info.cmdline) + 1 + StrLen(info.executable) + 1 <= block.Length
      modifies block
      ensures Wrote(old(block[..]), block[..], pos, CString(info.cmdline) + [0] + CString(info.executable) + [0])
      ensures next == pos + StrLen(info.cmdline) + 1 + StrLen(info.executable) + 1
    {
      ghost var start, c, e := block[..], CString(info.cmdline), CString(info.executable);
      next := WriteString(block, pos, CString(info.cmdline));
      ghost var done := block[..];
      next := WriteString(block, next, CString(info.executable));
      WroteThen(start, done, block[..], pos, c + [0], e + [0]);
      assert c + [0] + (e + [0]) == c + [0] + e + [0];
    }

    /** The three writers together write the pending packet at the front of the block. */
    method WritePacket(block: array<byte>)
      requires Valid() && !Empty() && PointersLive()
      requires |Encode(Pending())| <= block.Length
      modifies block
      ensures Wrote(old(block[..]), block[..], 0, Encode(Pending()))
    {
      hide HeaderBytes, EncodeWords, AllWords, Encode, Wrote, StrLen;
      ghost var p, start, h := Pending(), block[..], HeaderBytes(header);
      ghost var ws, info := EncodeWords(AllWords(p.samples)), p.cmdline + [0] + p.exe + [0];
      EncodeIs(p);
      var next := WriteHeader(block);
      ghost var done := block[..];
      next := WriteSamples(block, next);
      WroteThen(start, done, block[..], 0, h, ws);
      done := block[..];
      next := WriteInfo(block, next);
      WroteThen(start, done, block[..], 0, h + ws, info);
    }

    static lemma EncodeIs(p: Packet)
      ensures Encode(p) == HeaderBytes(p.header) + EncodeWords(AllWords(p.samples)) + (p.cmdline + [0] + p.exe + [0])
      ensures |Encode(p)| == 20 + 28 * |p.samples| + |p.cmdline| + 1 + |p.exe| + 1
    {
      hide HeaderBytes, EncodeWords, AllWords;
    }

    static lemma WroteInFront(before: seq<byte>, after: seq<byte>, data: seq<byte>)
      requires Wrote(before, after, 0, data)
      ensures |data| <= |after| && after[..|data|] == data
    {
    }

    /** `packet_create`: the bytes of the pending packet, in a block that only grows while allocation succeeds. */
    method Create(allocates: bool) returns (rc: int, save: array?<byte>, size: nat)
      requires Valid() && PointersLive()
      modifies this, memory, samples
      ensures Valid() && header.batch == old(header.batch) && currentIndex == old(currentIndex)
      ensures memory != null ==> memory == old(memory) || fresh(memory)
      ensures if old(Empty()) then rc == 0 && save == null && size == 0 && Empty() && memory == old(memory)
        else if old(|Encode(Pending())| <= memoryN) || allocates then
          && rc == 0 && Empty() && save == memory && save != null && size <= save.Length
          && save[..size] == old(Encode(Pending()))
          && memoryN == if size <= old(memoryN) then old(memoryN) else size
        else
          && rc == -1 && memory == null && header == old(header) && info == old(info) && borrowed == old(borrowed)
          && samples[..] == old(samples[..])
    {
      hide Encode, HeaderBytes, EncodeWords, AllWords, Wrote;
      size := 0;
      if header.quantity == 0 {
        ClearData();
        return 0, null, 0;
      }
      ghost var bytes := Encode(Pending());
      size := DemandMemory(allocates);
      EncodeIs(Pending());
      if size == 0 {
        return -1, null, 0;
      }
      ghost var before := memory[..];
      WritePacket(memory);
      WroteInFront(before, memory[..], bytes);
      assert memory[..size] == memory[..][..size];
      ClearData();
      assert memory[..size] == bytes;
      return 0, memory, size;
    }
  }
}
