/** The packet format: a pure encoder, a pure parser, and the laws connecting them. */
module Wire {
  import opened Bytes
  import opened SampleBuffer

  // A header takes 20 bytes. A sample takes 7 words, one for the cycles and one for each counter: 28 bytes.

  datatype Header = Header(
    kernel: byte, counters: byte, core: byte, quantity: byte,
    batch: u32, missed: u32, firstIndex: u32, pid: u32)

  const ZERO_HEADER := Header(0, 0, 0, 0, 0, 0, 0, 0)

  datatype Packet = Packet(header: Header, samples: seq<Sample>, cmdline: seq<byte>, exe: seq<byte>)

  /** A packet the format can carry: the quantity counts the samples and neither string holds a NUL. */
  ghost predicate WellFormed(p: Packet) {
    && |p.samples| == p.header.quantity
    && StrLen(p.cmdline) == |p.cmdline|
    && StrLen(p.exe) == |p.exe|
  }

  // ---------------------------------------------------------------- encoding

  function HeaderBytes(h: Header): (b: seq<byte>)
    ensures |b| == 20
  {
    [h.kernel, h.counters, h.core, h.quantity]
    + BigEndian(h.batch) + BigEndian(h.missed) + BigEndian(h.firstIndex) + BigEndian(h.pid)
  }

  /** The seven words of a sample: its cycles cut to 32 bits, then its counters. */
  function SampleWords(s: Sample): (ws: seq<u32>)
    ensures |ws| == 7
  {
    [Low32(s.cycles)] + s.counters
  }

  function AllWords(ss: seq<Sample>): (ws: seq<u32>)
    ensures |ws| == 7 * |ss|
  {
    if ss == [] then [] else AllWords(ss[..|ss| - 1]) + SampleWords(ss[|ss| - 1])
  }

  function Encode(p: Packet): seq<byte> {
    HeaderBytes(p.header) + EncodeWords(AllWords(p.samples)) + p.cmdline + [0] + p.exe + [0]
  }

  function EncodeAll(ps: seq<Packet>): seq<byte> {
    if ps == [] then [] else EncodeAll(ps[..|ps| - 1]) + Encode(ps[|ps| - 1])
  }

  /** What survives the wire: cycles are cut to 32 bits and every sample takes the packet's pid. */
  function Carried(p: Packet): (q: Packet)
    ensures |q.samples| == |p.samples|
  {
    p.(samples := seq(|p.samples|, i requires 0 <= i < |p.samples| => CarriedSample(p.header, p.samples[i])))
  }

  function CarriedSample(h: Header, s: Sample): Sample {
    Sample(Low32(s.cycles), h.pid, s.counters)
  }

  function CarriedAll(ps: seq<Packet>): (qs: seq<Packet>)
    ensures |qs| == |ps|
  {
    seq(|ps|, i requires 0 <= i < |ps| => Carried(ps[i]))
  }

  // ----------------------------------------------------------------- parsing

  /** Outcome of reading one packet at the front of a block, behind which some more memory is readable:
      `Complete` - 0 is returned and both strings end in readable memory, if not in the block itself;
      `Endless`  - 0 is returned, but the executable does not end in readable memory;
      `Short`    - 1 is returned;
      `Fault`    - memory that is not readable is read. */
  datatype Parse =
    | Complete(packet: Packet, read: nat)
    | Endless(packet: Packet, read: nat)
    | Short
    | Fault

  function HeaderAt(b: seq<byte>): Header
    requires 20 <= |b|
  {
    Header(b[0], b[1], b[2], b[3], WordAt(b, 4), WordAt(b, 8), WordAt(b, 12), WordAt(b, 16))
  }

  function SampleAt(b: seq<byte>, pid: u32, i: nat): Sample
    requires 28 * (i + 1) <= |b|
  {
    var o := 28 * i;
    Sample(WordAt(b, o), pid,
           [WordAt(b, o + 4), WordAt(b, o + 8), WordAt(b, o + 12),
            WordAt(b, o + 16), WordAt(b, o + 20), WordAt(b, o + 24)])
  }

  function SamplesAt(b: seq<byte>, pid: u32, n: nat): (ss: seq<Sample>)
    requires 28 * n <= |b|
    ensures |ss| == n
  {
    seq(n, i requires 0 <= i < n => SampleAt(b, pid, i))
  }

  /** Outcome of reading the two strings that end a packet. */
  datatype Info =
    | Strings(cmdline: seq<byte>, exe: seq<byte>, bytes: nat)
    | EndlessExe(cmdline: seq<byte>, exe: seq<byte>, bytes: nat)
    | NoExe
    | NoMemory

  /** There is a NUL. */
  predicate HasEnd(s: seq<byte>) {
    StrLen(s) < |s|
  }

  function Skip(s: seq<byte>): seq<byte> {
    if s == [] then [] else s[1..]
  }

  /** `read_info` on the block `b`, with `behind` readable after it. A command line without a NUL makes the unsigned
      counter wrap, and the executable is looked for from one byte behind the block on. An executable without
      a NUL is accepted, with one byte too many counted, and ends wherever memory has the next NUL. */
  function InfoAt(b: seq<byte>, behind: seq<byte>): Info {
    var k := StrLen(b);
    if k == |b| then
      if HasEnd(Skip(behind)) then
        Strings(CString(b + behind), CString(Skip(behind)), |b| + 1 + StrLen(Skip(behind)) + 1)
      else NoMemory
    else if k + 1 == |b| then NoExe
    else if HasEnd(b[k + 1..]) then Strings(b[..k], CString(b[k + 1..]), k + 1 + StrLen(b[k + 1..]) + 1)
    else if HasEnd(behind) then Strings(b[..k], CString(b[k + 1..] + behind), |b| + 1)
    else EndlessExe(b[..k], b[k + 1..] + behind, |b| + 1)
  }

  function ParsePacket(b: seq<byte>, behind: seq<byte>): (r: Parse)
    ensures r.Complete? ==> 20 < r.read
    ensures r.Endless? ==> r.read == |b| + 1
  {
    if |b| < 20 then Short
    else
      var h := HeaderAt(b);
      var body := b[20..];
      if |body| < 28 * h.quantity then Short
      else
        var fixed := 28 * h.quantity;
        match InfoAt(body[fixed..], behind)
        case NoMemory => Fault
        case NoExe => Short
        case EndlessExe(c, e, n) =>
          Endless(Packet(h, SamplesAt(body, h.pid, h.quantity), c, e), 20 + fixed + n)
        case Strings(c, e, n) =>
          Complete(Packet(h, SamplesAt(body, h.pid, h.quantity), c, e), 20 + fixed + n)
  }

  // ---------------------------------------------------------- one packet back

  lemma {:induction false} HeaderRoundTrip(h: Header, rest: seq<byte>)
    ensures HeaderAt(HeaderBytes(h) + rest) == h
  {
    var b := HeaderBytes(h) + rest;
    var ws := [h.batch, h.missed, h.firstIndex, h.pid];
    var front := [h.kernel, h.counters, h.core, h.quantity];
    BigEndianRoundTrip(h.batch, front, BigEndian(h.missed) + BigEndian(h.firstIndex) + BigEndian(h.pid) + rest);
    assert b == front + BigEndian(h.batch) + (BigEndian(h.missed) + BigEndian(h.firstIndex) + BigEndian(h.pid) + rest);
    BigEndianRoundTrip(h.missed, front + BigEndian(h.batch), BigEndian(h.firstIndex) + BigEndian(h.pid) + rest);
    assert b == front + BigEndian(h.batch) + BigEndian(h.missed) + (BigEndian(h.firstIndex) + BigEndian(h.pid) + rest);
    var three := front + BigEndian(h.batch) + BigEndian(h.missed);
    BigEndianRoundTrip(h.firstIndex, three, BigEndian(h.pid) + rest);
    assert b == three + BigEndian(h.firstIndex) + (BigEndian(h.pid) + rest);
    BigEndianRoundTrip(h.pid, three + BigEndian(h.firstIndex), rest);
    assert b == three + BigEndian(h.firstIndex) + BigEndian(h.pid) + rest;
  }

  lemma {:induction false} AllWordsAt(ss: seq<Sample>, i: nat, j: nat)
    requires i < |ss| && j < 7
    ensures AllWords(ss)[7 * i + j] == SampleWords(ss[i])[j]
  {
    if i < |ss| - 1 {
      AllWordsAt(ss[..|ss| - 1], i, j);
    }
  }

  lemma AllWordsSnoc(ss: seq<Sample>, k: nat)
    requires k < |ss|
    ensures AllWords(ss[..k + 1]) == AllWords(ss[..k]) + SampleWords(ss[k])
  {
    assert ss[..k + 1][..k] == ss[..k];
  }

  lemma WordRoundTrip(ss: seq<Sample>, rest: seq<byte>, i: nat, j: nat)
    requires i < |ss| && j < 7
    ensures WordAt(EncodeWords(AllWords(ss)) + rest, 28 * i + 4 * j) == SampleWords(ss[i])[j]
  {
    hide *;
    EncodedWordAt(AllWords(ss), rest, 7 * i + j);
    AllWordsAt(ss, i, j);
  }

  lemma SampleFromWords(b: seq<byte>, h: Header, s: Sample, i: nat)
    requires 28 * (i + 1) <= |b|
    requires forall j :: 0 <= j < 7 ==> WordAt(b, 28 * i + 4 * j) == SampleWords(s)[j]
    ensures SampleAt(b, h.pid, i) == CarriedSample(h, s)
  {
    hide WordAt, Low32;
    var read := SampleAt(b, h.pid, i);
    assert WordAt(b, 28 * i + 4 * 0) == SampleWords(s)[0];
    forall c | 0 <= c < NUM_COUNTERS
      ensures read.counters[c] == s.counters[c]
    {
      assert WordAt(b, 28 * i + 4 * (c + 1)) == SampleWords(s)[c + 1];
    }
  }

  lemma SampleRoundTrip(h: Header, ss: seq<Sample>, rest: seq<byte>, i: nat)
    requires i < |ss|
    ensures SampleAt(EncodeWords(AllWords(ss)) + rest, h.pid, i) == CarriedSample(h, ss[i])
  {
    hide *;
    forall j | 0 <= j < 7
      ensures WordAt(EncodeWords(AllWords(ss)) + rest, 28 * i + 4 * j) == SampleWords(ss[i])[j]
    {
      WordRoundTrip(ss, rest, i, j);
    }
    SampleFromWords(EncodeWords(AllWords(ss)) + rest, h, ss[i], i);
  }

  lemma {:induction false} SamplesRoundTrip(p: Packet, rest: seq<byte>)
    ensures SamplesAt(EncodeWords(AllWords(p.samples)) + rest, p.header.pid, |p.samples|) == Carried(p).samples
  {
    forall i | 0 <= i < |p.samples|
      ensures SampleAt(EncodeWords(AllWords(p.samples)) + rest, p.header.pid, i)
           == CarriedSample(p.header, p.samples[i])
    {
      SampleRoundTrip(p.header, p.samples, rest, i);
    }
  }

  /** A string and its NUL in front of a block are found there. */
  lemma StringInFront(c: seq<byte>, rest: seq<byte>)
    requires StrLen(c) == |c|
    ensures StrLen(c + [0] + rest) == |c|
    ensures (c + [0] + rest)[..|c|] == c && (c + [0] + rest)[|c| + 1..] == rest
  {
    var b := c + [0] + rest;
    forall i | 0 <= i < |c|
      ensures b[i] != 0
    {
      assert b[i] == c[i];
    }
    StrLenUnique(b, |c|);
  }

  lemma {:induction false} StringsRoundTrip(c: seq<byte>, e: seq<byte>, rest: seq<byte>, behind: seq<byte>)
    requires StrLen(c) == |c| && StrLen(e) == |e|
    ensures InfoAt(c + [0] + e + [0] + rest, behind) == Strings(c, e, |c| + 1 + |e| + 1)
  {
    hide StrLen;
    var tail := e + [0] + rest;
    var b := c + [0] + e + [0] + rest;
    assert b == c + [0] + tail;
    StringInFront(c, tail);
    StringInFront(e, rest);
  }

  /** The three parts of an encoded packet, whatever follows it. */
  lemma EncodeParts(p: Packet, rest: seq<byte>)
    requires WellFormed(p)
    ensures var b := Encode(p) + rest;
            && 20 + 28 * p.header.quantity <= |b|
            && HeaderAt(b) == p.header
            && b[20..] == EncodeWords(AllWords(p.samples)) + (p.cmdline + [0] + p.exe + [0] + rest)
            && b[20..][28 * p.header.quantity..] == p.cmdline + [0] + p.exe + [0] + rest
    ensures |Encode(p)| == 20 + 28 * |p.samples| + |p.cmdline| + 1 + |p.exe| + 1
  {
    hide BigEndian, WordAt;
    var b := Encode(p) + rest;
    var words := EncodeWords(AllWords(p.samples));
    var info := p.cmdline + [0] + p.exe + [0] + rest;
    assert b == HeaderBytes(p.header) + (words + info);
    HeaderRoundTrip(p.header, words + info);
    assert b[20..] == words + info;
    assert (words + info)[|words|..] == info;
  }

  lemma WordBehind(b: seq<byte>, front: nat, k: nat)
    requires front + k + 4 <= |b|
    ensures WordAt(b, front + k) == WordAt(b[front..], k)
  {
  }

  /** Where the fields of a packet are: single bytes, then words, in the order of sender/protocol.txt. */
  lemma {:induction false} HeaderLayout(p: Packet)
    requires WellFormed(p)
    ensures var b, h := Encode(p), p.header;
      && |b| == 20 + 28 * |p.samples| + |p.cmdline| + 1 + |p.exe| + 1
      && b[..4] == [h.kernel, h.counters, h.core, h.quantity]
      && WordAt(b, 4) == h.batch && WordAt(b, 8) == h.missed
      && WordAt(b, 12) == h.firstIndex && WordAt(b, 16) == h.pid
      && b[20 + 28 * |p.samples|..] == p.cmdline + [0] + p.exe + [0]
  {
    hide Encode, EncodeWords, AllWords, WordAt;
    EncodeParts(p, []);
    assert Encode(p) + [] == Encode(p);
    assert Encode(p)[20..][28 * |p.samples|..] == Encode(p)[20 + 28 * |p.samples|..];
  }

  /** Where the fields of its samples are: the lowest 32 bits of the cycles, then the six counters. */
  lemma {:induction false} SampleLayout(p: Packet, i: nat, c: nat)
    requires WellFormed(p) && i < |p.samples| && c < 6
    ensures 20 + 28 * (i + 1) <= |Encode(p)|
    ensures WordAt(Encode(p), 20 + 28 * i) == p.samples[i].cycles % 0x1_0000_0000
    ensures WordAt(Encode(p), 20 + 28 * i + 4 + 4 * c) == p.samples[i].counters[c]
  {
    hide Encode, EncodeWords, AllWords, WordAt, HeaderAt;
    var rest := p.cmdline + [0] + p.exe + [0] + [];
    EncodeParts(p, []);
    assert Encode(p) + [] == Encode(p);
    WordRoundTrip(p.samples, rest, i, 0);
    WordRoundTrip(p.samples, rest, i, c + 1);
    WordBehind(Encode(p), 20, 28 * i);
    WordBehind(Encode(p), 20, 28 * i + 4 + 4 * c);
  }

  /** Reading back an encoded packet gives what the wire carries and its exact length, whatever follows. */
  lemma {:induction false} PacketRoundTrip(p: Packet, rest: seq<byte>, behind: seq<byte>)
    requires WellFormed(p)
    ensures ParsePacket(Encode(p) + rest, behind) == Complete(Carried(p), |Encode(p)|)
  {
    hide Encode, EncodeWords, AllWords, HeaderAt, InfoAt, SamplesAt;
    EncodeParts(p, rest);
    SamplesRoundTrip(p, p.cmdline + [0] + p.exe + [0] + rest);
    StringsRoundTrip(p.cmdline, p.exe, rest, behind);
  }

  /** No encoding is a prefix of another one, so frames need no length field. */
  lemma {:induction false} PrefixFree(p: Packet, q: Packet, restP: seq<byte>, restQ: seq<byte>)
    requires WellFormed(p) && WellFormed(q)
    requires Encode(p) + restP == Encode(q) + restQ
    ensures Carried(p) == Carried(q) && Encode(p) == Encode(q) && restP == restQ
  {
    hide Encode, Carried;
    PacketRoundTrip(p, restP, []);
    PacketRoundTrip(q, restQ, []);
    var b := Encode(p) + restP;
    assert b[..|Encode(p)|] == Encode(p) && b[..|Encode(p)|] == Encode(q);
    assert b[|Encode(p)|..] == restP && b[|Encode(p)|..] == restQ;
  }

  // ------------------------------------------------------------- several packets

  ghost predicate AllWellFormed(ps: seq<Packet>) {
    forall i :: 0 <= i < |ps| ==> WellFormed(ps[i])
  }

  lemma EncodeAllLast(ps: seq<Packet>)
    requires ps != []
    ensures EncodeAll(ps) == EncodeAll(ps[..|ps| - 1]) + Encode(ps[|ps| - 1])
  {
    hide Encode;
  }

  lemma Regroup(a: seq<byte>, b: seq<byte>, c: seq<byte>)
    ensures a + b + c == a + (b + c)
  {
  }

  lemma {:induction false} EncodeAllCons(ps: seq<Packet>)
    requires ps != []
    ensures EncodeAll(ps) == Encode(ps[0]) + EncodeAll(ps[1..])
  {
    hide Encode;
    var last := |ps| - 1;
    if last == 0 {
      assert ps[..0] == [];
    } else {
      hide EncodeAll;
      EncodeAllCons(ps[..last]);
      EncodeAllLast(ps);
      EncodeAllLast(ps[1..]);
      assert ps[..last][1..] == ps[1..][..last - 1];
      Regroup(Encode(ps[0]), EncodeAll(ps[..last][1..]), Encode(ps[last]));
    }
  }

  lemma EncodeAllSnoc(ps: seq<Packet>, p: Packet)
    ensures EncodeAll(ps + [p]) == EncodeAll(ps) + Encode(p)
  {
    hide Encode;
    assert (ps + [p])[..|ps|] == ps;
  }

  lemma {:induction false} EncodeAllAppend(ps: seq<Packet>, qs: seq<Packet>)
    ensures EncodeAll(ps + qs) == EncodeAll(ps) + EncodeAll(qs)
  {
    hide Encode;
    if qs == [] {
      assert ps + qs == ps;
    } else {
      hide EncodeAll;
      var last := |qs| - 1;
      EncodeAllAppend(ps, qs[..last]);
      assert ps + qs == (ps + qs[..last]) + [qs[last]];
      EncodeAllSnoc(ps + qs[..last], qs[last]);
      EncodeAllLast(qs);
      Regroup(EncodeAll(ps), EncodeAll(qs[..last]), Encode(qs[last]));
    }
  }
}
