/** Reading a stream of packets, whole or cut off anywhere. */
module Streams {
  import opened Bytes
  import opened Wire

  /** Why reading a stream ends:
      `AtEnd`      - nothing is left;
      `Incomplete` - the last packet is not complete, and the reader noticed it;
      `Unreadable` - memory that is not readable was read;
      `OpenString` - a packet of the given core has an executable that does not end in readable memory. */
  datatype StreamEnd = AtEnd | Incomplete | Unreadable | OpenString(core: byte)

  /** The packets handed on, why reading ended, and how far it went, which may be behind the end of the stream. */
  datatype Stream = Stream(packets: seq<Packet>, end: StreamEnd, taken: nat)

  function ParseStream(b: seq<byte>, behind: seq<byte>): Stream
    decreases |b|
  {
    if b == [] then Stream([], AtEnd, 0)
    else
      match ParsePacket(b, behind)
      case Short => Stream([], Incomplete, 0)
      case Fault => Stream([], Unreadable, 0)
      case Endless(p, n) => Stream([], OpenString(p.header.core), n)
      case Complete(p, n) =>
        if n >= |b| then Stream([p], AtEnd, n)
        else
          var r := ParseStream(b[n..], behind);
          Stream([p] + r.packets, r.end, n + r.taken)
  }

  // ------------------------------------------------------- one packet cut off

  /** What the parser makes of a packet cut after `m` bytes with `behind` readable after the cut. */
  function CutOutcome(p: Packet, m: nat, behind: seq<byte>): Parse
    requires m < |Encode(p)| && |p.samples| == p.header.quantity
  {
    var fixed, c := 20 + 28 * p.header.quantity, |p.cmdline|;
    EncodeLength(p);
    if m < fixed then Short                       // in the header or in the samples
    else if m <= fixed + c then                   // the command line has no NUL, the counter wraps
      if HasEnd(Skip(behind)) then
        Complete(Carried(p).(cmdline := CString(p.cmdline[..m - fixed] + behind), exe := CString(Skip(behind))),
                 m + 1 + StrLen(Skip(behind)) + 1)
      else Fault
    else if m == fixed + c + 1 then Short         // exactly after the command line's NUL
    else                                          // the executable has no NUL, which goes unnoticed
      var seen := p.exe[..m - fixed - c - 1] + behind;
      if HasEnd(behind) then Complete(Carried(p).(exe := CString(seen)), m + 1)
      else Endless(Carried(p).(exe := seen), m + 1)
  }

  lemma EncodeLength(p: Packet)
    ensures |Encode(p)| == 20 + 28 * |p.samples| + |p.cmdline| + 1 + |p.exe| + 1
  {
    hide HeaderBytes, EncodeWords, AllWords;
  }

  lemma CmdlineCut(c: seq<byte>, m: nat)
    requires StrLen(c) == |c| && m <= |c|
    ensures StrLen(c[..m]) == m
  {
    StrLenUnique(c[..m], m);
  }

  lemma ExeCut(c: seq<byte>, e: seq<byte>, m: nat)
    requires StrLen(c) == |c| && StrLen(e) == |e| && |c| < m < |c| + 1 + |e| + 1
    ensures var b := (c + [0] + e + [0])[..m];
      StrLen(b) == |c| && b[..|c|] == c && b[|c| + 1..] == e[..m - |c| - 1] && !HasEnd(b[|c| + 1..])
  {
    var b, part := (c + [0] + e + [0])[..m], e[..m - |c| - 1];
    StrLenUnique(b, |c|);
    assert b[|c| + 1..] == part;
    StrLenUnique(part, |part|);
  }

  lemma StringsCut(c: seq<byte>, e: seq<byte>, m: nat, behind: seq<byte>)
    requires StrLen(c) == |c| && StrLen(e) == |e| && m < |c| + 1 + |e| + 1
    ensures InfoAt((c + [0] + e + [0])[..m], behind) ==
      if m <= |c| then
        if HasEnd(Skip(behind)) then
          Strings(CString(c[..m] + behind), CString(Skip(behind)), m + 1 + StrLen(Skip(behind)) + 1)
        else NoMemory
      else if m == |c| + 1 then NoExe
      else if HasEnd(behind) then Strings(c, CString(e[..m - |c| - 1] + behind), m + 1)
      else EndlessExe(c, e[..m - |c| - 1] + behind, m + 1)
  {
    hide StrLen, CString;
    if m <= |c| {
      assert (c + [0] + e + [0])[..m] == c[..m];
      CmdlineCut(c, m);
    } else {
      ExeCut(c, e, m);
    }
  }

  lemma HeaderOfPrefix(b: seq<byte>, m: nat)
    requires 20 <= m <= |b|
    ensures HeaderAt(b[..m]) == HeaderAt(b)
  {
  }

  /** The samples of a packet that is cut behind them. */
  lemma SamplesOfCut(p: Packet, m: nat)
    requires WellFormed(p) && 20 + 28 * p.header.quantity <= m <= |Encode(p)|
    ensures HeaderAt(Encode(p)[..m]) == p.header
    ensures SamplesAt(Encode(p)[..m][20..], p.header.pid, p.header.quantity) == Carried(p).samples
    ensures Encode(p)[..m][20..][28 * p.header.quantity..]
         == (p.cmdline + [0] + p.exe + [0])[..m - 20 - 28 * p.header.quantity]
  {
    hide Encode, HeaderAt, EncodeWords, AllWords, SamplesAt, Carried;
    var full, fixed, info := Encode(p), 28 * p.header.quantity, p.cmdline + [0] + p.exe + [0];
    EncodeParts(p, []);
    assert full + [] == full && info + [] == info;
    HeaderOfPrefix(full, m);
    var part := info[..m - 20 - fixed];
    assert full[..m][20..] == full[20..][..m - 20];
    assert full[..m][20..] == EncodeWords(AllWords(p.samples)) + part;
    SamplesRoundTrip(p, part);
  }

  /** What the parser makes of a cut packet, for every cut and whatever is readable behind it. */
  lemma {:induction false} PacketCut(p: Packet, m: nat, behind: seq<byte>)
    requires WellFormed(p) && m < |Encode(p)|
    ensures ParsePacket(Encode(p)[..m], behind) == CutOutcome(p, m, behind)
  {
    hide Encode, HeaderAt, InfoAt, SamplesAt, StrLen, CString, HasEnd, Skip;
    var fixed := 28 * p.header.quantity;
    EncodeLength(p);
    if 20 + fixed <= m {
      SamplesOfCut(p, m);
      StringsCut(p.cmdline, p.exe, m - 20 - fixed, behind);
    } else if 20 <= m {
      HeaderOfPrefix(Encode(p), m);
      EncodeParts(p, []);
      assert Encode(p) + [] == Encode(p);
    }
  }

  // ------------------------------------------------------------------ streams

  function Prepended(ps: seq<Packet>, r: Stream): Stream {
    Stream(CarriedAll(ps) + r.packets, r.end, |EncodeAll(ps)| + r.taken)
  }

  lemma StreamAfterPacket(p: Packet, more: seq<byte>, behind: seq<byte>)
    requires WellFormed(p)
    ensures var r := ParseStream(more, behind);
      ParseStream(Encode(p) + more, behind) == Stream([Carried(p)] + r.packets, r.end, |Encode(p)| + r.taken)
  {
    hide Encode, ParsePacket, Carried;
    PacketRoundTrip(p, more, behind);
    assert (Encode(p) + more)[|Encode(p)|..] == more;
  }

  /** Complete packets in front of a block are handed on in order, then the rest is read as it stands. */
  lemma {:induction false} StreamAfterPackets(ps: seq<Packet>, rest: seq<byte>, behind: seq<byte>)
    requires AllWellFormed(ps)
    ensures ParseStream(EncodeAll(ps) + rest, behind) == Prepended(ps, ParseStream(rest, behind))
    decreases |ps|
  {
    hide Encode, ParseStream, Carried;
    var r := ParseStream(rest, behind);
    if ps == [] {
      assert EncodeAll(ps) + rest == rest;
      assert CarriedAll(ps) + r.packets == r.packets;
    } else {
      var more := EncodeAll(ps[1..]) + rest;
      EncodeAllCons(ps);
      assert EncodeAll(ps) + rest == Encode(ps[0]) + more;
      StreamAfterPacket(ps[0], more, behind);
      StreamAfterPackets(ps[1..], rest, behind);
      assert [Carried(ps[0])] + (CarriedAll(ps[1..]) + r.packets) == CarriedAll(ps) + r.packets;
    }
  }

  /** Framing round trip: a concatenation of packets is read back as exactly those packets. */
  lemma {:induction false} StreamRoundTrip(ps: seq<Packet>, behind: seq<byte>)
    requires AllWellFormed(ps)
    ensures ParseStream(EncodeAll(ps), behind) == Stream(CarriedAll(ps), AtEnd, |EncodeAll(ps)|)
  {
    hide Encode, EncodeAll, Carried;
    StreamAfterPackets(ps, [], behind);
    assert EncodeAll(ps) + [] == EncodeAll(ps);
    assert CarriedAll(ps) + [] == CarriedAll(ps);
  }

  /** How a stream ends that is cut after `m` bytes of the packet `p`. */
  function CutStream(p: Packet, m: nat, behind: seq<byte>): Stream
    requires 0 < m < |Encode(p)| && |p.samples| == p.header.quantity
  {
    match CutOutcome(p, m, behind)
    case Short => Stream([], Incomplete, 0)
    case Fault => Stream([], Unreadable, 0)
    case Endless(q, n) => Stream([], OpenString(q.header.core), n)
    case Complete(q, n) => Stream([q], AtEnd, n)
  }

  /** A stream cut inside a packet hands on the packets before the cut; what becomes of the cut packet depends on where
      the cut is and on what is readable behind it. */
  lemma {:induction false} TruncatedStream(ps: seq<Packet>, p: Packet, m: nat, behind: seq<byte>)
    requires AllWellFormed(ps) && WellFormed(p) && 0 < m < |Encode(p)|
    ensures ParseStream(EncodeAll(ps) + Encode(p)[..m], behind) == Prepended(ps, CutStream(p, m, behind))
  {
    hide Encode, EncodeAll, Carried, ParsePacket, Prepended, CutOutcome;
    StreamAfterPackets(ps, Encode(p)[..m], behind);
    PacketCut(p, m, behind);
    CutIsRead(p, m, behind);
  }

  /** A cut packet that is handed on counts as longer than what is left of it. */
  lemma CutIsRead(p: Packet, m: nat, behind: seq<byte>)
    requires m < |Encode(p)| && |p.samples| == p.header.quantity
    ensures CutOutcome(p, m, behind).Complete? ==> CutOutcome(p, m, behind).read > m
    ensures match CutOutcome(p, m, behind)
      case Complete(q, _) => q.header == p.header && q.samples == Carried(p).samples
      case Endless(q, _) => q.header == p.header && q.samples == Carried(p).samples
      case _ => true
  {
    hide Encode, StrLen, CString;
  }

  /** The cut falls inside the header, inside the samples, or right after the command line's NUL. */
  predicate CleanCut(p: Packet, m: nat) {
    var fixed := 20 + 28 * p.header.quantity;
    m < fixed || m == fixed + |p.cmdline| + 1
  }

  /** Reading the stream cut after `m` bytes of `p` gives exactly the packets before, and the reader notices
      that more is needed. */
  ghost predicate StopsAtCut(ps: seq<Packet>, p: Packet, m: nat, behind: seq<byte>)
    requires m < |Encode(p)|
  {
    ParseStream(EncodeAll(ps) + Encode(p)[..m], behind) == Stream(CarriedAll(ps), Incomplete, |EncodeAll(ps)|)
  }

  /** Truncated streams: the reader delivers exactly the complete packets and stops, whatever is behind the stream,
      if and only if the cut is clean. */
  lemma {:induction false} CleanCutExactly(ps: seq<Packet>, p: Packet, m: nat)
    requires AllWellFormed(ps) && WellFormed(p) && 0 < m < |Encode(p)|
    ensures CleanCut(p, m) <==> forall behind: seq<byte> :: StopsAtCut(ps, p, m, behind)
  {
    hide Encode, EncodeAll, Carried, ParseStream, CarriedAll, StrLen, CString;
    EncodeLength(p);
    assert CarriedAll(ps) + [] == CarriedAll(ps);
    forall behind: seq<byte>
      ensures CleanCut(p, m) ==> StopsAtCut(ps, p, m, behind)
    {
      TruncatedStream(ps, p, m, behind);
    }
    if !CleanCut(p, m) {
      TruncatedStream(ps, p, m, []);
      assert !StopsAtCut(ps, p, m, []);
    }
  }

  /** What is handed on of a packet cut after `m` bytes: its samples or nothing. */
  function HandedOn(p: Packet, m: nat, behind: seq<byte>): seq<Packet>
    requires m < |Encode(p)| && |p.samples| == p.header.quantity
  {
    match CutOutcome(p, m, behind)
    case Complete(q, _) => [q]
    case _ => []
  }

  /** Of the stream of `ps` cut after `n` bytes, packet `k` is the one the cut falls into, or the end of the stream.
      Reading it hands on exactly the packets before, and then the cut packet when its samples are complete and both
      its strings happen to end in readable memory. */
  ghost predicate CutAt(ps: seq<Packet>, n: nat, behind: seq<byte>, k: nat)
    requires AllWellFormed(ps) && n <= |EncodeAll(ps)|
  {
    && k <= |ps| && |EncodeAll(ps[..k])| <= n && (k == |ps| <==> n == |EncodeAll(ps)|)
    && (k < |ps| ==> n - |EncodeAll(ps[..k])| < |Encode(ps[k])|)
    && var r := ParseStream(EncodeAll(ps)[..n], behind);
       if k == |ps| then r == Stream(CarriedAll(ps), AtEnd, n)
       else
         && r.packets == CarriedAll(ps[..k]) + HandedOn(ps[k], n - |EncodeAll(ps[..k])|, behind)
         && (r.end.OpenString? ==> r.end.core == ps[k].header.core)
  }

  /** However a stream is cut, exactly the packets completely before the cut are handed on, and after them at most the
      cut packet. */
  lemma {:induction false} AnyCut(ps: seq<Packet>, n: nat, behind: seq<byte>) returns (k: nat)
    requires AllWellFormed(ps) && n <= |EncodeAll(ps)|
    ensures CutAt(ps, n, behind, k)
  {
    hide Encode, EncodeAll, CutAt;
    if n == |EncodeAll(ps)| {
      k := |ps|;
      NotCut(ps, behind);
    } else {
      var last := |ps| - 1;
      NotEmpty(ps, n);
      EncodeAllLast(ps);
      if n < |EncodeAll(ps[..last])| {
        k := AnyCut(ps[..last], n, behind);
        CutEarlier(ps, n, behind, k);
      } else {
        k := last;
        CutInLast(ps, n, behind);
      }
    }
  }

  lemma NotEmpty(ps: seq<Packet>, n: nat)
    requires n < |EncodeAll(ps)|
    ensures ps != []
  {
    hide Encode;
  }

  lemma NotCut(ps: seq<Packet>, behind: seq<byte>)
    requires AllWellFormed(ps)
    ensures CutAt(ps, |EncodeAll(ps)|, behind, |ps|)
  {
    hide Encode, EncodeAll, ParseStream, HandedOn;
    assert ps[..|ps|] == ps && EncodeAll(ps)[..|EncodeAll(ps)|] == EncodeAll(ps);
    StreamRoundTrip(ps, behind);
  }

  lemma CutEarlier(ps: seq<Packet>, n: nat, behind: seq<byte>, k: nat)
    requires AllWellFormed(ps) && ps != [] && n < |EncodeAll(ps[..|ps| - 1])| <= |EncodeAll(ps)|
    requires CutAt(ps[..|ps| - 1], n, behind, k)
    ensures CutAt(ps, n, behind, k)
  {
    hide Encode, EncodeAll, ParseStream, HandedOn, CarriedAll;
    var front := ps[..|ps| - 1];
    EncodeAllLast(ps);
    assert EncodeAll(ps)[..n] == EncodeAll(front)[..n];
    assert k < |front| ==> front[..k] == ps[..k] && front[k] == ps[k];
  }

  lemma CutInLast(ps: seq<Packet>, n: nat, behind: seq<byte>)
    requires AllWellFormed(ps) && ps != [] && |EncodeAll(ps[..|ps| - 1])| <= n < |EncodeAll(ps)|
    ensures CutAt(ps, n, behind, |ps| - 1)
  {
    hide Encode, EncodeAll, ParseStream, HandedOn, CarriedAll;
    var last := |ps| - 1;
    var front := EncodeAll(ps[..last]);
    EncodeAllLast(ps);
    assert EncodeAll(ps)[..n] == front + Encode(ps[last])[..n - |front|];
    CutInside(ps[..last], ps[last], n - |front|, behind);
  }

  lemma CutInside(ps: seq<Packet>, p: Packet, m: nat, behind: seq<byte>)
    requires AllWellFormed(ps) && WellFormed(p) && m < |Encode(p)|
    ensures var r := ParseStream(EncodeAll(ps) + Encode(p)[..m], behind);
      && r.packets == CarriedAll(ps) + HandedOn(p, m, behind)
      && (r.end.OpenString? ==> r.end.core == p.header.core)
  {
    hide Encode, EncodeAll, Carried, ParseStream, CarriedAll;
    if m == 0 {
      StreamRoundTrip(ps, behind);
      assert EncodeAll(ps) + Encode(p)[..0] == EncodeAll(ps);
      assert CarriedAll(ps) + [] == CarriedAll(ps);
    } else {
      TruncatedStream(ps, p, m, behind);
      CutIsRead(p, m, behind);
    }
  }
}
