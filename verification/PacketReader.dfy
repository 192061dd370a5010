/** The reading half of sender/packet.cpp: advancing pointers over a block of bytes, refilling a sample array. */
module PacketReader {
  import opened Bytes
  import opened SampleBuffer
  import opened Options
  import opened Wire

  /** `Success` and `NeedMore` are the return values 0 and 1. `Faulted` stands for runs that read memory
      which is not readable. */
  datatype ReturnCode = Success | NeedMore | Faulted

  const SIZE_MAX: u64 := 0xFFFF_FFFF_FFFF_FFFF

  /** `--n` on a `size_t`: zero wraps around. */
  function Decrement(n: u64): u64 {
    if n == 0 then SIZE_MAX else n - 1
  }

  method ReadHeader(file: seq<byte>, base: nat) returns (hdr: Header)
    requires base + 20 <= |file|
    ensures hdr == HeaderAt(file[base..])
  {
    var kernel, counters, core, quantity := file[base], file[base + 1], file[base + 2], file[base + 3];
    var ints := base + 4;
    hdr := Header(kernel, counters, core, quantity,
                  WordAt(file, ints), WordAt(file, ints + 4), WordAt(file, ints + 8), WordAt(file, ints + 12));
  }

  method ReadSamples(file: seq<byte>, base: nat, buf: array<Sample>, hdr: Header)
    requires base + 28 * hdr.quantity <= |file|
    requires hdr.quantity <= buf.Length
    modifies buf
    ensures buf[..hdr.quantity] == SamplesAt(file[base..], hdr.pid, hdr.quantity)
    ensures buf[hdr.quantity..] == old(buf[hdr.quantity..])
  {
    hide WordAt;
    var ints := base;
    for s := 0 to hdr.quantity
      invariant ints == base + 28 * s
      invariant forall i :: 0 <= i < s ==> buf[i] == SampleAt(file[base..], hdr.pid, i)
      invariant buf[s..] == old(buf[s..])
    {
      var counters := buf[s].counters;
      for c := 0 to NUM_COUNTERS
        invariant forall k :: 0 <= k < c ==> counters[k] == WordAt(file, ints + 4 * k + 4)
      {
        counters := counters[c := WordAt(file, ints + 4 * (c + 1))];
      }
      buf[s] := Sample(WordAt(file, ints), hdr.pid, counters);
      SampleInPlace(file, base, s, hdr.pid);
      assert counters == SampleAtOffset(file, ints, hdr.pid).counters;
      ints := ints + 28;
    }
  }

  ghost function SampleAtOffset(file: seq<byte>, o: nat, pid: u32): Sample
    requires o + 28 <= |file|
  {
    Sample(WordAt(file, o), pid,
           [WordAt(file, o + 4), WordAt(file, o + 8), WordAt(file, o + 12),
            WordAt(file, o + 16), WordAt(file, o + 20), WordAt(file, o + 24)])
  }

  lemma WordInPlace(file: seq<byte>, base: nat, k: nat)
    requires base + k + 4 <= |file|
    ensures WordAt(file[base..], k) == WordAt(file, base + k)
  {
  }

  lemma SampleInPlace(file: seq<byte>, base: nat, i: nat, pid: u32)
    requires base + 28 * (i + 1) <= |file|
    ensures SampleAt(file[base..], pid, i) == SampleAtOffset(file, base + 28 * i, pid)
  {
    hide WordAt;
    forall k | 0 <= k < 7
      ensures WordAt(file[base..], 28 * i + 4 * k) == WordAt(file, base + 28 * i + 4 * k)
    {
      WordInPlace(file, base, 28 * i + 4 * k);
    }
    assert WordAt(file[base..], 28 * i + 4 * 0) == WordAt(file, base + 28 * i + 4 * 0);
    assert WordAt(file[base..], 28 * i + 4 * 1) == WordAt(file, base + 28 * i + 4 * 1);
    assert WordAt(file[base..], 28 * i + 4 * 2) == WordAt(file, base + 28 * i + 4 * 2);
    assert WordAt(file[base..], 28 * i + 4 * 3) == WordAt(file, base + 28 * i + 4 * 3);
    assert WordAt(file[base..], 28 * i + 4 * 4) == WordAt(file, base + 28 * i + 4 * 4);
    assert WordAt(file[base..], 28 * i + 4 * 5) == WordAt(file, base + 28 * i + 4 * 5);
    assert WordAt(file[base..], 28 * i + 4 * 6) == WordAt(file, base + 28 * i + 4 * 6);
  }

  /** What a scan of at most `n` bytes of `s` does: how far it goes and what is left of `n`; `None` when it runs out of
      readable memory before that. */
  function Scan(s: seq<byte>, n: u64): Option<(nat, u64)> {
    if n <= StrLen(s) then Some((n, 0)) else if HasEnd(s) then Some((StrLen(s), n - StrLen(s))) else None
  }

  /** A scan for a NUL, as both loops of `read_info` do it. */
  method SkipString(memory: seq<byte>, start: nat, bytes: u64) returns (faulted: bool, ptr: nat, n: u64)
    requires start <= |memory|
    ensures match Scan(memory[start..], bytes)
      case None => faulted
      case Some(found) => !faulted && ptr == start + found.0 && n == found.1
  {
    faulted, ptr, n := false, start, bytes;
    while n != 0
      invariant start <= ptr <= |memory| && ptr - start + n == bytes
      invariant forall i :: start <= i < ptr ==> memory[i] != 0
    {
      if |memory| <= ptr {
        StrLenUnique(memory[start..], ptr - start);
        return true, ptr, n;
      }
      if memory[ptr] == 0 {
        break;
      }
      ptr, n := ptr + 1, n - 1;
    }
    NotBefore(memory[start..], ptr - start);
    if n != 0 {
      StrLenUnique(memory[start..], ptr - start);
    }
  }

  lemma NotBefore(s: seq<byte>, n: nat)
    requires n <= |s| && forall i :: 0 <= i < n ==> s[i] != 0
    ensures n <= StrLen(s)
  {
  }

  /** `read_info` on the `bytes` bytes from `start` to the end of the block; `cmdline` and `exe` are the positions where
      the strings start. When the command line has no NUL, `--n` wraps and the search for the executable goes on
      behind the block. When the executable has none, one byte too many is counted. */
  method ReadInfo(file: seq<byte>, behind: seq<byte>, start: nat, bytes: u64, before: nat)
    returns (rc: ReturnCode, cmdline: nat, exe: nat, read: nat)
    requires start + bytes == |file| && |file| + |behind| <= SIZE_MAX
    ensures cmdline == start
    ensures match InfoAt(file[start..], behind)
      case NoMemory => rc == Faulted
      case NoExe => rc == NeedMore && read == before + bytes - 1
      case EndlessExe(c, e, k) =>
        && rc == Success && read == before + k
        && CString((file + behind)[cmdline..]) == c
        && exe <= |file + behind| && (file + behind)[exe..] == e && !HasEnd(e)
      case Strings(c, e, k) =>
        && rc == Success && read == before + k
        && CString((file + behind)[cmdline..]) == c
        && exe <= |file + behind| && CString((file + behind)[exe..]) == e && HasEnd((file + behind)[exe..])
  {
    hide StrLen, Scan, InfoAt, Skip, HasEnd, CString;
    var memory := file + behind;
    ghost var b := file[start..];
    assert memory[start..] == b + behind;
    FirstScan(b, behind);
    cmdline, exe, read := start, start, before;
    var faulted, ptr, n := SkipString(memory, start, bytes);
    read := read + (ptr - start);
    n := Decrement(n);
    if n == 0 {
      return NeedMore, cmdline, exe, read;
    }
    ptr, read := ptr + 1, read + 1;
    exe := ptr;
    if |memory| < ptr {
      return Faulted, cmdline, exe, read;
    }
    assert memory[exe..] == (b + behind)[StrLen(b) + 1..];
    SecondScan(b, behind);
    faulted, ptr, n := SkipString(memory, exe, n);
    if faulted {
      return Faulted, cmdline, exe, read;
    }
    read := read + (ptr - exe);
    n := Decrement(n);
    ptr, read := ptr + 1, read + 1;
    rc := Success;
  }

  lemma StrLenAppend(a: seq<byte>, b: seq<byte>)
    ensures StrLen(a + b) == if HasEnd(a) then StrLen(a) else |a| + StrLen(b)
  {
    StrLenUnique(a + b, if HasEnd(a) then StrLen(a) else |a| + StrLen(b));
  }

  /** The first scan stays in the block. It leaves one byte when the NUL is the last one, and none when there is no NUL,
      and then the executable starts one byte behind the block. */
  lemma FirstScan(b: seq<byte>, behind: seq<byte>)
    requires |b| + |behind| <= SIZE_MAX
    ensures Scan(b + behind, |b|) == Some((StrLen(b), |b| - StrLen(b)))
    ensures |b| - StrLen(b) == 1 <==> InfoAt(b, behind) == NoExe
    ensures StrLen(b) + 1 > |b + behind| ==> InfoAt(b, behind) == NoMemory
    ensures match InfoAt(b, behind)
      case Strings(c, _, _) => CString(b + behind) == c
      case EndlessExe(c, _, _) => CString(b + behind) == c
      case _ => true
  {
    hide StrLen, CString;
    StrLenAppend(b, behind);
    if HasEnd(b) {
      CStringOfFirst(b, behind);
      CStringIs(b);
    }
  }

  lemma CStringIs(s: seq<byte>)
    ensures CString(s) == s[..StrLen(s)]
  {
    hide StrLen;
  }

  /** What the second scan finds, with the counter as the first one and its decrement left it. */
  lemma SecondScan(b: seq<byte>, behind: seq<byte>)
    requires |b| + |behind| <= SIZE_MAX && StrLen(b) + 1 <= |b + behind| && |b| - StrLen(b) != 1
    ensures var s := (b + behind)[StrLen(b) + 1..];
      Found(Scan(s, Decrement(|b| - StrLen(b))), s, StrLen(b) + 1, InfoAt(b, behind))
  {
    hide StrLen, CString, Scan, Found, InfoAt;
    var s := (b + behind)[StrLen(b) + 1..];
    if HasEnd(b) {
      assert s == b[StrLen(b) + 1..] + behind;
      ScanInBlock(b, behind, b[StrLen(b) + 1..]);
    } else {
      assert s == Skip(behind);
      ScanBehind(b, behind);
    }
  }

  lemma ScanInBlock(b: seq<byte>, behind: seq<byte>, rest: seq<byte>)
    requires HasEnd(b) && rest == b[StrLen(b) + 1..] && rest != [] && |b| <= SIZE_MAX
    ensures Found(Scan(rest + behind, |rest|), rest + behind, StrLen(b) + 1, InfoAt(b, behind))
  {
    hide StrLen, CString;
    StrLenAppend(rest, behind);
    if HasEnd(rest) {
      CStringOfFirst(rest, behind);
    }
  }

  lemma ScanBehind(b: seq<byte>, behind: seq<byte>)
    requires !HasEnd(b) && |b| + |behind| <= SIZE_MAX
    ensures Found(Scan(Skip(behind), SIZE_MAX), Skip(behind), |b| + 1, InfoAt(b, behind))
  {
    hide StrLen, CString;
  }

  /** The second scan, which starts `at` bytes into the block, and the string it finds are as the parser has them. */
  ghost predicate Found(scan: Option<(nat, u64)>, s: seq<byte>, at: nat, info: Info) {
    match info
    case NoExe => true
    case NoMemory => scan == None
    case EndlessExe(_, e, k) => s == e && !HasEnd(e) && scan.Some? && at + scan.value.0 + 1 == k
    case Strings(_, e, k) => CString(s) == e && HasEnd(s) && scan.Some? && at + scan.value.0 + 1 == k
  }

  lemma CStringOfFirst(a: seq<byte>, b: seq<byte>)
    requires HasEnd(a)
    ensures CString(a + b) == CString(a)
  {
    StrLenAppend(a, b);
  }

  /** `packet_read` on the block that starts at `position`; `behind` is what can be read behind the file. */
  method PacketRead(file: seq<byte>, behind: seq<byte>, position: nat, buf: array<Sample>)
    returns (rc: ReturnCode, hdr: Header, cmdline: nat, exe: nat, read: nat)
    requires position <= |file| && |file| + |behind| <= SIZE_MAX
    requires buf.Length == 256
    modifies buf
    ensures match ParsePacket(file[position..], behind)
      case Short => rc == NeedMore
      case Fault => rc == Faulted
      case Endless(p, k) =>
        && rc == Success && read == k
        && hdr == p.header && buf[..hdr.quantity] == p.samples
        && cmdline <= |file| && CString((file + behind)[cmdline..]) == p.cmdline
        && exe <= |file + behind| && (file + behind)[exe..] == p.exe && !HasEnd(p.exe)
      case Complete(p, k) =>
        && rc == Success && read == k
        && hdr == p.header && buf[..hdr.quantity] == p.samples
        && cmdline <= |file| && CString((file + behind)[cmdline..]) == p.cmdline
        && exe <= |file + behind| && CString((file + behind)[exe..]) == p.exe && HasEnd((file + behind)[exe..])
  {
    hide HeaderAt, SamplesAt, InfoAt, StrLen, CString, HasEnd;
    var n := |file| - position;
    var base := position;
    rc, cmdline, exe, read, hdr := NeedMore, 0, 0, 0, ZERO_HEADER;
    var amt := 20;
    if n < amt {
      return;
    }
    hdr := ReadHeader(file, base);
    n, read, base := n - amt, read + amt, base + amt;
    amt := 28 * hdr.quantity;
    if n < amt {
      return;
    }
    assert file[position..][20..] == file[base..];
    ReadSamples(file, base, buf, hdr);
    n, read, base := n - amt, read + amt, base + amt;
    assert file[position..][20..][amt..] == file[base..];
    rc, cmdline, exe, read := ReadInfo(file, behind, base, n, read);
  }
}
