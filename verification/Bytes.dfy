/** Fixed-width integers, network byte order and NUL-terminated strings. */
module Bytes {

  type byte = x: int | 0 <= x < 0x100
  type u32 = x: int | 0 <= x < 0x1_0000_0000
  type u64 = x: int | 0 <= x < 0x1_0000_0000_0000_0000

  /** Truncation of an integer to 32 bits. */
  function Low32(x: nat): u32 {
    x % 0x1_0000_0000
  }

  /** Whatever lies above the lowest 32 bits is dropped, and nothing else. */
  lemma {:induction false} LowBits(high: nat, low: u32)
    ensures Low32(high * 0x1_0000_0000 + low) == low
  {
    Remainder(high, low);
  }

  lemma Remainder(high: nat, low: u32)
    ensures (high * 0x1_0000_0000 + low) % 0x1_0000_0000 == low
  {
  }

  /** `htonl` followed by a native 32-bit store: most significant byte first. */
  function BigEndian(v: u32): (b: seq<byte>)
    ensures |b| == 4
  {
    [v / 0x100_0000, v / 0x1_0000 % 0x100, v / 0x100 % 0x100, v % 0x100]
  }

  /** A native 32-bit load followed by `ntohl`. */
  function WordAt(b: seq<byte>, k: nat): u32
    requires k + 4 <= |b|
  {
    b[k] as int * 0x100_0000 + b[k + 1] as int * 0x1_0000 + b[k + 2] as int * 0x100 + b[k + 3]
  }

  /** One byte at a time: dividing by 0x100 three times gives the four digits of a word. */
  lemma Digits(v: u32)
    ensures v / 0x100_0000 * 0x100_0000 + v / 0x1_0000 % 0x100 * 0x1_0000 + v / 0x100 % 0x100 * 0x100 + v % 0x100 == v
  {
    var a := v / 0x100;
    var b := a / 0x100;
    assert a == v / 0x100 && b == v / 0x1_0000 && b / 0x100 == v / 0x100_0000;
    assert v == a * 0x100 + v % 0x100;
    assert a == b * 0x100 + a % 0x100;
    assert b == b / 0x100 * 0x100 + b % 0x100;
  }

  /** Four bytes are read as the digits of a number, the most significant one first. */
  lemma {:induction false} WordOfDigits(front: seq<byte>, a: byte, b: byte, c: byte, d: byte, rest: seq<byte>)
    ensures WordAt(front + [a, b, c, d] + rest, |front|) == ((a * 0x100 + b) * 0x100 + c) * 0x100 + d
  {
    var all := front + [a, b, c, d] + rest;
    assert all[|front|] == a && all[|front| + 1] == b && all[|front| + 2] == c && all[|front| + 3] == d;
  }

  /** A word is written as its digits, the most significant one first. */
  lemma {:induction false} DigitsOfWord(a: byte, b: byte, c: byte, d: byte)
    ensures BigEndian(((a * 0x100 + b) * 0x100 + c) * 0x100 + d) == [a, b, c, d]
  {
    var v := ((a * 0x100 + b) * 0x100 + c) * 0x100 + d;
    assert v / 0x100 == (a * 0x100 + b) * 0x100 + c;
    assert v / 0x1_0000 == v / 0x100 / 0x100 == a * 0x100 + b;
    assert v / 0x100_0000 == v / 0x100 / 0x100 / 0x100 == a;
  }

  lemma BigEndianRoundTrip(v: u32, left: seq<byte>, right: seq<byte>)
    ensures WordAt(left + BigEndian(v) + right, |left|) == v
  {
    var b, w := left + BigEndian(v) + right, BigEndian(v);
    assert forall i :: 0 <= i < 4 ==> b[|left| + i] == w[i];
    Digits(v);
  }

  /** Consecutive words in network byte order. */
  function EncodeWords(ws: seq<u32>): (b: seq<byte>)
    ensures |b| == 4 * |ws|
  {
    if ws == [] then [] else EncodeWords(ws[..|ws| - 1]) + BigEndian(ws[|ws| - 1])
  }

  lemma {:induction false} EncodedWordAt(ws: seq<u32>, rest: seq<byte>, i: nat)
    requires i < |ws|
    ensures WordAt(EncodeWords(ws) + rest, 4 * i) == ws[i]
  {
    var last := |ws| - 1;
    if i == last {
      assert EncodeWords(ws) + rest == EncodeWords(ws[..last]) + BigEndian(ws[last]) + rest;
      BigEndianRoundTrip(ws[last], EncodeWords(ws[..last]), rest);
    } else {
      EncodedWordAt(ws[..last], BigEndian(ws[last]) + rest, i);
      assert EncodeWords(ws) + rest == EncodeWords(ws[..last]) + (BigEndian(ws[last]) + rest);
    }
  }

  lemma EncodeWordsSnoc(ws: seq<u32>, k: nat)
    requires k < |ws|
    ensures EncodeWords(ws[..k + 1]) == EncodeWords(ws[..k]) + BigEndian(ws[k])
  {
    assert ws[..k + 1][..k] == ws[..k];
  }

  /** `strlen`: the number of bytes before the first NUL, or all of them when there is none. */
  function StrLen(s: seq<byte>): (n: nat)
    ensures n <= |s|
    ensures forall i :: 0 <= i < n ==> s[i] != 0
    ensures n < |s| ==> s[n] == 0
  {
    if s == [] || s[0] == 0 then 0 else 1 + StrLen(s[1..])
  }

  /** What a reader of `s.c_str()` sees: everything before the first NUL. */
  function CString(s: seq<byte>): seq<byte> {
    s[..StrLen(s)]
  }

  /** As a C string it is empty. */
  predicate Blank(s: seq<byte>) {
    s == [] || s[0] == 0
  }

  lemma BlankIs(s: seq<byte>)
    ensures CString(s) == [] <==> Blank(s)
  {
  }

  lemma StrLenUnique(s: seq<byte>, n: nat)
    requires n <= |s|
    requires forall i :: 0 <= i < n ==> s[i] != 0
    requires n < |s| ==> s[n] == 0
    ensures StrLen(s) == n
  {
  }

  /** `after` is `before` with `data` stored at `pos`. */
  ghost predicate Wrote(before: seq<byte>, after: seq<byte>, pos: nat, data: seq<byte>) {
    && pos + |data| <= |before|
    && after == before[..pos] + data + before[pos + |data|..]
  }

  lemma WroteThen(a: seq<byte>, b: seq<byte>, c: seq<byte>, pos: nat, d: seq<byte>, e: seq<byte>)
    requires Wrote(a, b, pos, d) && Wrote(b, c, pos + |d|, e)
    ensures Wrote(a, c, pos, d + e)
  {
    assert b[..pos + |d|] == a[..pos] + d;
    assert b[pos + |d| + |e|..] == a[pos + |d + e|..];
    assert c == a[..pos] + (d + e) + a[pos + |d + e|..];
  }
}
