/** UTF-8 (RFC 3629), the encoding `Buffer.from(string)` and
    `encodeURIComponent` apply to text, and Latin-1, the one `btoa` applies. */
module Utf8 {
  import opened Text

  type Byte = x: int | 0 <= x < 256

  /** The UTF-8 bytes of one Unicode scalar value. */
  function EncodeChar(c: char): (bs: seq<Byte>)
    ensures 1 <= |bs| <= 4
    ensures |bs| == 1 <==> c as int < 0x80
    ensures |bs| == 1 ==> bs[0] == c as int
  {
    var n := c as int;
    if n < 0x80 then [n]
    else if n < 0x800 then [0xC0 + n / 64, 0x80 + n % 64]
    else if n < 0x10000 then [0xE0 + n / 4096, 0x80 + (n / 64) % 64, 0x80 + n % 64]
    else [0xF0 + n / 262144, 0x80 + (n / 4096) % 64, 0x80 + (n / 64) % 64, 0x80 + n % 64]
  }

  /** The UTF-8 bytes of a string, character by character. */
  function Encode(s: string): (bs: seq<Byte>)
    ensures |bs| >= |s|
  {
    if s == [] then [] else EncodeChar(s[0]) + Encode(s[1..])
  }

  lemma {:induction false} EncodeAppend(a: string, b: string)
    ensures Encode(a + b) == Encode(a) + Encode(b)
  {
    if a != [] {
      assert (a + b)[1..] == a[1..] + b;
      EncodeAppend(a[1..], b);
    } else {
      assert a + b == b;
    }
  }

  /** The length of a character's encoding is told by its first byte. */
  function SequenceLength(lead: Byte): nat
  {
    if lead < 0x80 then 1 else if lead < 0xE0 then 2 else if lead < 0xF0 then 3 else 4
  }

  lemma LeadByte(c: char)
    ensures SequenceLength(EncodeChar(c)[0]) == |EncodeChar(c)|
    ensures forall i :: 1 <= i < |EncodeChar(c)| ==> 0x80 <= EncodeChar(c)[i] < 0xC0
  {
  }

  /** The code point a well-formed sequence of one to four bytes denotes. */
  function DecodeChar(bs: seq<Byte>): int
    requires 1 <= |bs| <= 4
  {
    var b: seq<int> := bs;
    if |b| == 1 then b[0]
    else if |b| == 2 then (b[0] - 0xC0) * 64 + (b[1] - 0x80)
    else if |b| == 3 then ((b[0] - 0xE0) * 64 + (b[1] - 0x80)) * 64 + (b[2] - 0x80)
    else (((b[0] - 0xF0) * 64 + (b[1] - 0x80)) * 64 + (b[2] - 0x80)) * 64 + (b[3] - 0x80)
  }

  lemma SplitBy64(n: int)
    requires n >= 0
    ensures n == (n / 64) * 64 + n % 64
  {
  }

  /** Decoding the bytes of a character gives back its code point. */
  lemma DecodeEncodeChar(c: char)
    ensures DecodeChar(EncodeChar(c)) == c as int
  {
    var n := c as int;
    if n < 0x80 {
    } else if n < 0x800 {
      SplitBy64(n);
    } else if n < 0x10000 {
      SplitBy64(n);
      SplitBy64(n / 64);
      assert n / 64 / 64 == n / 4096;
    } else {
      SplitBy64(n);
      SplitBy64(n / 64);
      SplitBy64(n / 4096);
      assert n / 64 / 64 == n / 4096;
      assert n / 4096 / 64 == n / 262144;
    }
  }

  /** One character is recovered from its bytes. */
  lemma EncodeCharInjective(c: char, d: char)
    requires EncodeChar(c) == EncodeChar(d)
    ensures c == d
  {
    DecodeEncodeChar(c);
    DecodeEncodeChar(d);
  }

  /** UTF-8 is a prefix code: equal encodings come from equal strings. */
  lemma {:induction false} EncodeInjective(s: string, t: string)
    requires Encode(s) == Encode(t)
    ensures s == t
  {
    if s != [] && t != [] {
      var a, b := EncodeChar(s[0]), EncodeChar(t[0]);
      LeadByte(s[0]);
      LeadByte(t[0]);
      assert Encode(s) == a + Encode(s[1..]);
      assert Encode(t) == b + Encode(t[1..]);
      assert a[0] == Encode(s)[0] == b[0];
      assert |a| == |b|;
      assert a == Encode(s)[..|a|] == b;
      EncodeCharInjective(s[0], t[0]);
      assert Encode(s[1..]) == Encode(s)[|a|..] == Encode(t[1..]);
      EncodeInjective(s[1..], t[1..]);
      assert s == [s[0]] + s[1..];
      assert t == [t[0]] + t[1..];
    }
  }

  predicate IsAscii(s: string) { forall i :: 0 <= i < |s| ==> s[i] as int < 0x80 }

  /** `btoa`'s view of a string: one byte per character, and an error
      (InvalidCharacterError, written `None`) for a character beyond U+00FF. */
  function Latin1(s: string): (r: Option<seq<Byte>>)
    ensures r.Some? <==> forall i :: 0 <= i < |s| ==> s[i] as int < 0x100
    ensures r.Some? ==> |r.value| == |s| && forall i :: 0 <= i < |s| ==> r.value[i] == s[i] as int
  {
    if s == [] then Some([])
    else if s[0] as int >= 0x100 then None
    else
      match Latin1(s[1..])
      case None => None
      case Some(rest) => Some([s[0] as int] + rest)
  }

  /** On ASCII text the browser's `btoa` input and the server's
      `Buffer.from` agree byte for byte. */
  lemma {:induction false} AsciiLatin1IsUtf8(s: string)
    requires IsAscii(s)
    ensures Latin1(s) == Some(Encode(s))
  {
    if s != [] {
      AsciiLatin1IsUtf8(s[1..]);
    }
  }
}
