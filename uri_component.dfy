/** `encodeURIComponent`: percent-encoding (section 2.1 of RFC 3986) of the
    UTF-8 bytes of every character outside the unreserved set of
    ECMAScript's `encodeURIComponent` (ASCII letters, digits and
    `- _ . ! ~ * ' ( )`), with upper-case hexadecimal digits. */
module UriComponent {
  import opened Text
  import Utf8

  predicate IsUnreserved(c: char)
  {
    'A' <= c <= 'Z' || 'a' <= c <= 'z' || '0' <= c <= '9' ||
    c == '-' || c == '_' || c == '.' || c == '!' || c == '~' || c == '*' ||
    c == '\'' || c == '(' || c == ')'
  }

  function HexDigit(d: nat): (c: char)
    requires d < 16
  {
    if d < 10 then ('0' as int + d) as char else ('A' as int + d - 10) as char
  }

  /** The inverse of `HexDigit`; both cases are read, as a decoder must. */
  function HexValue(c: char): (r: Option<nat>)
    ensures r.Some? ==> r.value < 16
  {
    if '0' <= c <= '9' then Some(c as int - '0' as int)
    else if 'A' <= c <= 'F' then Some(c as int - 'A' as int + 10)
    else if 'a' <= c <= 'f' then Some(c as int - 'a' as int + 10)
    else None
  }

  lemma HexValueOfDigit(d: nat)
    requires d < 16
    ensures HexValue(HexDigit(d)) == Some(d)
  {
  }

  /** `%HH` for each byte. */
  function PercentBytes(bs: seq<Utf8.Byte>): (s: string)
    ensures |s| == 3 * |bs|
  {
    if bs == [] then ""
    else
      var b: int := bs[0];
      ['%', HexDigit(b / 16), HexDigit(b % 16)] + PercentBytes(bs[1..])
  }

  function EncodeChar(c: char): string
  {
    if IsUnreserved(c) then [c] else PercentBytes(Utf8.EncodeChar(c))
  }

  /** `encodeURIComponent(s)`. */
  function Encode(s: string): (r: string)
    ensures forall i :: 0 <= i < |r| ==> IsUnreserved(r[i]) || r[i] == '%' || HexValue(r[i]).Some?
  {
    if s == [] then ""
    else
      var head := EncodeChar(s[0]);
      PercentBytesAlphabet(Utf8.EncodeChar(s[0]));
      head + Encode(s[1..])
  }

  lemma {:induction false} PercentBytesAlphabet(bs: seq<Utf8.Byte>)
    ensures forall i :: 0 <= i < |PercentBytes(bs)| ==> PercentBytes(bs)[i] == '%' || HexValue(PercentBytes(bs)[i]).Some?
  {
    if bs != [] {
      var b: int := bs[0];
      HexValueOfDigit(b / 16);
      HexValueOfDigit(b % 16);
      PercentBytesAlphabet(bs[1..]);
    }
  }

  /** Percent-decoding to bytes: `%HH` is one byte, any other ASCII character
      stands for itself; `None` for a broken escape or a non-ASCII character. */
  function Decode(s: string): Option<seq<Utf8.Byte>>
    decreases |s|
  {
    if s == [] then Some([])
    else if s[0] == '%' then
      if |s| < 3 then None
      else
        var hi, lo := HexValue(s[1]), HexValue(s[2]);
        if hi.None? || lo.None? then None
        else
          match Decode(s[3..])
          case None => None
          case Some(rest) => Some([hi.value * 16 + lo.value] + rest)
    else if s[0] as int < 0x80 then
      match Decode(s[1..])
      case None => None
      case Some(rest) => Some([s[0] as int] + rest)
    else None
  }

  lemma {:induction false} DecodePercentBytes(bs: seq<Utf8.Byte>, rest: string)
    ensures Decode(PercentBytes(bs) + rest)
         == match Decode(rest) case None => None case Some(r) => Some(bs + r)
  {
    if bs != [] {
      var b: int := bs[0];
      var s := PercentBytes(bs) + rest;
      HexValueOfDigit(b / 16);
      HexValueOfDigit(b % 16);
      assert s[0] == '%' && s[1] == HexDigit(b / 16) && s[2] == HexDigit(b % 16);
      assert s[3..] == PercentBytes(bs[1..]) + rest;
      assert (b / 16) * 16 + b % 16 == b;
      DecodePercentBytes(bs[1..], rest);
      if Decode(rest).Some? {
        assert bs + Decode(rest).value == [bs[0]] + (bs[1..] + Decode(rest).value);
      }
    } else {
      assert PercentBytes(bs) + rest == rest;
      if Decode(rest).Some? {
        assert bs + Decode(rest).value == Decode(rest).value;
      }
    }
  }

  lemma DecodeEncodeChar(c: char, rest: string)
    ensures Decode(EncodeChar(c) + rest)
         == match Decode(rest) case None => None case Some(r) => Some(Utf8.EncodeChar(c) + r)
  {
    if IsUnreserved(c) {
      assert ([c] + rest)[1..] == rest;
    } else {
      DecodePercentBytes(Utf8.EncodeChar(c), rest);
    }
  }

  /** Round trip: decoding the encoding gives the UTF-8 bytes of the text. */
  lemma {:induction false} DecodeEncode(s: string)
    ensures Decode(Encode(s)) == Some(Utf8.Encode(s))
  {
    if s != [] {
      DecodeEncodeChar(s[0], Encode(s[1..]));
      DecodeEncode(s[1..]);
    }
  }

  /** Different texts have different encodings. */
  lemma EncodeInjective(s: string, t: string)
    requires Encode(s) == Encode(t)
    ensures s == t
  {
    DecodeEncode(s);
    DecodeEncode(t);
    Utf8.EncodeInjective(s, t);
  }

  /** The encoding can stand as a query value: it holds none of the
      characters that end a value, a parameter or the query. */
  lemma EncodedIsQuerySafe(s: string)
    ensures '&' !in Encode(s) && '=' !in Encode(s) && '#' !in Encode(s) && ' ' !in Encode(s) && '?' !in Encode(s)
  {
    var r := Encode(s);
    forall i | 0 <= i < |r| ensures r[i] !in "&=# ?" {
    }
  }
}
