/** Base 64 encoding with the standard alphabet and `=` padding, as defined
    in section 4 of RFC 4648: what `Buffer.toString("base64")` and `btoa`
    produce. */
module Base64 {
  import opened Text
  import opened Utf8

  /** The 64-character alphabet (Table 1 of RFC 4648). */
  function Symbol(i: nat): (c: char)
    requires i < 64
  {
    if i < 26 then ('A' as int + i) as char
    else if i < 52 then ('a' as int + i - 26) as char
    else if i < 62 then ('0' as int + i - 52) as char
    else if i == 62 then '+'
    else '/'
  }

  /** The inverse of the alphabet. */
  function SymbolIndex(c: char): (r: Option<nat>)
    ensures r.Some? ==> r.value < 64 && Symbol(r.value) == c
  {
    if 'A' <= c <= 'Z' then Some(c as int - 'A' as int)
    else if 'a' <= c <= 'z' then Some(c as int - 'a' as int + 26)
    else if '0' <= c <= '9' then Some(c as int - '0' as int + 52)
    else if c == '+' then Some(62)
    else if c == '/' then Some(63)
    else None
  }

  lemma SymbolIndexOfSymbol(i: nat)
    requires i < 64
    ensures SymbolIndex(Symbol(i)) == Some(i)
  {
  }

  predicate IsSymbol(c: char) { SymbolIndex(c).Some? }

  /** One byte: two symbols and two pad characters. */
  function Quantum1(x: Byte): (s: string)
    ensures |s| == 4 && forall i :: 0 <= i < 4 ==> IsSymbol(s[i]) || s[i] == '='
  {
    var n: int := x;
    SymbolIndexOfSymbol(n / 4);
    SymbolIndexOfSymbol((n % 4) * 16);
    [Symbol(n / 4), Symbol((n % 4) * 16), '=', '=']
  }

  /** Two bytes: three symbols and one pad character. */
  function Quantum2(x: Byte, y: Byte): (s: string)
    ensures |s| == 4 && forall i :: 0 <= i < 4 ==> IsSymbol(s[i]) || s[i] == '='
  {
    var n: int := (x as int) * 256 + y as int;
    SymbolIndexOfSymbol(n / 1024);
    SymbolIndexOfSymbol((n / 16) % 64);
    SymbolIndexOfSymbol((n % 16) * 4);
    [Symbol(n / 1024), Symbol((n / 16) % 64), Symbol((n % 16) * 4), '=']
  }

  /** Three bytes, 24 bits: four symbols of 6 bits each. */
  function Quantum3(x: Byte, y: Byte, z: Byte): (s: string)
    ensures |s| == 4 && forall i :: 0 <= i < 4 ==> IsSymbol(s[i])
  {
    var n: int := (x as int) * 65536 + (y as int) * 256 + z as int;
    SymbolIndexOfSymbol(n / 262144);
    SymbolIndexOfSymbol((n / 4096) % 64);
    SymbolIndexOfSymbol((n / 64) % 64);
    SymbolIndexOfSymbol(n % 64);
    [Symbol(n / 262144), Symbol((n / 4096) % 64), Symbol((n / 64) % 64), Symbol(n % 64)]
  }

  /** The encoding: every 3 input bytes become 4 symbols; a final group of 1 or
      2 bytes becomes 2 or 3 symbols padded with `=` to 4 (section 4). */
  function Encode(bs: seq<Byte>): (s: string)
    ensures |s| == 4 * ((|bs| + 2) / 3)
    ensures forall i :: 0 <= i < |s| ==> IsSymbol(s[i]) || s[i] == '='
  {
    if |bs| == 0 then ""
    else if |bs| == 1 then Quantum1(bs[0])
    else if |bs| == 2 then Quantum2(bs[0], bs[1])
    else
      var head, rest := Quantum3(bs[0], bs[1], bs[2]), Encode(bs[3..]);
      var m := |bs| - 3;
      assert (m + 2) / 3 + 1 == (|bs| + 2) / 3;
      assert |head + rest| == 4 * ((|bs| + 2) / 3);
      assert forall i :: 0 <= i < 4 ==> (head + rest)[i] == head[i];
      assert forall i :: 4 <= i < |head + rest| ==> (head + rest)[i] == rest[i - 4];
      head + rest
  }

  /** Decoding, group by group; anything that is not a sequence of 4-symbol
      groups with padding only at the very end is rejected. */
  function Decode(s: string): Option<seq<Byte>>
    decreases |s|
  {
    if |s| == 0 then Some([])
    else if |s| < 4 then None
    else
      var a, b, c, d := SymbolIndex(s[0]), SymbolIndex(s[1]), SymbolIndex(s[2]), SymbolIndex(s[3]);
      if a.None? || b.None? then None
      else if |s| == 4 && s[2] == '=' && s[3] == '=' then
        Some([a.value * 4 + b.value / 16])
      else if c.None? then None
      else if |s| == 4 && s[3] == '=' then
        var n := a.value * 1024 + b.value * 16 + c.value / 4;
        Some([n / 256, n % 256])
      else if d.None? then None
      else
        var n := a.value * 262144 + b.value * 4096 + c.value * 64 + d.value;
        match Decode(s[4..])
        case None => None
        case Some(rest) => Some([n / 65536, (n / 256) % 256, n % 256] + rest)
  }

  lemma DivMod(n: int, k: int)
    requires n >= 0 && k > 0
    ensures n == (n / k) * k + n % k
  {
  }

  lemma OneByteGroup(x: int)
    requires 0 <= x < 256
    ensures (x / 4) * 4 + ((x % 4) * 16) / 16 == x
  {
    DivMod(x, 4);
    assert ((x % 4) * 16) / 16 == x % 4;
  }

  /** Sixteen bits split into 6 + 6 + 4 and joined again. */
  lemma Split16(n: int)
    requires 0 <= n < 65536
    ensures (n / 1024) * 1024 + ((n / 16) % 64) * 16 + ((n % 16) * 4) / 4 == n
  {
    DivMod(n, 16);
    DivMod(n / 16, 64);
    assert n / 16 / 64 == n / 1024;
    assert ((n % 16) * 4) / 4 == n % 16;
  }

  lemma TwoByteGroup(x: int, y: int)
    requires 0 <= x < 256 && 0 <= y < 256
    ensures var n := x * 256 + y;
      var m := (n / 1024) * 1024 + ((n / 16) % 64) * 16 + ((n % 16) * 4) / 4;
      m / 256 == x && m % 256 == y
  {
    var n := x * 256 + y;
    Split16(n);
    assert n / 256 == x;
    assert n % 256 == y;
  }

  /** Twenty-four bits split into four sextets and joined again. */
  lemma Split24(n: int)
    requires 0 <= n < 16777216
    ensures (n / 262144) * 262144 + ((n / 4096) % 64) * 4096 + ((n / 64) % 64) * 64 + n % 64 == n
  {
    DivMod(n, 64);
    DivMod(n / 64, 64);
    DivMod(n / 4096, 64);
    assert n / 64 / 64 == n / 4096;
    assert n / 4096 / 64 == n / 262144;
  }

  lemma ThreeByteGroup(x: int, y: int, z: int)
    requires 0 <= x < 256 && 0 <= y < 256 && 0 <= z < 256
    ensures var n := x * 65536 + y * 256 + z;
      var m := (n / 262144) * 262144 + ((n / 4096) % 64) * 4096 + ((n / 64) % 64) * 64 + n % 64;
      m / 65536 == x && (m / 256) % 256 == y && m % 256 == z
  {
    var n := x * 65536 + y * 256 + z;
    Split24(n);
    assert n / 65536 == x;
    assert n / 256 == x * 256 + y;
    assert (x * 256 + y) % 256 == y;
    assert n % 256 == z;
  }

  lemma DecodeEncodeOne(x: Byte)
    ensures Decode(Quantum1(x)) == Some([x])
  {
    var n: int := x;
    SymbolIndexOfSymbol(n / 4);
    SymbolIndexOfSymbol((n % 4) * 16);
    OneByteGroup(n);
  }

  lemma DecodeEncodeTwo(x: Byte, y: Byte)
    ensures Decode(Quantum2(x, y)) == Some([x, y])
  {
    var n: int := (x as int) * 256 + y as int;
    var a, b, c := n / 1024, (n / 16) % 64, (n % 16) * 4;
    var s := Quantum2(x, y);
    SymbolIndexOfSymbol(a);
    SymbolIndexOfSymbol(b);
    SymbolIndexOfSymbol(c);
    assert s[2] != '=';
    TwoByteGroup(x, y);
  }

  /** A full group of three bytes decodes back in front of whatever follows. */
  lemma DecodeGroup(x: Byte, y: Byte, z: Byte, rest: string)
    ensures Decode(Quantum3(x, y, z) + rest)
         == match Decode(rest) case None => None case Some(r) => Some([x, y, z] + r)
  {
    var n: int := (x as int) * 65536 + (y as int) * 256 + z as int;
    var a, b, c, d := n / 262144, (n / 4096) % 64, (n / 64) % 64, n % 64;
    var s := Quantum3(x, y, z) + rest;
    SymbolIndexOfSymbol(a);
    SymbolIndexOfSymbol(b);
    SymbolIndexOfSymbol(c);
    SymbolIndexOfSymbol(d);
    assert s[2] != '=' && s[3] != '=';
    assert s[4..] == rest;
    ThreeByteGroup(x, y, z);
  }

  /** Round trip: decoding an encoding gives back the bytes. */
  lemma {:induction false} DecodeEncode(bs: seq<Byte>)
    ensures Decode(Encode(bs)) == Some(bs)
    decreases |bs|
  {
    if |bs| == 1 {
      assert Encode(bs) == Quantum1(bs[0]);
      DecodeEncodeOne(bs[0]);
      assert bs == [bs[0]];
    } else if |bs| == 2 {
      var x, y := bs[0], bs[1];
      assert Encode(bs) == Quantum2(x, y);
      DecodeEncodeTwo(x, y);
      assert bs == [x, y];
    } else if |bs| >= 3 {
      DecodeGroup(bs[0], bs[1], bs[2], Encode(bs[3..]));
      DecodeEncode(bs[3..]);
      assert bs == [bs[0], bs[1], bs[2]] + bs[3..];
    }
  }

  /** Different byte strings have different encodings. */
  lemma EncodeInjective(a: seq<Byte>, b: seq<Byte>)
    requires Encode(a) == Encode(b)
    ensures a == b
  {
    DecodeEncode(a);
    DecodeEncode(b);
  }
}
