/** Strings as JavaScript sees them where the site's logic needs them:
    decimal notation of numbers, `parseInt`, ASCII case folding and the
    `startsWith` / `endsWith` / `includes` tests. */
module Text {

  datatype Option<+T> = None | Some(value: T)

  // ---------------------------------------------------------------------
  // Digits and decimal notation
  // ---------------------------------------------------------------------

  predicate IsDigit(c: char) { '0' <= c <= '9' }

  predicate AllDigits(s: string) { forall i :: 0 <= i < |s| ==> IsDigit(s[i]) }

  /** The value of `c` as a digit in `radix` (10 or 16), the way `parseInt` reads it. */
  function RadixDigit(c: char, radix: nat): Option<nat>
  {
    if '0' <= c <= '9' then Some(c as int - '0' as int)
    else if radix == 16 && 'a' <= c <= 'f' then Some(c as int - 'a' as int + 10)
    else if radix == 16 && 'A' <= c <= 'F' then Some(c as int - 'A' as int + 10)
    else None
  }

  predicate IsRadixDigit(c: char, radix: nat) { RadixDigit(c, radix).Some? }

  predicate AllRadixDigits(s: string, radix: nat)
  {
    forall i :: 0 <= i < |s| ==> IsRadixDigit(s[i], radix)
  }

  /** The number a string of digits denotes, most significant digit first. */
  function DigitsValue(s: string, radix: nat): nat
    requires AllRadixDigits(s, radix)
  {
    if s == [] then 0
    else DigitsValue(s[..|s| - 1], radix) * radix + RadixDigit(s[|s| - 1], radix).value
  }

  function DigitChar(d: nat): (c: char)
    requires d < 10
    ensures IsDigit(c) && RadixDigit(c, 10) == Some(d)
  {
    ('0' as int + d) as char
  }

  /** Decimal notation of a natural number: what `${n}` and `String(n)`
      produce for a non-negative integer (for instance `Date.now()`). */
  function NatToString(n: nat): (s: string)
    ensures |s| > 0 && AllDigits(s)
    ensures s[0] == '0' ==> s == "0"
    decreases n
  {
    if n < 10 then [DigitChar(n)] else NatToString(n / 10) + [DigitChar(n % 10)]
  }

  /** Decimal notation of any integer, with a leading `-` when negative. */
  function IntToString(i: int): (s: string)
    ensures |s| > 0
    ensures i < 0 <==> s[0] == '-'
    ensures IsDigit(s[|s| - 1])
  {
    if i < 0 then "-" + NatToString(-i) else NatToString(i)
  }

  lemma AllDigitsAreRadixDigits(s: string, radix: nat)
    requires AllDigits(s)
    ensures AllRadixDigits(s, radix)
  {
  }

  /** Reading back the decimal notation of `n` gives `n`. */
  lemma {:induction false} NatToStringValue(n: nat)
    ensures AllRadixDigits(NatToString(n), 10)
    ensures DigitsValue(NatToString(n), 10) == n
    decreases n
  {
    var s := NatToString(n);
    AllDigitsAreRadixDigits(s, 10);
    if n >= 10 {
      var t := NatToString(n / 10);
      NatToStringValue(n / 10);
      assert s == t + [DigitChar(n % 10)];
      assert s[..|s| - 1] == t;
    }
  }

  /** Different numbers have different decimal notations. */
  lemma NatToStringInjective(m: nat, n: nat)
    requires NatToString(m) == NatToString(n)
    ensures m == n
  {
    NatToStringValue(m);
    NatToStringValue(n);
  }

  // ---------------------------------------------------------------------
  // parseInt
  // ---------------------------------------------------------------------

  /** The characters `parseInt` skips before a number: the white space and
      line terminators of ECMAScript (TAB, VT, FF, ZWNBSP, the space
      separators of Unicode category Zs, LF, CR, LS and PS). */
  predicate IsJsWhiteSpace(c: char)
  {
    c == '\t' || c == '\U{B}' || c == '\U{C}' || c == '\U{FEFF}' ||
    c == ' ' || c == '\U{A0}' || c == '\U{1680}' || ('\U{2000}' <= c <= '\U{200A}') ||
    c == '\U{202F}' || c == '\U{205F}' || c == '\U{3000}' ||
    c == '\n' || c == '\r' || c == '\U{2028}' || c == '\U{2029}'
  }

  function TrimStart(s: string): (t: string)
    ensures |t| <= |s| && t == s[|s| - |t|..]
    ensures t == [] || !IsJsWhiteSpace(t[0])
  {
    if s != [] && IsJsWhiteSpace(s[0]) then TrimStart(s[1..]) else s
  }

  /** Length of the longest prefix of `s` made of digits in `radix`. */
  function DigitRun(s: string, radix: nat): (k: nat)
    ensures k <= |s| && AllRadixDigits(s[..k], radix)
    ensures k < |s| ==> !IsRadixDigit(s[k], radix)
  {
    if s != [] && IsRadixDigit(s[0], radix) then
      var k := 1 + DigitRun(s[1..], radix);
      assert s[..k] == [s[0]] + s[1..][..k - 1];
      k
    else 0
  }

  predicate HasHexPrefix(s: string)
  {
    |s| >= 2 && s[0] == '0' && (s[1] == 'x' || s[1] == 'X')
  }

  /** JavaScript's `parseInt(s)` without a radix: leading white space is
      skipped, one sign is read, a `0x` or `0X` prefix selects base 16, and
      the longest run of digits that follows is the number; no digit at all
      gives NaN, written `None`. Trailing garbage is ignored. */
  function ParseInt(s: string): Option<int>
  {
    var t := TrimStart(s);
    var negative := t != [] && t[0] == '-';
    var u := if t != [] && (t[0] == '-' || t[0] == '+') then t[1..] else t;
    var radix := if HasHexPrefix(u) then 16 else 10;
    var w := if radix == 16 then u[2..] else u;
    var k := DigitRun(w, radix);
    if k == 0 then None
    else
      var v: int := DigitsValue(w[..k], radix);
      Some(if negative then -v else v)
  }

  /** `parseInt` reads back what `String(n)` wrote: the query parameter
      `?id=${id}` built from a numeric id addresses that same id. */
  lemma ParseIntNatToString(n: nat)
    ensures ParseInt(NatToString(n)) == Some(n)
  {
    var s := NatToString(n);
    assert !HasHexPrefix(s);
    ParseIntOfDigits(s);
    NatToStringValue(n);
  }

  /** A non-empty run of decimal digits, not read as hexadecimal, is parsed
      whole. */
  lemma ParseIntOfDigits(s: string)
    requires s != [] && AllDigits(s) && !HasHexPrefix(s)
    ensures AllRadixDigits(s, 10)
    ensures ParseInt(s) == Some(DigitsValue(s, 10))
  {
    assert IsDigit(s[0]) && !IsJsWhiteSpace(s[0]);
    assert TrimStart(s) == s;
    assert s[0] != '-' && s[0] != '+';
    AllDigitsAreRadixDigits(s, 10);
    DigitRunAll(s, 10);
    assert s[..|s|] == s;
  }

  lemma {:induction false} DigitRunAll(s: string, radix: nat)
    requires AllRadixDigits(s, radix)
    ensures DigitRun(s, radix) == |s|
  {
    if s != [] {
      DigitRunAll(s[1..], radix);
    }
  }

  /** Trailing characters after the digits are ignored: `parseInt("7x")` is 7
      (only `"0x…"` and `"0X…"` are read differently, as hexadecimal). */
  lemma ParseIntIgnoresSuffix(n: nat, suffix: string)
    requires suffix != [] && !IsDigit(suffix[0])
    requires n == 0 ==> suffix[0] != 'x' && suffix[0] != 'X'
    ensures ParseInt(NatToString(n) + suffix) == Some(n)
  {
    var d := NatToString(n);
    var s := d + suffix;
    assert s[0] == d[0];
    assert TrimStart(s) == s;
    assert !HasHexPrefix(s) by {
      if s[0] == '0' {
        assert d == "0";
        assert s[1] == suffix[0];
      }
    }
    DigitRunPrefix(d, suffix);
    assert s[..|d|] == d;
    NatToStringValue(n);
    assert ParseInt(s) == Some(DigitsValue(d, 10));
  }

  lemma {:induction false} DigitRunPrefix(d: string, suffix: string)
    requires AllDigits(d) && suffix != [] && !IsDigit(suffix[0])
    ensures DigitRun(d + suffix, 10) == |d|
  {
    if d != [] {
      assert (d + suffix)[1..] == d[1..] + suffix;
      DigitRunPrefix(d[1..], suffix);
    } else {
      assert d + suffix == suffix;
    }
  }

  // ---------------------------------------------------------------------
  // Case and substrings
  // ---------------------------------------------------------------------

  function ToLowerChar(c: char): char
  {
    if 'A' <= c <= 'Z' then (c as int + 32) as char else c
  }

  /** `toLowerCase`, on the ASCII letters. */
  function ToLower(s: string): (r: string)
    ensures |r| == |s|
    ensures forall i :: 0 <= i < |s| ==> r[i] == ToLowerChar(s[i])
  {
    seq(|s|, i requires 0 <= i < |s| => ToLowerChar(s[i]))
  }

  lemma {:induction false} ToLowerAppend(a: string, b: string)
    ensures ToLower(a + b) == ToLower(a) + ToLower(b)
  {
    assert |ToLower(a + b)| == |ToLower(a) + ToLower(b)|;
    forall i | 0 <= i < |a + b| ensures ToLower(a + b)[i] == (ToLower(a) + ToLower(b))[i] {
      if i < |a| {} else {}
    }
  }

  lemma ToLowerSuffix(s: string, i: nat)
    requires i <= |s|
    ensures ToLower(s[i..]) == ToLower(s)[i..]
  {
  }

  predicate StartsWith(s: string, prefix: string)
  {
    |prefix| <= |s| && s[..|prefix|] == prefix
  }

  predicate EndsWith(s: string, suffix: string)
  {
    |suffix| <= |s| && s[|s| - |suffix|..] == suffix
  }

  /** `s.includes(t)`. */
  predicate Contains(s: string, t: string)
  {
    exists i :: 0 <= i <= |s| - |t| && OccursAt(s, t, i)
  }

  predicate OccursAt(s: string, t: string, i: int)
  {
    0 <= i <= |s| - |t| && s[i..i + |t|] == t
  }

  /** Whatever is placed between two strings is found in the result. */
  lemma ContainsMiddle(a: string, t: string, b: string)
    ensures Contains(a + t + b, t)
  {
    var s := a + t + b;
    assert OccursAt(s, t, |a|);
  }

  /** `s.lastIndexOf(c)`, with `None` for -1. */
  function LastIndexOf(s: string, c: char): (r: Option<nat>)
    ensures r.None? <==> c !in s
    ensures r.Some? ==> r.value < |s| && s[r.value] == c && c !in s[r.value + 1..]
  {
    if s == [] then None
    else if s[|s| - 1] == c then Some(|s| - 1)
    else
      var r := LastIndexOf(s[..|s| - 1], c);
      assert s == s[..|s| - 1] + [s[|s| - 1]];
      if r.Some? then
        assert s[r.value + 1..] == s[..|s| - 1][r.value + 1..] + [s[|s| - 1]];
        r
      else r
  }

  /** The last occurrence is the one with no further occurrence after it. */
  lemma LastIndexOfAt(s: string, c: char, i: nat)
    requires i < |s| && s[i] == c && c !in s[i + 1..]
    ensures LastIndexOf(s, c) == Some(i)
  {
    assert s[i] in s;
    var k := LastIndexOf(s, c).value;
    assert forall j :: i < j < |s| ==> s[j] == s[i + 1..][j - i - 1] != c;
    assert forall j :: k < j < |s| ==> s[j] == s[k + 1..][j - k - 1] != c;
  }
}
