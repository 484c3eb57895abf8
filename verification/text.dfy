/**
 Byte-level text rules the wrapper relies on when it builds or decodes
 strings: Rust's decimal `Display` of integers, UTF-8 well-formedness (what
 `CStr::to_str` checks), `to_string_lossy`, and the `{:?}` rendering of a
 `str`.
 Strings are byte sequences throughout.
 */
module Text {
  import opened CInterop

  const Minus: Byte := 0x2D
  const Dot: Byte := 0x2E
  const Zero: Byte := 0x30
  const Quote: Byte := 0x22
  const Backslash: Byte := 0x5C
  const LowerU: Byte := 0x75
  const OpenBrace: Byte := 0x7B
  const CloseBrace: Byte := 0x7D

  /** The bytes of an ASCII string literal. */
  function Ascii(s: string): (r: seq<Byte>)
    requires forall i :: 0 <= i < |s| ==> s[i] as int < 0x80
    ensures |r| == |s|
    ensures forall i :: 0 <= i < |s| ==> r[i] == s[i] as int
  {
    seq(|s|, i requires 0 <= i < |s| => s[i] as int)
  }

  // ---------------------------------------------------------------------------
  // Decimal integers

  predicate IsDigit(b: Byte) {
    Zero <= b <= Zero + 9
  }

  predicate AllDigits(s: seq<Byte>) {
    forall i :: 0 <= i < |s| ==> IsDigit(s[i])
  }

  /** The decimal digits of `n`, most significant first, without leading zeros. */
  function Digits(n: nat): (r: seq<Byte>)
    ensures |r| >= 1 && AllDigits(r)
    ensures r[0] == Zero ==> n == 0
  {
    if n < 10 then [Zero + n] else Digits(n / 10) + [Zero + n % 10]
  }

  /** The number a string of decimal digits denotes. */
  function DigitsValue(s: seq<Byte>): nat
    requires AllDigits(s)
  {
    if s == [] then 0 else 10 * DigitsValue(s[..|s| - 1]) + (s[|s| - 1] - Zero)
  }

  /** Rust's `{}` for an integer: a minus sign for negative values, then the digits of the magnitude. */
  function Decimal(x: int): (r: seq<Byte>)
    ensures |r| >= 1
    ensures Dot !in r && Nul !in r
  {
    if x < 0 then [Minus] + Digits(-x) else Digits(x)
  }

  /** Reads an optionally negative decimal integer back. */
  function ParseDecimal(s: seq<Byte>): Option<int> {
    if |s| >= 2 && s[0] == Minus && AllDigits(s[1..]) then
      var magnitude: int := DigitsValue(s[1..]);
      Some(-magnitude)
    else if |s| >= 1 && AllDigits(s) then Some(DigitsValue(s))
    else None
  }

  lemma {:induction false} DigitsValueOfDigits(n: nat)
    ensures DigitsValue(Digits(n)) == n
  {
    if n >= 10 {
      var d := Digits(n);
      assert d[..|d| - 1] == Digits(n / 10);
      DigitsValueOfDigits(n / 10);
    }
  }

  /** Decimal rendering loses nothing: the integer is read back from its text. */
  lemma {:induction false} DecimalRoundTrip(x: int)
    ensures ParseDecimal(Decimal(x)) == Some(x)
  {
    if x < 0 {
      NegativeRoundTrip(-x);
    } else {
      DigitsValueOfDigits(x);
      assert IsDigit(Digits(x)[0]);
    }
  }

  lemma {:induction false} NegativeRoundTrip(n: nat)
    ensures ParseDecimal([Minus] + Digits(n)) == Some(-(n as int))
  {
    var d := [Minus] + Digits(n);
    assert d[1..] == Digits(n);
    DigitsValueOfDigits(n);
  }

  lemma {:induction false} DecimalInjective(x: int, y: int)
    requires Decimal(x) == Decimal(y)
    ensures x == y
  {
    DecimalRoundTrip(x);
    DecimalRoundTrip(y);
  }

  // ---------------------------------------------------------------------------
  // UTF-8

  predicate IsContinuation(b: Byte) {
    0x80 <= b <= 0xBF
  }

  /**
   Length of the well-formed UTF-8 byte sequence `s` starts with, or 0 when it
   starts with none (the table of well-formed sequences in section 4 of RFC 3629).
   */
  function CharLength(s: seq<Byte>): (n: nat)
    ensures n <= |s| && n <= 4
    ensures |s| > 0 && s[0] < 0x80 ==> n == 1
  {
    if |s| == 0 then 0
    else if s[0] < 0x80 then 1
    else if 0xC2 <= s[0] <= 0xDF then
      (if |s| >= 2 && IsContinuation(s[1]) then 2 else 0)
    else if s[0] == 0xE0 then
      (if |s| >= 3 && 0xA0 <= s[1] <= 0xBF && IsContinuation(s[2]) then 3 else 0)
    else if 0xE1 <= s[0] <= 0xEC || 0xEE <= s[0] <= 0xEF then
      (if |s| >= 3 && IsContinuation(s[1]) && IsContinuation(s[2]) then 3 else 0)
    else if s[0] == 0xED then
      (if |s| >= 3 && 0x80 <= s[1] <= 0x9F && IsContinuation(s[2]) then 3 else 0)
    else if s[0] == 0xF0 then
      (if |s| >= 4 && 0x90 <= s[1] <= 0xBF && IsContinuation(s[2]) && IsContinuation(s[3]) then 4 else 0)
    else if 0xF1 <= s[0] <= 0xF3 then
      (if |s| >= 4 && IsContinuation(s[1]) && IsContinuation(s[2]) && IsContinuation(s[3]) then 4 else 0)
    else if s[0] == 0xF4 then
      (if |s| >= 4 && 0x80 <= s[1] <= 0x8F && IsContinuation(s[2]) && IsContinuation(s[3]) then 4 else 0)
    else 0
  }

  /** `str::from_utf8` accepts `s`: it is a concatenation of well-formed sequences. */
  predicate ValidUtf8(s: seq<Byte>)
    decreases |s|
  {
    s == [] || (CharLength(s) > 0 && ValidUtf8(s[CharLength(s)..]))
  }

  lemma {:induction false} AsciiIsValidUtf8(s: seq<Byte>)
    requires forall i :: 0 <= i < |s| ==> s[i] < 0x80
    ensures ValidUtf8(s)
  {
    if s != [] {
      assert CharLength(s) == 1;
      AsciiIsValidUtf8(s[1..]);
    }
  }

  /** U+FFFD REPLACEMENT CHARACTER, encoded. */
  const Replacement: seq<Byte> := [0xEF, 0xBF, 0xBD]

  /**
   How many bytes of an ill-formed start `String::from_utf8_lossy` replaces by
   one U+FFFD: the longest prefix that could still begin a well-formed
   sequence (a lead byte and the continuation bytes it accepts), at least one.
   */
  function InvalidLength(s: seq<Byte>): (n: nat)
    requires |s| > 0 && CharLength(s) == 0
    ensures 1 <= n <= 3 && n <= |s|
  {
    var second := |s| >= 2 && (
      || ((0xE1 <= s[0] <= 0xEC || 0xEE <= s[0] <= 0xEF || 0xF1 <= s[0] <= 0xF3) && IsContinuation(s[1]))
      || (s[0] == 0xE0 && 0xA0 <= s[1] <= 0xBF)
      || (s[0] == 0xED && 0x80 <= s[1] <= 0x9F)
      || (s[0] == 0xF0 && 0x90 <= s[1] <= 0xBF)
      || (s[0] == 0xF4 && 0x80 <= s[1] <= 0x8F));
    if !second then 1
    else if 0xF0 <= s[0] && |s| >= 3 && IsContinuation(s[2]) then 3
    else 2
  }

  /** `String::from_utf8_lossy`: well-formed characters are kept, each ill-formed run becomes U+FFFD. */
  function Utf8Lossy(s: seq<Byte>): seq<Byte>
    decreases |s|
  {
    if s == [] then []
    else if CharLength(s) > 0 then s[..CharLength(s)] + Utf8Lossy(s[CharLength(s)..])
    else Replacement + Utf8Lossy(s[InvalidLength(s)..])
  }

  /** The length of a well-formed first character depends on that character's bytes alone. */
  lemma {:induction false} CharLengthOfPrefix(s: seq<Byte>, t: seq<Byte>)
    requires CharLength(s) > 0
    ensures CharLength(s[..CharLength(s)] + t) == CharLength(s)
  {
    var n := CharLength(s);
    var u := s[..n] + t;
    assert forall i :: 0 <= i < n ==> u[i] == s[i];
  }

  lemma {:induction false} ValidAfterChar(c: seq<Byte>, t: seq<Byte>)
    requires CharLength(c) == |c| > 0 && ValidUtf8(t)
    ensures ValidUtf8(c + t)
  {
    CharLengthOfPrefix(c, t);
    assert c[..|c|] == c;
    assert (c + t)[|c|..] == t;
  }

  /** A well-formed string is left as it is. */
  lemma {:induction false} Utf8LossyKeepsValid(s: seq<Byte>)
    requires ValidUtf8(s)
    ensures Utf8Lossy(s) == s
    decreases |s|
  {
    if s != [] {
      var n := CharLength(s);
      Utf8LossyKeepsValid(s[n..]);
      assert s[..n] + s[n..] == s;
    }
  }

  /** Whatever the input, the result is well-formed UTF-8. */
  lemma {:induction false} Utf8LossyIsValid(s: seq<Byte>)
    ensures ValidUtf8(Utf8Lossy(s))
    decreases |s|
  {
    if s != [] {
      var n := CharLength(s);
      if n > 0 {
        Utf8LossyIsValid(s[n..]);
        var c := s[..n];
        CharLengthOfPrefix(s, []);
        assert c + [] == c;
        ValidAfterChar(c, Utf8Lossy(s[n..]));
      } else {
        Utf8LossyIsValid(s[InvalidLength(s)..]);
        assert CharLength(Replacement) == 3;
        ValidAfterChar(Replacement, Utf8Lossy(s[InvalidLength(s)..]));
      }
    }
  }

  /** The replacement character holds no NUL, so a NUL-free input gives a NUL-free result. */
  lemma {:induction false} Utf8LossyKeepsNoNul(s: seq<Byte>)
    requires Nul !in s
    ensures Nul !in Utf8Lossy(s)
    decreases |s|
  {
    if s != [] {
      var n := CharLength(s);
      if n > 0 {
        assert forall i :: 0 <= i < n ==> s[..n][i] == s[i];
        assert forall i :: 0 <= i < |s| - n ==> s[n..][i] == s[n + i];
        Utf8LossyKeepsNoNul(s[n..]);
      } else {
        var k := InvalidLength(s);
        assert forall i :: 0 <= i < |s| - k ==> s[k..][i] == s[k + i];
        Utf8LossyKeepsNoNul(s[k..]);
      }
    }
  }

  /** A well-formed first character followed by well-formed text is well-formed text. */
  lemma {:induction false} ValidAfterFirstChar(a: seq<Byte>, x: seq<Byte>)
    requires CharLength(a) > 0 && ValidUtf8(x)
    ensures ValidUtf8(a[..CharLength(a)] + x)
  {
    var c := a[..CharLength(a)];
    CharLengthOfPrefix(a, []);
    assert c + [] == c;
    ValidAfterChar(c, x);
  }

  /** `a + b` is well-formed when `a` starts with a character and what follows it in `a + b` is well-formed. */
  lemma {:induction false} ValidConcatStep(a: seq<Byte>, b: seq<Byte>)
    requires CharLength(a) > 0 && ValidUtf8(a[CharLength(a)..] + b)
    ensures ValidUtf8(a + b)
  {
    var n := CharLength(a);
    var x := a[n..] + b;
    ValidAfterFirstChar(a, x);
    SplitAt(a, b, n);
  }

  lemma {:induction false} SplitAt(a: seq<Byte>, b: seq<Byte>, n: nat)
    requires n <= |a|
    ensures a + b == a[..n] + (a[n..] + b)
  {
    assert a == a[..n] + a[n..];
  }

  /** Two well-formed texts make one. */
  lemma {:induction false} ValidUtf8Concat(a: seq<Byte>, b: seq<Byte>)
    requires ValidUtf8(a) && ValidUtf8(b)
    ensures ValidUtf8(a + b)
    decreases |a|
  {
    if a == [] {
      assert a + b == b;
    } else {
      ValidUtf8Concat(a[CharLength(a)..], b);
      ValidConcatStep(a, b);
    }
  }

  // ---------------------------------------------------------------------------
  // The `{:?}` rendering of a `str`

  function HexDigit(d: nat): (b: Byte)
    requires d < 16
  {
    if d < 10 then Zero + d else 0x61 + (d - 10)
  }

  predicate IsHexDigit(b: Byte) {
    IsDigit(b) || 0x61 <= b <= 0x66
  }

  function HexValue(b: Byte): (d: nat)
    requires IsHexDigit(b)
    ensures d < 16
  {
    if IsDigit(b) then b - Zero else b - 0x61 + 10
  }

  /** Lower-case hexadecimal digits of a byte value, without leading zeros, as in `\u{..}`. */
  function Hex(n: Byte): (r: seq<Byte>)
    ensures 1 <= |r| <= 2
  {
    if n < 16 then [HexDigit(n)] else [HexDigit(n / 16), HexDigit(n % 16)]
  }

  /**
   `char::escape_debug` inside a `str` for one ASCII byte: NUL, tab, line feed,
   carriage return, the double quote and the backslash get a backslash escape,
   other control bytes become `\u{..}`; every other byte is kept.
   */
  function EscapeByte(b: Byte): (r: seq<Byte>)
    ensures |r| >= 1
  {
    if b == 0x00 then [Backslash, Zero]
    else if b == 0x09 then [Backslash, 0x74]
    else if b == 0x0A then [Backslash, 0x6E]
    else if b == 0x0D then [Backslash, 0x72]
    else if b == Quote then [Backslash, Quote]
    else if b == Backslash then [Backslash, Backslash]
    else if b < 0x20 || b == 0x7F then [Backslash, LowerU, OpenBrace] + Hex(b) + [CloseBrace]
    else [b]
  }

  function EscapeDebug(s: seq<Byte>): seq<Byte> {
    if s == [] then [] else EscapeByte(s[0]) + EscapeDebug(s[1..])
  }

  /** `format!("{:?}", s)` for a `str`: the escaped text between double quotes. */
  function DebugStr(s: seq<Byte>): (r: seq<Byte>)
    ensures |r| >= 2 && r[0] == Quote && r[|r| - 1] == Quote
  {
    [Quote] + EscapeDebug(s) + [Quote]
  }

  /** The byte a one-letter backslash escape stands for. */
  function EscapedLetter(c: Byte): Byte {
    if c == Zero then 0x00
    else if c == 0x74 then 0x09
    else if c == 0x6E then 0x0A
    else if c == 0x72 then 0x0D
    else c
  }

  /** Undoes `EscapeDebug`: reads the escapes it writes back into bytes. */
  function Unescape(s: seq<Byte>): seq<Byte>
    decreases |s|
  {
    if s == [] then []
    else if s[0] != Backslash || |s| < 2 then [s[0]] + Unescape(s[1..])
    else if s[1] == LowerU && |s| >= 5 && s[2] == OpenBrace && IsHexDigit(s[3]) && s[4] == CloseBrace then
      [HexValue(s[3])] + Unescape(s[5..])
    else if s[1] == LowerU && |s| >= 6 && s[2] == OpenBrace && IsHexDigit(s[3]) && IsHexDigit(s[4]) && s[5] == CloseBrace then
      [16 * HexValue(s[3]) + HexValue(s[4])] + Unescape(s[6..])
    else [EscapedLetter(s[1])] + Unescape(s[2..])
  }

  lemma UnescapeByte(b: Byte, rest: seq<Byte>)
    ensures Unescape(EscapeByte(b) + rest) == [b] + Unescape(rest)
  {
    var e := EscapeByte(b);
    if b < 0x20 || b == 0x7F {
      if b != 0x00 && b != 0x09 && b != 0x0A && b != 0x0D {
        var s := e + rest;
        if b < 16 {
          assert s[5..] == rest;
        } else {
          assert s[6..] == rest;
        }
      } else {
        assert (e + rest)[2..] == rest;
      }
    } else if b == Quote || b == Backslash {
      assert (e + rest)[2..] == rest;
    } else {
      assert (e + rest)[1..] == rest;
    }
  }

  /** The `{:?}` rendering loses nothing: the original string is read back from it. */
  lemma {:induction false} EscapeDebugRoundTrip(s: seq<Byte>)
    ensures Unescape(EscapeDebug(s)) == s
  {
    if s != [] {
      UnescapeByte(s[0], EscapeDebug(s[1..]));
      EscapeDebugRoundTrip(s[1..]);
    }
  }

  /** The rendering holds no NUL byte, whatever the string held. */
  lemma {:induction false} EscapeDebugHasNoNul(s: seq<Byte>)
    ensures Nul !in EscapeDebug(s)
  {
    if s != [] {
      EscapeDebugHasNoNul(s[1..]);
      assert Nul !in EscapeByte(s[0]);
    }
  }
}
