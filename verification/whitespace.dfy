/**
 The UTF-8 encodings of the characters Rust's `str::trim` strips, and
 `trim_start` and `trim_end` on the bytes of a string.
 */
module Whitespace {
  import opened CInterop

  /*
   The characters with the Unicode White_Space property, which `str::trim`
   strips, by the length of their UTF-8 encoding: U+0009..U+000D and U+0020;
   U+0085 and U+00A0; U+1680, U+2000..U+200A, U+2028, U+2029, U+202F, U+205F
   and U+3000.
   */

  predicate IsSpace1(a: Byte) {
    a == 0x20 || 0x09 <= a <= 0x0D
  }

  predicate IsSpace2(a: Byte, b: Byte) {
    a == 0xC2 && (b == 0x85 || b == 0xA0)
  }

  predicate IsSpace3(a: Byte, b: Byte, c: Byte) {
    || (a == 0xE1 && b == 0x9A && c == 0x80)
    || (a == 0xE2 && b == 0x80 && (0x80 <= c <= 0x8A || c == 0xA8 || c == 0xA9 || c == 0xAF))
    || (a == 0xE2 && b == 0x81 && c == 0x9F)
    || (a == 0xE3 && b == 0x80 && c == 0x80)
  }

  /** The encoding of one White_Space character. */
  predicate IsSpaceChar(c: seq<Byte>) {
    || (|c| == 1 && IsSpace1(c[0]))
    || (|c| == 2 && IsSpace2(c[0], c[1]))
    || (|c| == 3 && IsSpace3(c[0], c[1], c[2]))
  }

  /** Length of the white-space character `s` starts with, or 0 when it starts with none. */
  function LeadingSpace(s: seq<Byte>): (n: nat)
    ensures n <= 3 && n <= |s|
  {
    if |s| >= 1 && IsSpace1(s[0]) then 1
    else if |s| >= 2 && IsSpace2(s[0], s[1]) then 2
    else if |s| >= 3 && IsSpace3(s[0], s[1], s[2]) then 3
    else 0
  }

  /** Length of the white-space character `s` ends with, or 0 when it ends with none. */
  function TrailingSpace(s: seq<Byte>): (n: nat)
    ensures n <= 3 && n <= |s|
  {
    var k := |s|;
    if k >= 1 && IsSpace1(s[k - 1]) then 1
    else if k >= 2 && IsSpace2(s[k - 2], s[k - 1]) then 2
    else if k >= 3 && IsSpace3(s[k - 3], s[k - 2], s[k - 1]) then 3
    else 0
  }

  /**
   `p` is a run of White_Space characters: the only bytes `trim` may remove.
   The encodings are self-delimiting, so reading them from the front is enough.
   */
  predicate AllSpace(p: seq<Byte>)
    decreases |p|
  {
    p == [] || (LeadingSpace(p) > 0 && AllSpace(p[LeadingSpace(p)..]))
  }

  /** Length of the run of white space `s` starts with. */
  function LeadingRun(s: seq<Byte>): (k: nat)
    ensures k <= |s|
    decreases |s|
  {
    var n := LeadingSpace(s);
    if n == 0 then 0 else n + LeadingRun(s[n..])
  }

  /** Length of the run of white space `s` ends with. */
  function TrailingRun(s: seq<Byte>): (k: nat)
    ensures k <= |s|
    decreases |s|
  {
    var n := TrailingSpace(s);
    if n == 0 then 0 else n + TrailingRun(s[..|s| - n])
  }

  /** No white space follows the leading run. */
  lemma {:induction false} LeadingRunIsMaximal(s: seq<Byte>)
    ensures LeadingSpace(s[LeadingRun(s)..]) == 0
    decreases |s|
  {
    var n := LeadingSpace(s);
    if n == 0 {
      assert s[0..] == s;
    } else {
      LeadingRunIsMaximal(s[n..]);
      assert s[n..][LeadingRun(s[n..])..] == s[LeadingRun(s)..];
    }
  }

  /** No white space precedes the trailing run. */
  lemma {:induction false} TrailingRunIsMaximal(s: seq<Byte>)
    ensures TrailingSpace(s[..|s| - TrailingRun(s)]) == 0
    decreases |s|
  {
    var n := TrailingSpace(s);
    if n == 0 {
      assert s[..|s|] == s;
    } else {
      var x := s[..|s| - n];
      TrailingRunIsMaximal(x);
      assert x[..|x| - TrailingRun(x)] == s[..|s| - TrailingRun(s)];
    }
  }

  /** `str::trim_start`: drops leading white space; the result is a suffix of `s`. */
  function TrimStart(s: seq<Byte>): (r: seq<Byte>)
    ensures |r| <= |s| && r == s[|s| - |r|..]
    ensures LeadingSpace(r) == 0
  {
    LeadingRunIsMaximal(s);
    s[LeadingRun(s)..]
  }

  /** `str::trim_end`: drops trailing white space; the result is a prefix of `s`. */
  function TrimEnd(s: seq<Byte>): (r: seq<Byte>)
    ensures |r| <= |s| && r == s[..|r|]
    ensures TrailingSpace(r) == 0
  {
    TrailingRunIsMaximal(s);
    s[..|s| - TrailingRun(s)]
  }
}
