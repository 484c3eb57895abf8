/**
 `str::trim` on the UTF-8 bytes of a string: which byte sequences encode
 white space, what `trim_start` and `trim_end` remove, and what `trim`
 keeps.
 */
module Trimming {
  import opened CInterop
  import opened Text
  import opened Whitespace

  /** What `LeadingSpace` measures is one white-space character. */
  lemma {:induction false} LeadingSpaceIsChar(s: seq<Byte>)
    requires LeadingSpace(s) > 0
    ensures IsSpaceChar(s[..LeadingSpace(s)])
  {
  }

  /** What `TrailingSpace` measures is one white-space character. */
  lemma {:induction false} TrailingSpaceIsChar(s: seq<Byte>)
    requires TrailingSpace(s) > 0
    ensures IsSpaceChar(s[|s| - TrailingSpace(s)..])
  {
  }

  /** A white-space character is recognised at the front whatever follows it. */
  lemma {:induction false} SpaceCharStarts(c: seq<Byte>, x: seq<Byte>)
    requires IsSpaceChar(c)
    ensures LeadingSpace(c + x) == |c|
  {
    var s := c + x;
    assert s[0] == c[0];
    assert |c| >= 2 ==> s[1] == c[1];
    assert |c| >= 3 ==> s[2] == c[2];
  }

  /** A white-space character is recognised at the end whatever precedes it. */
  lemma {:induction false} SpaceCharEnds(x: seq<Byte>, c: seq<Byte>)
    requires IsSpaceChar(c)
    ensures TrailingSpace(x + c) == |c|
  {
    var s := x + c;
    var k := |s|;
    assert s[k - 1] == c[|c| - 1];
    assert |c| >= 2 ==> s[k - 2] == c[|c| - 2];
    assert |c| >= 3 ==> s[k - 3] == c[|c| - 3];
  }

  /** A white-space character is one well-formed UTF-8 character, and not NUL. */
  lemma {:induction false} SpaceCharIsChar(c: seq<Byte>)
    requires IsSpaceChar(c)
    ensures CharLength(c) == |c| && Nul !in c
  {
  }

  /** A white-space character followed by a run of white space is a run. */
  lemma {:induction false} SpaceThenAllSpace(c: seq<Byte>, p: seq<Byte>)
    requires IsSpaceChar(c) && AllSpace(p)
    ensures AllSpace(c + p)
  {
    SpaceCharStarts(c, p);
    assert (c + p)[|c|..] == p;
  }

  /** Two runs of white space make one. */
  lemma {:induction false} AllSpaceConcat(a: seq<Byte>, b: seq<Byte>)
    requires AllSpace(a) && AllSpace(b)
    ensures AllSpace(a + b)
    decreases |a|
  {
    if a == [] {
      assert a + b == b;
    } else {
      AllSpaceConcat(a[LeadingSpace(a)..], b);
      AllSpaceConcatStep(a, b);
    }
  }

  /** The first white-space character of a run, followed by a run, is a run. */
  lemma {:induction false} AllSpaceConcatStep(a: seq<Byte>, b: seq<Byte>)
    requires LeadingSpace(a) > 0 && AllSpace(a[LeadingSpace(a)..] + b)
    ensures AllSpace(a + b)
  {
    var k := LeadingSpace(a);
    LeadingSpaceIsChar(a);
    assert a + b == a[..k] + (a[k..] + b);
    SpaceThenAllSpace(a[..k], a[k..] + b);
  }

  /** The run `LeadingRun` measures is white space. */
  lemma {:induction false} LeadingRunIsSpace(s: seq<Byte>)
    ensures AllSpace(s[..LeadingRun(s)])
    decreases |s|
  {
    var n := LeadingSpace(s);
    if n == 0 {
      assert s[..0] == [];
    } else {
      LeadingRunIsSpace(s[n..]);
      LeadingRunGrows(s, n, LeadingRun(s[n..]));
    }
  }

  /** One step of `LeadingRunIsSpace`: the first white-space character of `s`, then a run. */
  lemma {:induction false} LeadingRunGrows(s: seq<Byte>, n: nat, k: nat)
    requires n == LeadingSpace(s) > 0 && k <= |s| - n
    requires AllSpace(s[n..][..k])
    ensures AllSpace(s[..n + k])
  {
    LeadingSpaceIsChar(s);
    assert s[..n + k] == s[..n] + s[n..][..k];
    SpaceThenAllSpace(s[..n], s[n..][..k]);
  }

  /** The run `TrailingRun` measures is white space. */
  lemma {:induction false} TrailingRunIsSpace(s: seq<Byte>)
    ensures AllSpace(s[|s| - TrailingRun(s)..])
    decreases |s|
  {
    if TrailingSpace(s) == 0 {
      assert s[|s| - TrailingRun(s)..] == [];
    } else {
      var x := s[..|s| - TrailingSpace(s)];
      TrailingRunIsSpace(x);
      TrailingRunGrows(s, x);
    }
  }

  /** One step of `TrailingRunIsSpace`: the trailing run of `s` is that of `x` and its last character. */
  lemma {:induction false} TrailingRunGrows(s: seq<Byte>, x: seq<Byte>)
    requires TrailingSpace(s) > 0 && x == s[..|s| - TrailingSpace(s)]
    requires AllSpace(x[|x| - TrailingRun(x)..])
    ensures AllSpace(s[|s| - TrailingRun(s)..])
  {
    RunThenTrailingSpace(s, TrailingSpace(s), x, TrailingRun(x));
  }

  /** A run of white space followed by the trailing white-space character of `s` is a run. */
  lemma {:induction false} RunThenTrailingSpace(s: seq<Byte>, n: nat, x: seq<Byte>, k: nat)
    requires n == TrailingSpace(s) > 0 && x == s[..|s| - n] && k <= |x|
    requires AllSpace(x[|x| - k..])
    ensures AllSpace(s[|s| - (n + k)..])
  {
    TrailingSpaceIsRun(s, n);
    AllSpaceConcat(x[|x| - k..], s[|s| - n..]);
    SuffixSplits(s, n, x, k);
  }

  /** The trailing white-space character of `s` is a run on its own. */
  lemma {:induction false} TrailingSpaceIsRun(s: seq<Byte>, n: nat)
    requires n == TrailingSpace(s) > 0
    ensures AllSpace(s[|s| - n..])
  {
    var c := s[|s| - n..];
    TrailingSpaceIsChar(s);
    assert c + [] == c;
    SpaceThenAllSpace(c, []);
  }

  lemma {:induction false} SuffixSplits(s: seq<Byte>, n: nat, x: seq<Byte>, k: nat)
    requires n <= |s| && x == s[..|s| - n] && k <= |x|
    ensures s[|s| - (n + k)..] == x[|x| - k..] + s[|s| - n..]
  {
  }

  /** `s` is `r`, found at offset `i`, with nothing but white space before and after it. */
  predicate SpaceAround(s: seq<Byte>, i: nat, r: seq<Byte>) {
    && i + |r| <= |s| && s[i..i + |r|] == r
    && AllSpace(s[..i]) && AllSpace(s[i + |r|..])
  }

  /**
   `str::trim`: what is removed before and after the result is white space,
   and the result neither starts nor ends with any. Matching encodings
   byte-wise strips exactly the white-space characters of a well-formed
   UTF-8 string, because none of the encodings above can begin or end in the
   middle of another character.
   */
  function Trim(s: seq<Byte>): (r: seq<Byte>)
    ensures LeadingSpace(r) == 0 && TrailingSpace(r) == 0
    ensures SpaceAround(s, LeadingRun(s), r)
  {
    var t := TrimStart(s);
    var r := TrimEnd(t);
    TrimSplits(s, LeadingRun(s), t, r);
    r
  }

  /** `TrimEnd(TrimStart(s))` cuts `s` into white space, text without padding, and white space. */
  lemma {:induction false} TrimSplits(s: seq<Byte>, i: nat, t: seq<Byte>, r: seq<Byte>)
    requires i == LeadingRun(s) && t == s[i..] && r == TrimEnd(t)
    ensures LeadingSpace(r) == 0 && TrailingSpace(r) == 0
    ensures SpaceAround(s, i, r)
  {
    TrimKeepsMiddle(s, i, t, r);
    TrimCutsLeadingSpace(s, i);
    TrimCutsTrailingSpace(s, i, t, |r|);
  }

  lemma {:induction false} TrimKeepsMiddle(s: seq<Byte>, i: nat, t: seq<Byte>, r: seq<Byte>)
    requires i == LeadingRun(s) && t == s[i..] && r == TrimEnd(t)
    ensures LeadingSpace(r) == 0 && TrailingSpace(r) == 0
    ensures i + |r| <= |s| && s[i..i + |r|] == r
    ensures |r| == |t| - TrailingRun(t)
  {
    LeadingRunIsMaximal(s);
    LeadingSpaceOfPrefix(t, |r|);
    PrefixOfSuffix(s, i, t, r);
  }

  lemma {:induction false} TrimCutsLeadingSpace(s: seq<Byte>, i: nat)
    requires i == LeadingRun(s)
    ensures AllSpace(s[..i])
  {
    LeadingRunIsSpace(s);
  }

  lemma {:induction false} TrimCutsTrailingSpace(s: seq<Byte>, i: nat, t: seq<Byte>, k: nat)
    requires i <= |s| && t == s[i..] && k == |t| - TrailingRun(t)
    ensures i + k <= |s| && AllSpace(s[i + k..])
  {
    TrailingRunIsSpace(t);
    SpaceAfterSuffix(s, i, t, k);
  }

  lemma {:induction false} PrefixOfSuffix(s: seq<Byte>, i: nat, t: seq<Byte>, r: seq<Byte>)
    requires i <= |s| && t == s[i..] && |r| <= |t| && r == t[..|r|]
    ensures r == s[i..i + |r|]
  {
  }

  lemma {:induction false} SpaceAfterSuffix(s: seq<Byte>, i: nat, t: seq<Byte>, k: nat)
    requires i <= |s| && t == s[i..] && k <= |t| && AllSpace(t[k..])
    ensures AllSpace(s[i + k..])
  {
    assert s[i + k..] == t[k..];
  }

  /** A prefix of a text that does not start with white space does not either. */
  lemma {:induction false} LeadingSpaceOfPrefix(t: seq<Byte>, k: nat)
    requires LeadingSpace(t) == 0 && k <= |t|
    ensures LeadingSpace(t[..k]) == 0
  {
    var r := t[..k];
    assert |r| > 0 ==> r[0] == t[0];
    assert |r| > 1 ==> r[1] == t[1];
    assert |r| > 2 ==> r[2] == t[2];
  }

  /** Text without surrounding white space is left as it is. */
  lemma {:induction false} TrimKeepsUnpadded(s: seq<Byte>)
    requires LeadingSpace(s) == 0 && TrailingSpace(s) == 0
    ensures Trim(s) == s
  {
    assert s[0..] == s;
    assert s[..|s|] == s;
  }

  /** Trimming twice is trimming once. */
  lemma {:induction false} TrimIdempotent(s: seq<Byte>)
    ensures Trim(Trim(s)) == Trim(s)
  {
    TrimKeepsUnpadded(Trim(s));
  }

  /** Leading white space is counted into the leading run whatever follows it. */
  lemma {:induction false} LeadingRunSkipsSpace(p: seq<Byte>, x: seq<Byte>)
    requires AllSpace(p)
    ensures LeadingRun(p + x) == |p| + LeadingRun(x)
    decreases |p|
  {
    if p == [] {
      assert p + x == x;
    } else {
      var n := LeadingSpace(p);
      LeadingSpaceIsChar(p);
      assert p + x == p[..n] + (p[n..] + x);
      SpaceCharStarts(p[..n], p[n..] + x);
      assert (p + x)[n..] == p[n..] + x;
      LeadingRunSkipsSpace(p[n..], x);
    }
  }

  /** A non-empty run of white space is a shorter run followed by one white-space character. */
  lemma {:induction false} AllSpaceLast(q: seq<Byte>) returns (k: nat)
    requires AllSpace(q) && q != []
    ensures 1 <= k <= |q| && IsSpaceChar(q[|q| - k..]) && AllSpace(q[..|q| - k])
    decreases |q|
  {
    var n := LeadingSpace(q);
    LeadingSpaceIsChar(q);
    if n == |q| {
      k := n;
      assert q[|q| - k..] == q[..n] && q[..|q| - k] == [];
    } else {
      k := AllSpaceLast(q[n..]);
      LastOfLonger(q, n, k);
    }
  }

  /** One step of `AllSpaceLast`: the last character of the rest of `q` is the last of `q`. */
  lemma {:induction false} LastOfLonger(q: seq<Byte>, n: nat, k: nat)
    requires 0 < n <= |q| && IsSpaceChar(q[..n])
    requires 1 <= k <= |q| - n
    requires IsSpaceChar(q[n..][|q| - n - k..]) && AllSpace(q[n..][..|q| - n - k])
    ensures IsSpaceChar(q[|q| - k..]) && AllSpace(q[..|q| - k])
  {
    SplitAroundLast(q, n, k);
    SpaceThenAllSpace(q[..n], q[n..][..|q| - n - k]);
  }

  lemma {:induction false} SplitAroundLast(q: seq<Byte>, n: nat, k: nat)
    requires n + k <= |q|
    ensures q[|q| - k..] == q[n..][|q| - n - k..]
    ensures q[..|q| - k] == q[..n] + q[n..][..|q| - n - k]
  {
  }

  /** Trailing white space is counted into the trailing run whatever precedes it. */
  lemma {:induction false} TrailingRunSkipsSpace(x: seq<Byte>, q: seq<Byte>)
    requires AllSpace(q)
    ensures TrailingRun(x + q) == |q| + TrailingRun(x)
    decreases |q|
  {
    if q == [] {
      assert x + q == x;
    } else {
      var k := AllSpaceLast(q);
      TrailingRunSkipsSpace(x, q[..|q| - k]);
      TrailingRunSkipsLast(x, q, k);
    }
  }

  /** The last white-space character of `q` adds its length to the trailing run of the rest. */
  lemma {:induction false} TrailingRunSkipsLast(x: seq<Byte>, q: seq<Byte>, k: nat)
    requires 1 <= k <= |q| && IsSpaceChar(q[|q| - k..])
    requires TrailingRun(x + q[..|q| - k]) == |q| - k + TrailingRun(x)
    ensures TrailingRun(x + q) == |q| + TrailingRun(x)
  {
    assert x + q == (x + q[..|q| - k]) + q[|q| - k..];
    TrailingRunStep(x + q[..|q| - k], q[|q| - k..]);
  }

  /** One step of `TrailingRunSkipsSpace`: a final white-space character is counted. */
  lemma {:induction false} TrailingRunStep(y: seq<Byte>, c: seq<Byte>)
    requires IsSpaceChar(c)
    ensures TrailingRun(y + c) == |c| + TrailingRun(y)
  {
    SpaceCharEnds(y, c);
    assert (y + c)[..|y + c| - |c|] == y;
  }

  /** Whether a well-formed text starts with white space is decided by its own bytes. */
  lemma {:induction false} LeadingSpaceOfValid(t: seq<Byte>, q: seq<Byte>)
    requires ValidUtf8(t) && t != []
    ensures LeadingSpace(t + q) == LeadingSpace(t)
  {
    var s := t + q;
    assert CharLength(t) > 0;
    assert s[0] == t[0];
    assert |t| >= 2 ==> s[1] == t[1];
    assert |t| >= 3 ==> s[2] == t[2];
  }

  /**
   `trim` returns exactly the well-formed, unpadded text between two runs of
   white space.
   */
  lemma {:induction false} TrimRemovesPadding(p: seq<Byte>, t: seq<Byte>, q: seq<Byte>)
    requires AllSpace(p) && AllSpace(q)
    requires ValidUtf8(t) && LeadingSpace(t) == 0 && TrailingSpace(t) == 0
    ensures Trim(p + t + q) == t
  {
    if t == [] {
      assert p + t + q == p + q;
      TrimOfSpace(p, q);
    } else {
      TrimOfPaddedText(p, t, q);
    }
  }

  /** `trim` of nothing but white space leaves nothing. */
  lemma {:induction false} TrimOfSpace(p: seq<Byte>, q: seq<Byte>)
    requires AllSpace(p) && AllSpace(q)
    ensures Trim(p + q) == []
  {
    TrimStartOfSpace(p, q);
  }

  /** `trim` of non-empty padded text leaves the text. */
  lemma {:induction false} TrimOfPaddedText(p: seq<Byte>, t: seq<Byte>, q: seq<Byte>)
    requires AllSpace(p) && AllSpace(q)
    requires ValidUtf8(t) && t != [] && LeadingSpace(t) == 0 && TrailingSpace(t) == 0
    ensures Trim(p + t + q) == t
  {
    TrimStartOfPadded(p, t, q);
    TrimEndOfPadded(t, q);
  }

  /** `trim_start` of nothing but white space leaves nothing. */
  lemma {:induction false} TrimStartOfSpace(p: seq<Byte>, q: seq<Byte>)
    requires AllSpace(p) && AllSpace(q)
    ensures TrimStart(p + q) == []
  {
    LeadingRunSkipsSpace(p, q);
    LeadingRunSkipsSpace(q, []);
    assert q + [] == q;
  }

  /** `trim_start` of padded text leaves the text and its trailing padding. */
  lemma {:induction false} TrimStartOfPadded(p: seq<Byte>, t: seq<Byte>, q: seq<Byte>)
    requires AllSpace(p)
    requires ValidUtf8(t) && t != [] && LeadingSpace(t) == 0
    ensures TrimStart(p + t + q) == t + q
  {
    assert p + t + q == p + (t + q);
    LeadingRunSkipsSpace(p, t + q);
    LeadingSpaceOfValid(t, q);
  }

  /** `trim_end` of text followed by white space leaves the text, when it does not end in white space. */
  lemma {:induction false} TrimEndOfPadded(t: seq<Byte>, q: seq<Byte>)
    requires AllSpace(q) && TrailingSpace(t) == 0
    ensures TrimEnd(t + q) == t
  {
    TrailingRunSkipsSpace(t, q);
    assert (t + q)[..|t|] == t;
  }

  /** One step of `AllSpaceIsValidText`: the first white-space character is a character, and not NUL. */
  lemma {:induction false} SpaceStepIsValid(p: seq<Byte>, x: seq<Byte>)
    requires LeadingSpace(p) > 0
    requires ValidUtf8(p[LeadingSpace(p)..] + x) && Nul !in p[LeadingSpace(p)..]
    ensures ValidUtf8(p + x) && Nul !in p
  {
    var k := LeadingSpace(p);
    LeadingSpaceIsChar(p);
    SpaceCharIsChar(p[..k]);
    ValidAfterChar(p[..k], p[k..] + x);
    SplitAt(p, x, k);
    NulFreeSplit(p, k);
  }

  lemma {:induction false} NulFreeSplit(p: seq<Byte>, k: nat)
    requires k <= |p| && Nul !in p[..k] && Nul !in p[k..]
    ensures Nul !in p
  {
    assert p == p[..k] + p[k..];
  }

  /** White space in front of a well-formed text keeps it well-formed, and holds no NUL. */
  lemma {:induction false} AllSpaceIsValidText(p: seq<Byte>, x: seq<Byte>)
    requires AllSpace(p) && ValidUtf8(x)
    ensures ValidUtf8(p + x) && Nul !in p
    decreases |p|
  {
    if p == [] {
      assert p + x == x;
    } else {
      var k := LeadingSpace(p);
      AllSpaceIsValidText(p[k..], x);
      SpaceStepIsValid(p, x);
    }
  }
}
