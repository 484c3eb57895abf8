/**
 The C side of the boundary: the integer widths the SDK uses, the casts the
 wrapper applies to them, and the two C-string rules (`CString::new` going in,
 `CStr::from_ptr` coming out).
 */
module CInterop {

  /** Rust's `Option`. */
  datatype Option<+T> = None | Some(value: T)

  /** One byte of a C `char` buffer, read as unsigned. */
  type Byte = b: int | 0 <= b < 0x100

  /** A C `int` / Rust `i32`. */
  type CInt = x: int | -0x8000_0000 <= x < 0x8000_0000

  /** A Rust `u16`. */
  type U16 = x: int | 0 <= x < 0x1_0000

  /** An opaque SDK handle (device, stream, recorder, callback registration). */
  type Handle = nat

  /** `usize` is 64 bits wide on the targets the wrapper is built for. */
  const UsizeModulus: int := 0x1_0000_0000_0000_0000

  const Nul: Byte := 0

  /** Rust's `x as u16`: keeps the low 16 bits of the two's-complement value. */
  function AsU16(x: int): (r: U16)
    ensures (x - r) % 0x1_0000 == 0
    ensures 0 <= x < 0x1_0000 ==> r == x
  {
    x % 0x1_0000
  }

  /** An `i32` expression in a release build: the exact value wrapped into the `i32` range. */
  function WrapI32(x: int): (r: CInt)
    ensures (x - r) % 0x1_0000_0000 == 0
    ensures -0x8000_0000 <= x < 0x8000_0000 ==> r == x
  {
    var m := x % 0x1_0000_0000;
    if m < 0x8000_0000 then m else m - 0x1_0000_0000
  }

  /** Rust's `c_int as usize` on a 64-bit target: sign extension, read as unsigned. */
  function AsUsize(x: CInt): (r: nat)
    ensures r < UsizeModulus
    ensures (r - x) % UsizeModulus == 0
    ensures x >= 0 ==> r == x
  {
    x % UsizeModulus
  }

  /** `usize` multiplication in a release build, which wraps modulo 2^64. */
  function MulUsize(a: nat, b: nat): (r: nat)
    ensures r < UsizeModulus
    ensures (a * b - r) % UsizeModulus == 0
    ensures a * b < UsizeModulus ==> r == a * b
  {
    (a * b) % UsizeModulus
  }

  /** `if b { 1 } else { 0 }`: a Rust `bool` handed to C as an `int`. */
  function FlagCode(on: bool): (c: CInt)
    ensures c == 1 <==> on
    ensures c == 0 <==> !on
  {
    if on then 1 else 0
  }

  /**
   `CString::new`: a string holding a NUL byte is rejected; any other string is
   handed to C as its bytes followed by a single terminating NUL.
   */
  function CStringNew(s: seq<Byte>): (r: Option<seq<Byte>>)
    ensures r.None? <==> Nul in s
    ensures r.Some? ==> |r.value| == |s| + 1 && r.value[..|s|] == s && r.value[|s|] == Nul
  {
    if Nul in s then None else Some(s + [Nul])
  }

  /** Position of the first `b` in `s`, or `|s|` when it holds none. */
  function IndexOf(s: seq<Byte>, b: Byte): (k: nat)
    ensures k <= |s|
    ensures k < |s| ==> s[k] == b
    ensures forall i :: 0 <= i < k ==> s[i] != b
  {
    if s == [] then 0
    else if s[0] == b then 0
    else 1 + IndexOf(s[1..], b)
  }

  /** In `a + [b] + rest`, where `a` holds no `b`, the first `b` is the one after `a`. */
  lemma IndexOfAfter(a: seq<Byte>, b: Byte, rest: seq<Byte>)
    requires b !in a
    ensures IndexOf(a + [b] + rest, b) == |a|
  {
    var s := a + [b] + rest;
    assert s[|a|] == b;
    assert forall i :: 0 <= i < |a| ==> s[i] == a[i];
  }

  /** `CStr::from_ptr` applied to a buffer that holds a terminator: the bytes before the first NUL. */
  function CStrFrom(buf: seq<Byte>): (r: seq<Byte>)
    requires Nul in buf
    ensures Nul !in r
    ensures |r| < |buf| && buf[..|r|] == r && buf[|r|] == Nul
  {
    buf[..IndexOf(buf, Nul)]
  }

  /** What C reads back from a string the wrapper encoded is the original string. */
  lemma CStringRoundTrip(s: seq<Byte>)
    requires Nul !in s
    ensures CStringNew(s).Some?
    ensures CStrFrom(CStringNew(s).value) == s
  {
    var buf := CStringNew(s).value;
    IndexOfAfter(s, Nul, []);
    assert buf == s + [Nul] + [];
  }

  /**
   A terminated buffer decodes to its prefix before the first NUL, and two
   buffers that agree up to and including that terminator decode alike.
   */
  lemma {:induction false} CStrDependsOnlyOnPrefix(a: seq<Byte>, b: seq<Byte>, k: nat)
    requires k < |a| && k < |b| && a[k] == Nul
    requires a[..k + 1] == b[..k + 1]
    ensures CStrFrom(a) == CStrFrom(b)
    ensures |CStrFrom(a)| <= k
  {
    assert forall i :: 0 <= i <= k ==> a[i] == a[..k + 1][i] == b[..k + 1][i] == b[i];
    assert IndexOf(a, Nul) == IndexOf(b, Nul);
  }
}
