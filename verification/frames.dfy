/**
 A frame read from a stream (frame.rs): the native `OniFrame` it borrows, its
 dimensions truncated to `u16`, and the typed view `pixels` gives of its
 buffer once two size assertions pass.
 */
module Frames {
  import opened CInterop
  import opened Oni
  import opened Types

  /** `Frame<'a, P>`. */
  datatype Frame = Frame(native: OniFrame, width: U16, height: U16, pixel: PixelType)

  /** `Frame::from_pointer`: keeps the native frame and casts its dimensions with `as u16`. */
  function FromPointer(native: OniFrame, pixel: PixelType): (f: Frame)
    ensures f.native == native && f.pixel == pixel
    ensures (native.width - f.width) % 0x1_0000 == 0 && (native.height - f.height) % 0x1_0000 == 0
    ensures 0 <= native.width < 0x1_0000 ==> f.width == native.width
    ensures 0 <= native.height < 0x1_0000 ==> f.height == native.height
  {
    Frame(native, AsU16(native.width), AsU16(native.height), pixel)
  }

  /** `Frame::video_mode`: the native video mode, decoded (an unknown pixel format panics). */
  function FrameVideoMode(f: Frame): (v: VideoMode)
    requires IsDecodableMode(f.native.videoMode)
    ensures VideoModeToOni(v) == f.native.videoMode
  {
    VideoModeFromOni(f.native.videoMode)
  }

  /** Which assertion of `Frame::pixels` fails, with the two values it compared. */
  datatype Mismatch =
    | TypeSize(declared: nat, reported: nat)
    | Dimensions(width: int, height: int)
    | DataSize(actual: int, expected: int)

  /** The outcome of code guarded by assertions: the value, or the failed assertion (a panic). */
  datatype Checked<T> = Passed(value: T) | Asserted(failure: Mismatch)

  /** The pixel format the frame's video mode reports. */
  function ReportedFormat(f: Frame): PixelFormat
    requires IsPixelFormatCode(f.native.videoMode.pixelFormat)
  {
    PixelFormatFromInt(f.native.videoMode.pixelFormat)
  }

  // ---------------------------------------------------------------------------
  // `pixels` as written

  /**
   The checks of `Frame::pixels` as written, with every `as usize` cast and
   product in wrapping 64-bit arithmetic; on success, the element count the
   slice over `data` is given.
   */
  function PixelCountAsWritten(f: Frame): (r: Checked<nat>)
    requires IsPixelFormatCode(f.native.videoMode.pixelFormat)
    ensures r.Passed? <==>
      && f.pixel.size == BytesPerPixel(ReportedFormat(f))
      && AsUsize(f.native.dataSize) == MulUsize(MulUsize(AsUsize(f.native.width), AsUsize(f.native.height)), f.pixel.size)
    ensures r.Passed? ==> r.value == MulUsize(AsUsize(f.native.width), AsUsize(f.native.height))
  {
    var pixelSize := BytesPerPixel(ReportedFormat(f));
    if f.pixel.size != pixelSize then Asserted(TypeSize(f.pixel.size, pixelSize))
    else
      var numPixels := MulUsize(AsUsize(f.native.width), AsUsize(f.native.height));
      var expected := MulUsize(numPixels, pixelSize);
      if AsUsize(f.native.dataSize) != expected then Asserted(DataSize(AsUsize(f.native.dataSize), expected))
      else Passed(numPixels)
  }

  /**
   A frame with an empty buffer, a correctly declared size of zero and both
   dimensions equal to `i32::MIN` passes both assertions with a four-byte
   format: the slice it yields claims 2^62 pixels.
   */
  lemma PixelsAsWrittenOverrunsBuffer()
    ensures var native := OniFrame(0, [], -0x8000_0000, -0x8000_0000, OniVideoMode(PixelFormatYuv422, 640, 480, 30));
      var f := FromPointer(native, PixelType(Yuv422, 4));
      && |native.data| == native.dataSize == 0
      && PixelCountAsWritten(f) == Passed(0x4000_0000_0000_0000)
  {
    var native := OniFrame(0, [], -0x8000_0000, -0x8000_0000, OniVideoMode(PixelFormatYuv422, 640, 480, 30));
    var f := FromPointer(native, PixelType(Yuv422, 4));
    var side := AsUsize(-0x8000_0000);
    assert side == 0xFFFF_FFFF_8000_0000;
    assert side * side == 0xFFFF_FFFF_0000_0000_4000_0000_0000_0000;
    assert MulUsize(side, side) == 0x4000_0000_0000_0000;
    assert MulUsize(0x4000_0000_0000_0000, 4) == 0;
  }

  // ---------------------------------------------------------------------------
  // `pixels` as intended

  /** What the SDK promises of a frame it hands out: `dataSize` is the length of `data`. */
  predicate WellFormed(native: OniFrame) {
    native.dataSize == |native.data|
  }

  /** `data` cut into `n` consecutive `k`-byte pieces: its elements when read as `k`-byte pixels. */
  function Chunks(data: seq<Byte>, k: nat, n: nat): (r: seq<seq<Byte>>)
    requires |data| == n * k
    ensures |r| == n
    ensures forall i :: 0 <= i < n ==> |r[i]| == k
  {
    if n == 0 then []
    else
      assert |data[k..]| == (n - 1) * k;
      [data[..k]] + Chunks(data[k..], k, n - 1)
  }

  function Flatten(xs: seq<seq<Byte>>): seq<Byte> {
    if xs == [] then [] else xs[0] + Flatten(xs[1..])
  }

  /** Reading the buffer as pixels loses and adds nothing: the pixels laid end to end are the buffer. */
  lemma {:induction false} FlattenChunks(data: seq<Byte>, k: nat, n: nat)
    requires |data| == n * k
    ensures Flatten(Chunks(data, k, n)) == data
  {
    if n > 0 {
      assert |data[k..]| == (n - 1) * k;
      var r := Chunks(data, k, n);
      assert r[1..] == Chunks(data[k..], k, n - 1);
      FlattenChunks(data[k..], k, n - 1);
    }
  }

  /**
   `Frame::pixels` with the arithmetic its assertions evidently intend: the
   type parameter's size must match the reported pixel size, the dimensions
   must describe a real image, and the exact product of dimensions and pixel
   size must be the declared byte size; the result is the buffer read as
   `width * height` pixels.
   */
  function Pixels(f: Frame): (r: Checked<seq<seq<Byte>>>)
    requires IsPixelFormatCode(f.native.videoMode.pixelFormat)
    requires WellFormed(f.native)
    ensures r.Passed? <==>
      && f.pixel.size == BytesPerPixel(ReportedFormat(f))
      && f.native.width >= 0 && f.native.height >= 0
      && f.native.width * f.native.height * f.pixel.size == f.native.dataSize
    ensures r.Asserted? && r.failure.TypeSize? <==> f.pixel.size != BytesPerPixel(ReportedFormat(f))
    ensures r.Passed? ==>
      && |r.value| == f.native.width * f.native.height
      && (forall i :: 0 <= i < |r.value| ==> |r.value[i]| == f.pixel.size)
      && Flatten(r.value) == f.native.data
  {
    var pixelSize := BytesPerPixel(ReportedFormat(f));
    var w := f.native.width;
    var h := f.native.height;
    if f.pixel.size != pixelSize then Asserted(TypeSize(f.pixel.size, pixelSize))
    else if w < 0 || h < 0 then Asserted(Dimensions(w, h))
    else if w * h * pixelSize != f.native.dataSize then Asserted(DataSize(f.native.dataSize, w * h * pixelSize))
    else
      var data := f.native.data;
      FlattenChunks(data, pixelSize, w * h);
      Passed(Chunks(data, pixelSize, w * h))
  }

  lemma MulMonotone(a: nat, b: nat, c: nat)
    requires a <= c && b <= c
    ensures 0 <= a * b <= c * c
  {
    assert a * b <= c * b;
    assert c * b <= c * c;
  }

  /**
   On frames whose dimensions are not negative nothing wraps: the checks as
   written accept exactly the frames the intended checks accept, and give the
   same pixel count.
   */
  lemma PixelsAgreeOnNonNegativeDimensions(f: Frame)
    requires IsPixelFormatCode(f.native.videoMode.pixelFormat)
    requires WellFormed(f.native)
    requires f.native.width >= 0 && f.native.height >= 0
    ensures PixelCountAsWritten(f).Passed? <==> Pixels(f).Passed?
    ensures Pixels(f).Passed? ==> PixelCountAsWritten(f).value == |Pixels(f).value|
  {
    if f.pixel.size == BytesPerPixel(ReportedFormat(f)) {
      FitsUsize(f.native.width, f.native.height, f.pixel.size);
    }
  }

  /** Products of two non-negative `i32` values and a pixel size stay below 2^64. */
  lemma FitsUsize(w: nat, h: nat, k: nat)
    requires w < 0x8000_0000 && h < 0x8000_0000 && k <= 4
    ensures w * h < UsizeModulus && w * h * k < UsizeModulus
  {
    MulMonotone(w, h, 0x7FFF_FFFF);
    FourTimesFits(w * h);
    ScaleBelowFour(w * h, k);
  }

  lemma FourTimesFits(n: nat)
    requires n <= 0x7FFF_FFFF * 0x7FFF_FFFF
    ensures n < UsizeModulus && n * 4 < UsizeModulus
  {
  }

  lemma ScaleBelowFour(n: nat, k: nat)
    requires k <= 4
    ensures 0 <= n * k <= n * 4
  {
  }

  /** `Frame::pixels_owned`: a copy of `pixels`, element by element. */
  method PixelsOwned(f: Frame) returns (r: Checked<seq<seq<Byte>>>)
    requires IsPixelFormatCode(f.native.videoMode.pixelFormat)
    requires WellFormed(f.native)
    ensures r.Passed? <==> Pixels(f).Passed?
    ensures r.Passed? ==> r.value == Pixels(f).value
    ensures r.Asserted? ==> r.failure == Pixels(f).failure
  {
    var view := Pixels(f);
    if view.Asserted? {
      return Asserted(view.failure);
    }
    var px := view.value;
    var owned: seq<seq<Byte>> := [];
    var i := 0;
    while i < |px|
      invariant 0 <= i <= |px|
      invariant owned == px[..i]
    {
      owned := owned + [px[i]];
      i := i + 1;
    }
    assert px[..|px|] == px;
    return Passed(owned);
  }
}
