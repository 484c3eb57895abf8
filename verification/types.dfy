/**
 The wrapper's value types (types.rs): `Status` and how a native status code
 becomes one, the code-backed enumerations with their `from_int` decoders,
 pixel sizes, `VideoMode`, `Version` and `SensorInfo`; plus the result shapes
 every wrapper operation shares.
 */
module Types {
  import opened CInterop
  import opened Oni
  import opened Text
  import opened Whitespace
  import opened Trimming

  // ---------------------------------------------------------------------------
  // Status

  datatype Status =
    | Ok
    | Error(message: seq<Byte>)
    | NotImplemented
    | NotSupported
    | BadParameter
    | OutOfFlow
    | NoDevice
    | TimeOut

  /** Rust's `Result<T, Status>`. */
  datatype Result<T> = Success(value: T) | Failure(error: Status)

  /** What one wrapper operation returns, together with the SDK calls it issued, in order. */
  datatype Step<T> = Step(result: T, calls: seq<NativeCall>)

  const UnknownError: seq<Byte> := Ascii("Unknown error")

  /**
   `get_extended_error`: the C string the SDK's error buffer holds; when it is
   well-formed UTF-8 it is returned trimmed (only white space is cut from
   either end, and none is left there), otherwise "Unknown error".
   */
  function ExtendedError(lastError: seq<Byte>): (r: seq<Byte>)
    ensures var text := CStrFrom(lastError + [Nul]);
      && (ValidUtf8(text) ==>
            && LeadingSpace(r) == 0 && TrailingSpace(r) == 0
            && SpaceAround(text, LeadingRun(text), r))
      && (!ValidUtf8(text) ==> r == UnknownError)
  {
    var buf := lastError + [Nul];
    assert buf[|lastError|] == Nul;
    var text := CStrFrom(buf);
    if ValidUtf8(text) then Trim(text) else UnknownError
  }

  /** A well-formed error text without a NUL and without surrounding white space reaches the caller unchanged. */
  lemma {:induction false} ExtendedErrorKeepsCleanText(text: seq<Byte>, rest: seq<Byte>)
    requires Nul !in text && ValidUtf8(text)
    requires LeadingSpace(text) == 0 && TrailingSpace(text) == 0
    ensures ExtendedError(text + [Nul] + rest) == text
  {
    ExtendedErrorTrimsPadding([], text, [], rest);
    assert [] + text + [] == text;
  }

  /**
   A well-formed error text padded with white space reaches the caller without
   its padding, whatever follows its NUL.
   */
  lemma {:induction false} ExtendedErrorTrimsPadding(p: seq<Byte>, text: seq<Byte>, q: seq<Byte>, rest: seq<Byte>)
    requires AllSpace(p) && AllSpace(q)
    requires Nul !in text && ValidUtf8(text)
    requires LeadingSpace(text) == 0 && TrailingSpace(text) == 0
    ensures ExtendedError(p + text + q + [Nul] + rest) == text
  {
    var message := p + text + q;
    PaddedTextIsValid(p, text, q);
    ErrorBufferHoldsMessage(message, rest);
    TrimRemovesPadding(p, text, q);
  }

  /** White space around well-formed text without a NUL keeps it well-formed and without a NUL. */
  lemma {:induction false} PaddedTextIsValid(p: seq<Byte>, text: seq<Byte>, q: seq<Byte>)
    requires AllSpace(p) && AllSpace(q)
    requires Nul !in text && ValidUtf8(text)
    ensures ValidUtf8(p + text + q) && Nul !in p + text + q
  {
    var tail := text + q;
    SpaceAfterValidText(text, q);
    AllSpaceIsValidText(p, tail);
    NulFreeJoin(p, text, q);
  }

  lemma {:induction false} SpaceAfterValidText(text: seq<Byte>, q: seq<Byte>)
    requires AllSpace(q) && ValidUtf8(text)
    ensures ValidUtf8(text + q) && Nul !in q
  {
    AllSpaceIsValidText(q, []);
    assert q + [] == q;
    ValidUtf8Concat(text, q);
  }

  lemma {:induction false} NulFreeJoin(p: seq<Byte>, text: seq<Byte>, q: seq<Byte>)
    requires Nul !in p && Nul !in text && Nul !in q
    ensures p + text + q == p + (text + q) && Nul !in p + text + q
  {
  }

  /** The error buffer, terminated once more by `get_extended_error`, reads back as the message before its first NUL. */
  lemma {:induction false} ErrorBufferHoldsMessage(message: seq<Byte>, rest: seq<Byte>)
    requires Nul !in message
    ensures CStrFrom(message + [Nul] + rest + [Nul]) == message
  {
    assert message + [Nul] + rest + [Nul] == message + [Nul] + (rest + [Nul]);
    IndexOfAfter(message, Nul, rest + [Nul]);
  }

  const UnknownStatusPrefix: seq<Byte> := Ascii("Unknown status code ")

  /** The OniStatus codes `Status::from_int` names. */
  predicate IsStatusCode(code: CInt) {
    || code == StatusOk || code == StatusError || code == StatusNotImplemented
    || code == StatusNotSupported || code == StatusBadParameter || code == StatusOutOfFlow
    || code == StatusNoDevice || code == StatusTimeOut
  }

  /**
   `Status::from_int`. `lastError` is the SDK's error buffer, read only for
   ONI_STATUS_ERROR; a code the wrapper does not know becomes an `Error`
   naming the code.
   */
  function StatusFromInt(code: CInt, lastError: seq<Byte>): (r: Status)
    ensures r.Ok? <==> code == StatusOk
    ensures r.NotImplemented? <==> code == StatusNotImplemented
    ensures r.NotSupported? <==> code == StatusNotSupported
    ensures r.BadParameter? <==> code == StatusBadParameter
    ensures r.OutOfFlow? <==> code == StatusOutOfFlow
    ensures r.NoDevice? <==> code == StatusNoDevice
    ensures r.TimeOut? <==> code == StatusTimeOut
    ensures r.Error? <==> code == StatusError || !IsStatusCode(code)
    ensures code == StatusError ==> r == Error(ExtendedError(lastError))
    ensures !IsStatusCode(code) ==> r == Error(UnknownStatusPrefix + Decimal(code))
  {
    if code == StatusOk then Ok
    else if code == StatusError then Error(ExtendedError(lastError))
    else if code == StatusNotImplemented then NotImplemented
    else if code == StatusNotSupported then NotSupported
    else if code == StatusBadParameter then BadParameter
    else if code == StatusOutOfFlow then OutOfFlow
    else if code == StatusNoDevice then NoDevice
    else if code == StatusTimeOut then TimeOut
    else Error(UnknownStatusPrefix + Decimal(code))
  }

  /** The message of an unknown status names the code exactly: it can be read back from the text. */
  lemma UnknownStatusNamesCode(code: CInt, lastError: seq<Byte>)
    requires !IsStatusCode(code)
    ensures var r := StatusFromInt(code, lastError);
      r.Error? && |r.message| > |UnknownStatusPrefix|
      && r.message[..|UnknownStatusPrefix|] == UnknownStatusPrefix
      && ParseDecimal(r.message[|UnknownStatusPrefix|..]) == Some(code as int)
  {
    var m := UnknownStatusPrefix + Decimal(code);
    assert m[|UnknownStatusPrefix|..] == Decimal(code);
    DecimalRoundTrip(code);
  }

  /**
   Two different codes, neither of them ONI_STATUS_ERROR (whose message comes
   from the SDK), never give the same `Status`.
   */
  lemma StatusFromIntSeparatesCodes(c1: CInt, c2: CInt, e1: seq<Byte>, e2: seq<Byte>)
    requires c1 != StatusError && c2 != StatusError && c1 != c2
    ensures StatusFromInt(c1, e1) != StatusFromInt(c2, e2)
  {
    if !IsStatusCode(c1) && !IsStatusCode(c2) {
      var m1 := UnknownStatusPrefix + Decimal(c1);
      var m2 := UnknownStatusPrefix + Decimal(c2);
      assert m1[|UnknownStatusPrefix|..] == Decimal(c1);
      assert m2[|UnknownStatusPrefix|..] == Decimal(c2);
      if m1 == m2 {
        DecimalInjective(c1, c2);
      }
    }
  }

  /** The text `Display` shows after the prefix. */
  function StatusText(s: Status): seq<Byte> {
    match s
    case Ok => Ascii("Ok")
    case Error(m) => m
    case NotImplemented => Ascii("Not implemented")
    case NotSupported => Ascii("Not supported")
    case BadParameter => Ascii("Bad parameter")
    case OutOfFlow => Ascii("Out of flow")
    case NoDevice => Ascii("No device")
    case TimeOut => Ascii("Timeout")
  }

  const DisplayPrefix: seq<Byte> := Ascii("OpenNI2 error: ")

  /** `impl Display for Status`: "OpenNI2 error: " and the status text; an `Error` shows its message verbatim. */
  function DisplayStatus(s: Status): (r: seq<Byte>)
    ensures |r| >= |DisplayPrefix| && r[..|DisplayPrefix|] == DisplayPrefix
    ensures s.Error? ==> r[|DisplayPrefix|..] == s.message
  {
    DisplayPrefix + StatusText(s)
  }

  /** The seven fixed texts are pairwise different, so the display tells those statuses apart. */
  lemma DisplaySeparatesFixedStatuses(s: Status, t: Status)
    requires !s.Error? && !t.Error? && s != t
    ensures DisplayStatus(s) != DisplayStatus(t)
  {
    var x := StatusText(s);
    var y := StatusText(t);
    if |x| == |y| {
      assert x[0] != y[0];
    }
    assert (DisplayPrefix + x)[|DisplayPrefix|..] == x;
    assert (DisplayPrefix + y)[|DisplayPrefix|..] == y;
  }

  /**
   `match status.into() { Status::Ok => Ok(v), e => Err(e) }`, the pattern
   every wrapper operation ends with.
   */
  function ToResult<T>(code: CInt, lastError: seq<Byte>, v: T): (r: Result<T>)
    ensures r.Success? <==> code == StatusOk
    ensures r.Success? ==> r.value == v
    ensures r.Failure? ==> r.error == StatusFromInt(code, lastError)
  {
    if code == StatusOk then Success(v) else Failure(StatusFromInt(code, lastError))
  }

  /** `calls` is one call to `call`, followed by the error-text query when its status was ONI_STATUS_ERROR. */
  predicate Issues(calls: seq<NativeCall>, call: NativeCall) {
    calls == [call] || calls == [call, GetExtendedError]
  }

  /** The calls behind one status-returning SDK call converted with `.into()`. */
  function CallsFor(call: NativeCall, code: CInt): (calls: seq<NativeCall>)
    ensures Issues(calls, call)
    ensures |calls| == 2 <==> code == StatusError
  {
    if code == StatusError then [call, GetExtendedError] else [call]
  }

  // ---------------------------------------------------------------------------
  // Code-backed enumerations

  datatype SensorType = IR | Color | Depth {
    function Code(): CInt {
      match this
      case IR => SensorIr
      case Color => SensorColor
      case Depth => SensorDepth
    }
  }

  predicate IsSensorTypeCode(c: CInt) {
    c == SensorIr || c == SensorColor || c == SensorDepth
  }

  /** `SensorType::from_int`; any other code panics. */
  function SensorTypeFromInt(c: CInt): (t: SensorType)
    requires IsSensorTypeCode(c)
    ensures t.Code() == c
  {
    if c == SensorIr then IR else if c == SensorColor then Color else Depth
  }

  lemma SensorTypeRoundTrip(t: SensorType)
    ensures IsSensorTypeCode(t.Code()) && SensorTypeFromInt(t.Code()) == t
  {
  }

  datatype PixelFormat =
    | Depth1Mm | Depth100Um | Shift92 | Shift93
    | Rgb888 | Yuv422 | Gray8 | Gray16 | Jpeg | Yuyv
  {
    function Code(): CInt {
      match this
      case Depth1Mm => PixelFormatDepth1Mm
      case Depth100Um => PixelFormatDepth100Um
      case Shift92 => PixelFormatShift92
      case Shift93 => PixelFormatShift93
      case Rgb888 => PixelFormatRgb888
      case Yuv422 => PixelFormatYuv422
      case Gray8 => PixelFormatGray8
      case Gray16 => PixelFormatGray16
      case Jpeg => PixelFormatJpeg
      case Yuyv => PixelFormatYuyv
    }

    /** The four depth formats of the enumeration's first group. */
    predicate IsDepth() {
      this == Depth1Mm || this == Depth100Um || this == Shift92 || this == Shift93
    }
  }

  predicate IsPixelFormatCode(c: CInt) {
    PixelFormatDepth1Mm <= c <= PixelFormatShift93 || PixelFormatRgb888 <= c <= PixelFormatYuyv
  }

  /** `PixelFormat::from_int`; any other code panics. */
  function PixelFormatFromInt(c: CInt): (f: PixelFormat)
    requires IsPixelFormatCode(c)
    ensures f.Code() == c
  {
    if c == PixelFormatDepth1Mm then Depth1Mm
    else if c == PixelFormatDepth100Um then Depth100Um
    else if c == PixelFormatShift92 then Shift92
    else if c == PixelFormatShift93 then Shift93
    else if c == PixelFormatRgb888 then Rgb888
    else if c == PixelFormatYuv422 then Yuv422
    else if c == PixelFormatGray8 then Gray8
    else if c == PixelFormatGray16 then Gray16
    else if c == PixelFormatJpeg then Jpeg
    else Yuyv
  }

  lemma PixelFormatRoundTrip(f: PixelFormat)
    ensures IsPixelFormatCode(f.Code()) && PixelFormatFromInt(f.Code()) == f
  {
  }

  /** `bytes_per_pixel`: the width of one pixel of each format, in bytes. */
  function BytesPerPixel(f: PixelFormat): (n: nat)
    ensures 1 <= n <= 4
    ensures n == 1 <==> f == Gray8 || f == Jpeg
    ensures n == 2 <==> f.IsDepth() || f == Gray16
    ensures n == 3 <==> f == Rgb888
    ensures n == 4 <==> f == Yuv422 || f == Yuyv
  {
    match f
    case Depth1Mm => 2
    case Depth100Um => 2
    case Shift92 => 2
    case Shift93 => 2
    case Rgb888 => 3
    case Yuv422 => 4
    case Gray8 => 1
    case Gray16 => 2
    case Jpeg => 1
    case Yuyv => 4
  }

  datatype DeviceState = DeviceOk | DeviceError | DeviceNotReady | DeviceEof {
    function Code(): CInt {
      match this
      case DeviceOk => DeviceStateOk
      case DeviceError => DeviceStateError
      case DeviceNotReady => DeviceStateNotReady
      case DeviceEof => DeviceStateEof
    }
  }

  predicate IsDeviceStateCode(c: CInt) {
    DeviceStateOk <= c <= DeviceStateEof
  }

  /** `DeviceState::from_int`; any other code panics. */
  function DeviceStateFromInt(c: CInt): (s: DeviceState)
    requires IsDeviceStateCode(c)
    ensures s.Code() == c
  {
    if c == DeviceStateOk then DeviceOk
    else if c == DeviceStateError then DeviceError
    else if c == DeviceStateNotReady then DeviceNotReady
    else DeviceEof
  }

  lemma DeviceStateRoundTrip(s: DeviceState)
    ensures IsDeviceStateCode(s.Code()) && DeviceStateFromInt(s.Code()) == s
  {
  }

  datatype ImageRegistrationMode = RegistrationOff | DepthToColor {
    function Code(): CInt {
      match this
      case RegistrationOff => ImageRegistrationOff
      case DepthToColor => ImageRegistrationDepthToColor
    }
  }

  predicate IsImageRegistrationCode(c: CInt) {
    c == ImageRegistrationOff || c == ImageRegistrationDepthToColor
  }

  /** `ImageRegistrationMode::from_int`; any other code panics. */
  function ImageRegistrationFromInt(c: CInt): (m: ImageRegistrationMode)
    requires IsImageRegistrationCode(c)
    ensures m.Code() == c
  {
    if c == ImageRegistrationOff then RegistrationOff else DepthToColor
  }

  lemma ImageRegistrationRoundTrip(m: ImageRegistrationMode)
    ensures IsImageRegistrationCode(m.Code()) && ImageRegistrationFromInt(m.Code()) == m
  {
  }

  datatype Timeout = TimeoutNone | TimeoutForever {
    function Code(): CInt {
      match this
      case TimeoutNone => TimeoutNoneCode
      case TimeoutForever => TimeoutForeverCode
    }
  }

  predicate IsTimeoutCode(c: CInt) {
    c == TimeoutNoneCode || c == TimeoutForeverCode
  }

  /** `Timeout::from_int`; any other code panics. */
  function TimeoutFromInt(c: CInt): (t: Timeout)
    requires IsTimeoutCode(c)
    ensures t.Code() == c
  {
    if c == TimeoutNoneCode then TimeoutNone else TimeoutForever
  }

  lemma TimeoutRoundTrip(t: Timeout)
    ensures IsTimeoutCode(t.Code()) && TimeoutFromInt(t.Code()) == t
  {
  }

  /** `LogLevel`, whose discriminants are the severities passed to the SDK. */
  datatype LogLevel = LogNone | LogVerbose | LogInfo | LogWarning | LogError {
    function Code(): CInt {
      match this
      case LogNone => 10
      case LogVerbose => 0
      case LogInfo => 1
      case LogWarning => 2
      case LogError => 3
    }
  }

  /** Different levels reach the SDK as different severities. */
  lemma LogLevelCodesDistinct(a: LogLevel, b: LogLevel)
    requires a != b
    ensures a.Code() != b.Code()
  {
  }

  // ---------------------------------------------------------------------------
  // Pixel types

  /**
   A stream's pixel type parameter `P`: a pixel format and `size_of::<P>()`.
   `trait Pixel` attaches no format to its types, so the format is a free
   parameter, unrelated to the size.
   */
  datatype PixelType = PixelType(format: PixelFormat, size: nat)

  // ---------------------------------------------------------------------------
  // Video modes, versions, sensor info

  datatype VideoMode = VideoMode(pixelFormat: PixelFormat, resolutionX: CInt, resolutionY: CInt, fps: CInt)

  predicate IsDecodableMode(m: OniVideoMode) {
    IsPixelFormatCode(m.pixelFormat)
  }

  /** `impl From<OniVideoMode> for VideoMode`: the pixel format is decoded, the other fields copied. */
  function VideoModeFromOni(m: OniVideoMode): (v: VideoMode)
    requires IsDecodableMode(m)
    ensures v.pixelFormat.Code() == m.pixelFormat
    ensures v.resolutionX == m.resolutionX && v.resolutionY == m.resolutionY && v.fps == m.fps
  {
    VideoMode(PixelFormatFromInt(m.pixelFormat), m.resolutionX, m.resolutionY, m.fps)
  }

  /** The native struct a `VideoMode` stands for. */
  function VideoModeToOni(v: VideoMode): (m: OniVideoMode)
    ensures IsDecodableMode(m) && m.pixelFormat == v.pixelFormat.Code()
    ensures m.resolutionX == v.resolutionX && m.resolutionY == v.resolutionY && m.fps == v.fps
  {
    OniVideoMode(v.pixelFormat.Code(), v.resolutionX, v.resolutionY, v.fps)
  }

  lemma VideoModeRoundTrip(v: VideoMode)
    ensures VideoModeFromOni(VideoModeToOni(v)) == v
  {
    PixelFormatRoundTrip(v.pixelFormat);
  }

  lemma OniVideoModeRoundTrip(m: OniVideoMode)
    requires IsDecodableMode(m)
    ensures VideoModeToOni(VideoModeFromOni(m)) == m
  {
  }

  /** `.iter().map(|&mode| mode.into()).collect()` over a run of native video modes. */
  function DecodeVideoModes(ms: seq<OniVideoMode>): (vs: seq<VideoMode>)
    requires forall i :: 0 <= i < |ms| ==> IsDecodableMode(ms[i])
    ensures |vs| == |ms|
    ensures forall i :: 0 <= i < |ms| ==> vs[i] == VideoModeFromOni(ms[i])
  {
    if ms == [] then [] else [VideoModeFromOni(ms[0])] + DecodeVideoModes(ms[1..])
  }

  /** Re-encoding the decoded list gives back the native list. */
  lemma {:induction false} DecodeVideoModesRoundTrip(ms: seq<OniVideoMode>)
    requires forall i :: 0 <= i < |ms| ==> IsDecodableMode(ms[i])
    ensures forall i :: 0 <= i < |ms| ==> VideoModeToOni(DecodeVideoModes(ms)[i]) == ms[i]
  {
    var vs := DecodeVideoModes(ms);
    forall i | 0 <= i < |ms|
      ensures VideoModeToOni(vs[i]) == ms[i]
    {
      OniVideoModeRoundTrip(ms[i]);
    }
  }

  /** The `SensorInfo` the wrapper returns. */
  datatype SensorInfo = SensorInfo(sensorType: SensorType, videoModes: seq<VideoMode>)

  /**
   What the SDK promises of a sensor info it returns: the count is not
   negative, that many video modes are readable behind the pointer (so it is
   not null, which the wrapper asserts), and each has a known pixel format
   (otherwise decoding panics).
   */
  predicate ValidSensorInfo(info: OniSensorInfo) {
    && 0 <= info.numSupportedVideoModes <= |info.supportedVideoModes|
    && forall i :: 0 <= i < info.numSupportedVideoModes ==> IsDecodableMode(info.supportedVideoModes[i])
  }

  /** The shared body of `Device::get_sensor_info` and `Stream::sensor_info`: the first `numSupportedVideoModes` modes, decoded. */
  function SensorInfoFromOni(info: OniSensorInfo, sensorType: SensorType): (r: SensorInfo)
    requires ValidSensorInfo(info)
    ensures r.sensorType == sensorType
    ensures |r.videoModes| == info.numSupportedVideoModes
    ensures forall i :: 0 <= i < |r.videoModes| ==> r.videoModes[i] == VideoModeFromOni(info.supportedVideoModes[i])
  {
    SensorInfo(sensorType, DecodeVideoModes(info.supportedVideoModes[..info.numSupportedVideoModes]))
  }

  /** `OniVersion` and the `Version` the device reports through it. */
  datatype Version = Version(major: CInt, minor: CInt, maintenance: CInt, build: CInt)

  /** `a.b`: two texts joined by a dot. */
  function JoinDot(a: seq<Byte>, b: seq<Byte>): seq<Byte> {
    a + [Dot] + b
  }

  /** `impl Display for Version`: the four numbers joined by dots. */
  function DisplayVersion(v: Version): (r: seq<Byte>)
    ensures Nul !in r
  {
    JoinDot(Decimal(v.major), JoinDot(Decimal(v.minor), JoinDot(Decimal(v.maintenance), Decimal(v.build))))
  }

  /** Splits `a.b` at its first dot. */
  lemma SplitAtDot(a: seq<Byte>, b: seq<Byte>, c: seq<Byte>, d: seq<Byte>)
    requires Dot !in a && Dot !in c
    requires JoinDot(a, b) == JoinDot(c, d)
    ensures a == c && b == d
  {
    IndexOfAfter(a, Dot, b);
    IndexOfAfter(c, Dot, d);
    var s := a + [Dot] + b;
    assert a == s[..|a|] && b == s[|a| + 1..];
    assert c == s[..|c|] && d == s[|c| + 1..];
  }

  /** Different versions display differently: the text determines all four numbers. */
  lemma DisplayVersionInjective(v: Version, w: Version)
    requires DisplayVersion(v) == DisplayVersion(w)
    ensures v == w
  {
    SplitAtDot(Decimal(v.major), JoinDot(Decimal(v.minor), JoinDot(Decimal(v.maintenance), Decimal(v.build))),
               Decimal(w.major), JoinDot(Decimal(w.minor), JoinDot(Decimal(w.maintenance), Decimal(w.build))));
    SplitAtDot(Decimal(v.minor), JoinDot(Decimal(v.maintenance), Decimal(v.build)),
               Decimal(w.minor), JoinDot(Decimal(w.maintenance), Decimal(w.build)));
    SplitAtDot(Decimal(v.maintenance), Decimal(v.build), Decimal(w.maintenance), Decimal(w.build));
    DecimalInjective(v.major, w.major);
    DecimalInjective(v.minor, w.minor);
    DecimalInjective(v.maintenance, w.maintenance);
    DecimalInjective(v.build, w.build);
  }
}
