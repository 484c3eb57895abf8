/**
 A video stream of one sensor (stream.rs): its creation and start, the
 property accessors with their value encodings, sensor info, frame reading and
 the teardown on drop.

 Each operation takes the SDK's reply to the one call it makes and returns the
 calls it issued with the result; a status reaches the caller through
 `Status::from_int`, which queries the error text only for ONI_STATUS_ERROR.
 */
module Streams {
  import opened CInterop
  import opened Oni
  import opened Types
  import opened Frames

  /** `Stream<'device, P>`: the SDK's stream handle, the sensor it reads, and the pixel type `P`. */
  datatype Stream = Stream(handle: Handle, sensorType: SensorType, pixel: PixelType)

  /** `Stream::create`: asks the device for a stream of the sensor and keeps the handle the SDK returns. */
  function Create(device: Handle, sensorType: SensorType, pixel: PixelType, reply: Reply<Handle>): (s: Step<Result<Stream>>)
    ensures Issues(s.calls, DeviceCreateStream(device, sensorType.Code()))
    ensures s.result.Success? <==> reply.status == StatusOk
    ensures s.result.Success? ==> s.result.value == Stream(reply.value, sensorType, pixel)
    ensures s.result.Failure? ==> s.result.error == StatusFromInt(reply.status, reply.lastError) && !s.result.error.Ok?
  {
    var call := DeviceCreateStream(device, sensorType.Code());
    Step(ToResult(reply.status, reply.lastError, Stream(reply.value, sensorType, pixel)), CallsFor(call, reply.status))
  }

  /** `Stream::start`. */
  function Start(s: Stream, reply: Reply<()>): (r: Step<Result<()>>)
    ensures Issues(r.calls, StreamStart(s.handle))
    ensures r.result.Success? <==> reply.status == StatusOk
    ensures r.result.Failure? ==> r.result.error == StatusFromInt(reply.status, reply.lastError) && !r.result.error.Ok?
  {
    Step(ToResult(reply.status, reply.lastError, ()), CallsFor(StreamStart(s.handle), reply.status))
  }

  /** `Stream::stop`: the SDK call returns nothing, so stopping cannot fail. */
  function Stop(s: Stream): (calls: seq<NativeCall>)
    ensures calls == [StreamStop(s.handle)]
  {
    [StreamStop(s.handle)]
  }

  /** `Stream::is_property_supported`: true exactly when the SDK answers 1. */
  function IsPropertySupported(s: Stream, propertyId: CInt, answer: CInt): (r: Step<bool>)
    ensures r.calls == [StreamIsPropertySupported(s.handle, propertyId)]
    ensures r.result <==> answer == 1
  {
    Step(answer == 1, [StreamIsPropertySupported(s.handle, propertyId)])
  }

  // ---------------------------------------------------------------------------
  // The generic accessors

  /**
   `Stream::get_property::<T>`: one read of `size_of::<T>()` bytes; the value
   the SDK wrote is returned exactly when the status is ONI_STATUS_OK.
   */
  function GetProperty<T>(s: Stream, property: StreamProperty, size: nat, reply: Reply<T>): (r: Step<Result<T>>)
    ensures Issues(r.calls, StreamGetProperty(s.handle, property, size))
    ensures r.result.Success? <==> reply.status == StatusOk
    ensures r.result.Success? ==> r.result.value == reply.value
    ensures r.result.Failure? ==> r.result.error == StatusFromInt(reply.status, reply.lastError) && !r.result.error.Ok?
  {
    Step(ToResult(reply.status, reply.lastError, reply.value), CallsFor(StreamGetProperty(s.handle, property, size), reply.status))
  }

  /** `Stream::set_property::<T>`: one write of the value with its own size as the length. */
  function SetProperty(s: Stream, property: StreamProperty, value: PropertyValue, reply: Reply<()>): (r: Step<Result<()>>)
    ensures Issues(r.calls, StreamSetProperty(s.handle, property, value, SizeOf(value)))
    ensures r.result.Success? <==> reply.status == StatusOk
    ensures r.result.Failure? ==> r.result.error == StatusFromInt(reply.status, reply.lastError) && !r.result.error.Ok?
  {
    var call := StreamSetProperty(s.handle, property, value, SizeOf(value));
    Step(ToResult(reply.status, reply.lastError, ()), CallsFor(call, reply.status))
  }

  /** The value a setter handed to the SDK. */
  function Written(calls: seq<NativeCall>): PropertyValue
    requires |calls| > 0 && calls[0].StreamSetProperty?
  {
    calls[0].value
  }

  /** A getter's first call reads the slot a setter's first call wrote: same stream, same property, same length. */
  predicate SameSlot(written: seq<NativeCall>, read: seq<NativeCall>) {
    && |written| > 0 && written[0].StreamSetProperty?
    && |read| > 0 && read[0].StreamGetProperty?
    && read[0].stream == written[0].stream
    && read[0].streamProperty == written[0].streamProperty && read[0].size == written[0].size
  }

  // ---------------------------------------------------------------------------
  // Cropping

  /** `Cropping`: the crop rectangle, in `u16`. */
  datatype Cropping = Cropping(width: U16, height: U16, originX: U16, originY: U16)

  /** The `OniCropping` `set_cropping` writes: enabled with the fields widened, or disabled and all zero. */
  function EncodeCropping(c: Option<Cropping>): (o: OniCropping)
    ensures c.None? ==> o == OniCropping(0, 0, 0, 0, 0)
    ensures c.Some? ==>
      && o.enabled == 1
      && o.width == c.value.width && o.height == c.value.height
      && o.originX == c.value.originX && o.originY == c.value.originY
  {
    match c
    case None => OniCropping(0, 0, 0, 0, 0)
    case Some(cr) => OniCropping(1, cr.originX, cr.originY, cr.width, cr.height)
  }

  /** How `get_cropping` reads an `OniCropping`: a positive `enabled` is a crop, with the fields cast `as u16`. */
  function DecodeCropping(o: OniCropping): (c: Option<Cropping>)
    ensures c.Some? <==> o.enabled > 0
    ensures c.Some? ==>
      && (o.width - c.value.width) % 0x1_0000 == 0 && (o.height - c.value.height) % 0x1_0000 == 0
      && (o.originX - c.value.originX) % 0x1_0000 == 0 && (o.originY - c.value.originY) % 0x1_0000 == 0
  {
    if o.enabled > 0 then Some(Cropping(AsU16(o.width), AsU16(o.height), AsU16(o.originX), AsU16(o.originY)))
    else None
  }

  /** Reading back what `set_cropping` wrote gives the same crop, or no crop. */
  lemma CroppingRoundTrip(c: Option<Cropping>)
    ensures DecodeCropping(EncodeCropping(c)) == c
  {
  }

  /** The native structs that come back unchanged from a decode and re-encode: the two shapes the setter writes. */
  predicate IsCanonicalCropping(o: OniCropping) {
    || o == OniCropping(0, 0, 0, 0, 0)
    || (&& o.enabled == 1
        && 0 <= o.width < 0x1_0000 && 0 <= o.height < 0x1_0000
        && 0 <= o.originX < 0x1_0000 && 0 <= o.originY < 0x1_0000)
  }

  lemma OniCroppingRoundTrip(o: OniCropping)
    ensures EncodeCropping(DecodeCropping(o)) == o <==> IsCanonicalCropping(o)
  {
    if o.enabled > 0 && EncodeCropping(DecodeCropping(o)) == o {
      var c := DecodeCropping(o).value;
      assert o.width == c.width && o.height == c.height;
      assert o.originX == c.originX && o.originY == c.originY;
    }
  }

  /** `Stream::get_cropping`. */
  function GetCropping(s: Stream, reply: Reply<OniCropping>): (r: Step<Result<Option<Cropping>>>)
    ensures Issues(r.calls, StreamGetProperty(s.handle, PropCropping, CroppingSize))
    ensures r.result.Success? <==> reply.status == StatusOk
    ensures r.result.Success? ==> r.result.value == DecodeCropping(reply.value)
    ensures r.result.Failure? ==> r.result.error == StatusFromInt(reply.status, reply.lastError)
  {
    var got := GetProperty(s, PropCropping, CroppingSize, reply);
    match got.result
    case Success(o) => Step(Success(DecodeCropping(o)), got.calls)
    case Failure(e) => Step(Failure(e), got.calls)
  }

  /** `Stream::set_cropping`. */
  function SetCropping(s: Stream, value: Option<Cropping>, reply: Reply<()>): (r: Step<Result<()>>)
    ensures Issues(r.calls, StreamSetProperty(s.handle, PropCropping, CroppingValue(EncodeCropping(value)), CroppingSize))
    ensures r.result.Success? <==> reply.status == StatusOk
    ensures r.result.Failure? ==> r.result.error == StatusFromInt(reply.status, reply.lastError)
  {
    SetProperty(s, PropCropping, CroppingValue(EncodeCropping(value)), reply)
  }

  /**
   `get_cropping` reads the slot `set_cropping` writes, and when the SDK
   answers it with the struct that was written, the crop read is the crop set.
   */
  lemma SetThenGetCropping(s: Stream, value: Option<Cropping>, ok: Reply<()>, lastError: seq<Byte>)
    ensures var setCalls := SetCropping(s, value, ok).calls;
      && Written(setCalls).CroppingValue?
      && var reply := Reply(StatusOk, lastError, Written(setCalls).cropping);
      && SameSlot(setCalls, GetCropping(s, reply).calls)
      && GetCropping(s, reply).result == Success(value)
  {
    CroppingRoundTrip(value);
  }

  // ---------------------------------------------------------------------------
  // Video mode

  /** `Stream::get_video_mode`: the stream's current video mode, decoded. */
  function GetVideoMode(s: Stream, reply: Reply<OniVideoMode>): (r: Step<Result<VideoMode>>)
    requires reply.status == StatusOk ==> IsDecodableMode(reply.value)
    ensures Issues(r.calls, StreamGetProperty(s.handle, PropVideoMode, VideoModeSize))
    ensures r.result.Success? <==> reply.status == StatusOk
    ensures r.result.Success? ==> VideoModeToOni(r.result.value) == reply.value
    ensures r.result.Failure? ==> r.result.error == StatusFromInt(reply.status, reply.lastError)
  {
    var got := GetProperty(s, PropVideoMode, VideoModeSize, reply);
    match got.result
    case Success(m) => Step(Success(VideoModeFromOni(m)), got.calls)
    case Failure(e) => Step(Failure(e), got.calls)
  }

  /** The `OniVideoMode` `set_video_mode` writes: the stream's own pixel format, the caller's dimensions and rate. */
  function EncodeVideoMode(s: Stream, value: VideoMode): (m: OniVideoMode)
    ensures m.pixelFormat == s.pixel.format.Code()
    ensures m.resolutionX == value.resolutionX && m.resolutionY == value.resolutionY && m.fps == value.fps
  {
    OniVideoMode(s.pixel.format.Code(), value.resolutionX, value.resolutionY, value.fps)
  }

  /** `Stream::set_video_mode`. */
  function SetVideoMode(s: Stream, value: VideoMode, reply: Reply<()>): (r: Step<Result<()>>)
    ensures Issues(r.calls, StreamSetProperty(s.handle, PropVideoMode, VideoModeValue(EncodeVideoMode(s, value)), VideoModeSize))
    ensures r.result.Success? <==> reply.status == StatusOk
    ensures r.result.Failure? ==> r.result.error == StatusFromInt(reply.status, reply.lastError)
  {
    SetProperty(s, PropVideoMode, VideoModeValue(EncodeVideoMode(s, value)), reply)
  }

  /**
   The caller's pixel format never reaches the SDK: two modes that differ
   only in it are written identically.
   */
  lemma SetVideoModeIgnoresPixelFormat(s: Stream, a: VideoMode, b: VideoMode, reply: Reply<()>)
    requires a.resolutionX == b.resolutionX && a.resolutionY == b.resolutionY && a.fps == b.fps
    ensures SetVideoMode(s, a, reply) == SetVideoMode(s, b, reply)
  {
  }

  /** Reading the mode back gives the mode set, with the stream's pixel format in place of the caller's. */
  lemma SetThenGetVideoMode(s: Stream, value: VideoMode, ok: Reply<()>, lastError: seq<Byte>)
    ensures var setCalls := SetVideoMode(s, value, ok).calls;
      && Written(setCalls).VideoModeValue?
      && var reply := Reply(StatusOk, lastError, Written(setCalls).mode);
      && IsDecodableMode(reply.value)
      && SameSlot(setCalls, GetVideoMode(s, reply).calls)
      && GetVideoMode(s, reply).result == Success(value.(pixelFormat := s.pixel.format))
  {
    PixelFormatRoundTrip(s.pixel.format);
  }

  // ---------------------------------------------------------------------------
  // Integer and flag properties

  /** An integer property read as a `c_int`. */
  function GetInt(s: Stream, property: StreamProperty, reply: Reply<CInt>): (r: Step<Result<CInt>>)
    ensures Issues(r.calls, StreamGetProperty(s.handle, property, IntSize))
    ensures r.result.Success? <==> reply.status == StatusOk
    ensures r.result.Success? ==> r.result.value == reply.value
    ensures r.result.Failure? ==> r.result.error == StatusFromInt(reply.status, reply.lastError)
  {
    GetProperty(s, property, IntSize, reply)
  }

  /** An integer property written as a `c_int`, unchanged. */
  function SetInt(s: Stream, property: StreamProperty, value: CInt, reply: Reply<()>): (r: Step<Result<()>>)
    ensures Issues(r.calls, StreamSetProperty(s.handle, property, IntValue(value), IntSize))
    ensures r.result.Success? <==> reply.status == StatusOk
    ensures r.result.Failure? ==> r.result.error == StatusFromInt(reply.status, reply.lastError)
  {
    SetProperty(s, property, IntValue(value), reply)
  }

  /** A flag property read as a `c_int`: true exactly when it is 1. */
  function GetFlag(s: Stream, property: StreamProperty, reply: Reply<CInt>): (r: Step<Result<bool>>)
    ensures Issues(r.calls, StreamGetProperty(s.handle, property, IntSize))
    ensures r.result.Success? <==> reply.status == StatusOk
    ensures r.result.Success? ==> (r.result.value <==> reply.value == 1)
    ensures r.result.Failure? ==> r.result.error == StatusFromInt(reply.status, reply.lastError)
  {
    var got := GetInt(s, property, reply);
    match got.result
    case Success(v) => Step(Success(v == 1), got.calls)
    case Failure(e) => Step(Failure(e), got.calls)
  }

  /** A flag property written as `value as c_int`. */
  function SetFlag(s: Stream, property: StreamProperty, on: bool, reply: Reply<()>): (r: Step<Result<()>>)
    ensures Issues(r.calls, StreamSetProperty(s.handle, property, IntValue(FlagCode(on)), IntSize))
    ensures r.result.Success? <==> reply.status == StatusOk
    ensures r.result.Failure? ==> r.result.error == StatusFromInt(reply.status, reply.lastError)
  {
    SetInt(s, property, FlagCode(on), reply)
  }

  /** A flag getter reads the slot its setter writes, and answered with what was written it returns the flag set. */
  lemma SetThenGetFlag(s: Stream, property: StreamProperty, on: bool, ok: Reply<()>, lastError: seq<Byte>)
    ensures var setCalls := SetFlag(s, property, on, ok).calls;
      && Written(setCalls).IntValue?
      && var reply := Reply(StatusOk, lastError, Written(setCalls).i);
      && SameSlot(setCalls, GetFlag(s, property, reply).calls)
      && GetFlag(s, property, reply).result == Success(on)
  {
  }

  /** An integer getter reads the slot its setter writes, and answered with what was written it returns the value set. */
  lemma SetThenGetInt(s: Stream, property: StreamProperty, value: CInt, ok: Reply<()>, lastError: seq<Byte>)
    ensures var setCalls := SetInt(s, property, value, ok).calls;
      && Written(setCalls).IntValue?
      && var reply := Reply(StatusOk, lastError, Written(setCalls).i);
      && SameSlot(setCalls, GetInt(s, property, reply).calls)
      && GetInt(s, property, reply).result == Success(value)
  {
  }

  /** `Stream::get_max_value`. */
  function GetMaxValue(s: Stream, reply: Reply<CInt>): (r: Step<Result<CInt>>)
    ensures Issues(r.calls, StreamGetProperty(s.handle, PropMaxValue, IntSize))
    ensures r.result.Success? <==> reply.status == StatusOk
    ensures r.result.Failure? ==> r.result.error == StatusFromInt(reply.status, reply.lastError)
    ensures r.result.Success? ==> r.result.value == reply.value
  {
    GetInt(s, PropMaxValue, reply)
  }

  /** `Stream::get_min_value`. */
  function GetMinValue(s: Stream, reply: Reply<CInt>): (r: Step<Result<CInt>>)
    ensures Issues(r.calls, StreamGetProperty(s.handle, PropMinValue, IntSize))
    ensures r.result.Success? <==> reply.status == StatusOk
    ensures r.result.Failure? ==> r.result.error == StatusFromInt(reply.status, reply.lastError)
    ensures r.result.Success? ==> r.result.value == reply.value
  {
    GetInt(s, PropMinValue, reply)
  }

  /** `Stream::get_stride`. */
  function GetStride(s: Stream, reply: Reply<CInt>): (r: Step<Result<CInt>>)
    ensures Issues(r.calls, StreamGetProperty(s.handle, PropStride, IntSize))
    ensures r.result.Success? <==> reply.status == StatusOk
    ensures r.result.Failure? ==> r.result.error == StatusFromInt(reply.status, reply.lastError)
    ensures r.result.Success? ==> r.result.value == reply.value
  {
    GetInt(s, PropStride, reply)
  }

  /** `Stream::get_number_of_frames`. */
  function GetNumberOfFrames(s: Stream, reply: Reply<CInt>): (r: Step<Result<CInt>>)
    ensures Issues(r.calls, StreamGetProperty(s.handle, PropNumberOfFrames, IntSize))
    ensures r.result.Success? <==> reply.status == StatusOk
    ensures r.result.Failure? ==> r.result.error == StatusFromInt(reply.status, reply.lastError)
    ensures r.result.Success? ==> r.result.value == reply.value
  {
    GetInt(s, PropNumberOfFrames, reply)
  }

  /** `Stream::get_mirroring`. */
  function GetMirroring(s: Stream, reply: Reply<CInt>): (r: Step<Result<bool>>)
    ensures Issues(r.calls, StreamGetProperty(s.handle, PropMirroring, IntSize))
    ensures r.result.Success? <==> reply.status == StatusOk
    ensures r.result.Failure? ==> r.result.error == StatusFromInt(reply.status, reply.lastError)
    ensures r.result.Success? ==> (r.result.value <==> reply.value == 1)
  {
    GetFlag(s, PropMirroring, reply)
  }

  /** `Stream::set_mirroring`. */
  function SetMirroring(s: Stream, on: bool, reply: Reply<()>): (r: Step<Result<()>>)
    ensures Issues(r.calls, StreamSetProperty(s.handle, PropMirroring, IntValue(FlagCode(on)), IntSize))
    ensures r.result.Success? <==> reply.status == StatusOk
    ensures r.result.Failure? ==> r.result.error == StatusFromInt(reply.status, reply.lastError)
  {
    SetFlag(s, PropMirroring, on, reply)
  }

  /** `Stream::get_auto_white_balance`. */
  function GetAutoWhiteBalance(s: Stream, reply: Reply<CInt>): (r: Step<Result<bool>>)
    ensures Issues(r.calls, StreamGetProperty(s.handle, PropAutoWhiteBalance, IntSize))
    ensures r.result.Success? <==> reply.status == StatusOk
    ensures r.result.Failure? ==> r.result.error == StatusFromInt(reply.status, reply.lastError)
    ensures r.result.Success? ==> (r.result.value <==> reply.value == 1)
  {
    GetFlag(s, PropAutoWhiteBalance, reply)
  }

  /** `Stream::set_auto_white_balance`. */
  function SetAutoWhiteBalance(s: Stream, on: bool, reply: Reply<()>): (r: Step<Result<()>>)
    ensures Issues(r.calls, StreamSetProperty(s.handle, PropAutoWhiteBalance, IntValue(FlagCode(on)), IntSize))
    ensures r.result.Success? <==> reply.status == StatusOk
    ensures r.result.Failure? ==> r.result.error == StatusFromInt(reply.status, reply.lastError)
  {
    SetFlag(s, PropAutoWhiteBalance, on, reply)
  }

  /** `Stream::get_auto_exposure`. */
  function GetAutoExposure(s: Stream, reply: Reply<CInt>): (r: Step<Result<bool>>)
    ensures Issues(r.calls, StreamGetProperty(s.handle, PropAutoExposure, IntSize))
    ensures r.result.Success? <==> reply.status == StatusOk
    ensures r.result.Failure? ==> r.result.error == StatusFromInt(reply.status, reply.lastError)
    ensures r.result.Success? ==> (r.result.value <==> reply.value == 1)
  {
    GetFlag(s, PropAutoExposure, reply)
  }

  /** `Stream::set_auto_exposure`. */
  function SetAutoExposure(s: Stream, on: bool, reply: Reply<()>): (r: Step<Result<()>>)
    ensures Issues(r.calls, StreamSetProperty(s.handle, PropAutoExposure, IntValue(FlagCode(on)), IntSize))
    ensures r.result.Success? <==> reply.status == StatusOk
    ensures r.result.Failure? ==> r.result.error == StatusFromInt(reply.status, reply.lastError)
  {
    SetFlag(s, PropAutoExposure, on, reply)
  }

  /** `Stream::get_exposure`. */
  function GetExposure(s: Stream, reply: Reply<CInt>): (r: Step<Result<CInt>>)
    ensures Issues(r.calls, StreamGetProperty(s.handle, PropExposure, IntSize))
    ensures r.result.Success? <==> reply.status == StatusOk
    ensures r.result.Failure? ==> r.result.error == StatusFromInt(reply.status, reply.lastError)
    ensures r.result.Success? ==> r.result.value == reply.value
  {
    GetInt(s, PropExposure, reply)
  }

  /** `Stream::set_exposure`: the value is passed as it is; any range limit is the SDK's. */
  function SetExposure(s: Stream, value: CInt, reply: Reply<()>): (r: Step<Result<()>>)
    ensures Issues(r.calls, StreamSetProperty(s.handle, PropExposure, IntValue(value), IntSize))
    ensures r.result.Success? <==> reply.status == StatusOk
    ensures r.result.Failure? ==> r.result.error == StatusFromInt(reply.status, reply.lastError)
  {
    SetInt(s, PropExposure, value, reply)
  }

  /** `Stream::get_gain`. */
  function GetGain(s: Stream, reply: Reply<CInt>): (r: Step<Result<CInt>>)
    ensures Issues(r.calls, StreamGetProperty(s.handle, PropGain, IntSize))
    ensures r.result.Success? <==> reply.status == StatusOk
    ensures r.result.Failure? ==> r.result.error == StatusFromInt(reply.status, reply.lastError)
    ensures r.result.Success? ==> r.result.value == reply.value
  {
    GetInt(s, PropGain, reply)
  }

  /** `Stream::set_gain`: the value is passed as it is; any range limit is the SDK's. */
  function SetGain(s: Stream, value: CInt, reply: Reply<()>): (r: Step<Result<()>>)
    ensures Issues(r.calls, StreamSetProperty(s.handle, PropGain, IntValue(value), IntSize))
    ensures r.result.Success? <==> reply.status == StatusOk
    ensures r.result.Failure? ==> r.result.error == StatusFromInt(reply.status, reply.lastError)
  {
    SetInt(s, PropGain, value, reply)
  }

  // ---------------------------------------------------------------------------
  // Sensor info, frames, teardown

  /**
   `Stream::sensor_info`. `info` is what the SDK's pointer refers to, `None`
   for the null pointer; the reported sensor type is the stream's own.
   */
  function SensorInfo(s: Stream, info: Option<OniSensorInfo>): (r: Step<Result<Types.SensorInfo>>)
    requires info.Some? ==> ValidSensorInfo(info.value)
    ensures r.calls == [StreamGetSensorInfo(s.handle)]
    ensures r.result.Failure? <==> info.None?
    ensures r.result.Failure? ==> r.result.error == OutOfFlow
    ensures r.result.Success? ==>
      && r.result.value.sensorType == s.sensorType
      && |r.result.value.videoModes| == info.value.numSupportedVideoModes
      && forall i :: 0 <= i < |r.result.value.videoModes| ==>
           VideoModeToOni(r.result.value.videoModes[i]) == info.value.supportedVideoModes[i]
  {
    match info
    case None => Step(Failure(OutOfFlow), [StreamGetSensorInfo(s.handle)])
    case Some(i) =>
      var decoded := SensorInfoFromOni(i, s.sensorType);
      assert forall k :: 0 <= k < |decoded.videoModes| ==>
        VideoModeToOni(decoded.videoModes[k]) == i.supportedVideoModes[k] by {
        forall k | 0 <= k < |decoded.videoModes| {
          OniVideoModeRoundTrip(i.supportedVideoModes[k]);
        }
      }
      Step(Success(decoded), [StreamGetSensorInfo(s.handle)])
  }

  /** `Stream::read_frame`: on success, the frame the SDK hands out, built by `Frame::from_pointer` with the stream's pixel type. */
  function ReadFrame(s: Stream, reply: Reply<OniFrame>): (r: Step<Result<Frame>>)
    ensures Issues(r.calls, StreamReadFrame(s.handle))
    ensures r.result.Success? <==> reply.status == StatusOk
    ensures r.result.Success? ==> r.result.value.native == reply.value && r.result.value.pixel == s.pixel
    ensures r.result.Success? ==>
      && r.result.value == FromPointer(reply.value, s.pixel)
      && r.result.value.width == AsU16(reply.value.width) && r.result.value.height == AsU16(reply.value.height)
    ensures r.result.Failure? ==> r.result.error == StatusFromInt(reply.status, reply.lastError)
  {
    Step(ToResult(reply.status, reply.lastError, FromPointer(reply.value, s.pixel)), CallsFor(StreamReadFrame(s.handle), reply.status))
  }

  /** `impl Drop for Stream`: stop, then destroy, on the stream's own handle. */
  function Drop(s: Stream): (calls: seq<NativeCall>)
    ensures calls == [StreamStop(s.handle), StreamDestroy(s.handle)]
  {
    Stop(s) + [StreamDestroy(s.handle)]
  }
}
