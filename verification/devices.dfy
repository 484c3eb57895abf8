/**
 An open device (device.rs): opening by URI or the default device, the
 device-info and sensor-info conversions, the device properties the wrapper
 reads and writes, and closing on drop.
 */
module Devices {
  import opened CInterop
  import opened Oni
  import opened Text
  import opened Types
  import Streams

  /** `Device`: the SDK's device handle. */
  datatype Device = Device(handle: Handle)

  // ---------------------------------------------------------------------------
  // Fixed string buffers and DeviceInfo

  /** What the SDK promises of a `char[ONI_MAX_STR]` it fills in: the buffer is NUL-terminated. */
  predicate IsTerminatedBuffer(buf: seq<Byte>) {
    |buf| == MaxStr && Nul in buf
  }

  /**
   `CStr::from_ptr(buf).to_string_lossy()`: the text before the first NUL,
   with any ill-formed UTF-8 replaced.
   */
  function BufferString(buf: seq<Byte>): (r: seq<Byte>)
    requires Nul in buf
    ensures ValidUtf8(r) && Nul !in r
    ensures ValidUtf8(CStrFrom(buf)) ==> r == CStrFrom(buf)
  {
    var text := CStrFrom(buf);
    Utf8LossyIsValid(text);
    Utf8LossyKeepsNoNul(text);
    if ValidUtf8(text) then Utf8LossyKeepsValid(text); Utf8Lossy(text) else Utf8Lossy(text)
  }

  /** Whatever a buffer holds after its first NUL is never read. */
  lemma BufferStringIgnoresTail(a: seq<Byte>, b: seq<Byte>, k: nat)
    requires k < |a| && k < |b| && a[k] == Nul && a[..k + 1] == b[..k + 1]
    ensures BufferString(a) == BufferString(b)
  {
    CStrDependsOnlyOnPrefix(a, b, k);
  }

  /** `DeviceInfo`. */
  datatype DeviceInfo = DeviceInfo(uri: seq<Byte>, vendor: seq<Byte>, name: seq<Byte>, usbVendorId: U16, usbProductId: U16)

  predicate ValidOniDeviceInfo(info: OniDeviceInfo) {
    IsTerminatedBuffer(info.uri) && IsTerminatedBuffer(info.vendor) && IsTerminatedBuffer(info.name)
  }

  /**
   `impl From<OniDeviceInfo> for DeviceInfo`: each string is its buffer up to
   the first NUL; the USB ids, already `uint16_t`, are unchanged by `as u16`.
   */
  function DeviceInfoFromOni(info: OniDeviceInfo): (d: DeviceInfo)
    requires ValidOniDeviceInfo(info)
    ensures Nul !in d.uri && Nul !in d.vendor && Nul !in d.name
    ensures ValidUtf8(CStrFrom(info.uri)) ==> d.uri == CStrFrom(info.uri)
    ensures ValidUtf8(CStrFrom(info.vendor)) ==> d.vendor == CStrFrom(info.vendor)
    ensures ValidUtf8(CStrFrom(info.name)) ==> d.name == CStrFrom(info.name)
    ensures d.usbVendorId == info.usbVendorId && d.usbProductId == info.usbProductId
  {
    DeviceInfo(BufferString(info.uri), BufferString(info.vendor), BufferString(info.name),
               AsU16(info.usbVendorId), AsU16(info.usbProductId))
  }

  // ---------------------------------------------------------------------------
  // Opening

  /** `Device::open`: `None` is the null URI. */
  function Open(uri: Option<seq<Byte>>, reply: Reply<Handle>): (r: Step<Result<Device>>)
    ensures Issues(r.calls, DeviceOpen(uri))
    ensures r.result.Success? <==> reply.status == StatusOk
    ensures r.result.Success? ==> r.result.value == Device(reply.value)
    ensures r.result.Failure? ==> r.result.error == StatusFromInt(reply.status, reply.lastError) && !r.result.error.Ok?
  {
    Step(ToResult(reply.status, reply.lastError, Device(reply.value)), CallsFor(DeviceOpen(uri), reply.status))
  }

  /** `Device::open_default`: opens with the null URI, which lets the SDK pick the first device. */
  function OpenDefault(reply: Reply<Handle>): (r: Step<Result<Device>>)
    ensures Issues(r.calls, DeviceOpen(None))
    ensures r.result.Success? <==> reply.status == StatusOk
    ensures r.result.Success? ==> r.result.value == Device(reply.value)
    ensures r.result.Failure? ==> r.result.error == StatusFromInt(reply.status, reply.lastError)
  {
    Open(None, reply)
  }

  const UriPrefix: seq<Byte> := Ascii("Uri `")
  const UriSuffix: seq<Byte> := Ascii("` was not a valid CString")

  /**
   `Device::open_uri`: a URI holding a NUL is refused before any SDK call, with
   an error quoting it; any other is passed to the SDK as a C string.
   */
  function OpenUri(uri: seq<Byte>, reply: Reply<Handle>): (r: Step<Result<Device>>)
    ensures Nul in uri ==> r.calls == [] && r.result == Failure(Error(UriPrefix + uri + UriSuffix))
    ensures Nul !in uri ==>
      && Issues(r.calls, DeviceOpen(CStringNew(uri)))
      && CStringNew(uri).Some? && CStrFrom(CStringNew(uri).value) == uri
      && (r.result.Success? <==> reply.status == StatusOk)
      && (r.result.Success? ==> r.result.value == Device(reply.value))
      && (r.result.Failure? ==> r.result.error == StatusFromInt(reply.status, reply.lastError))
  {
    match CStringNew(uri)
    case None => Step(Failure(Error(UriPrefix + uri + UriSuffix)), [])
    case Some(cstring) =>
      CStringRoundTrip(uri);
      Open(Some(cstring), reply)
  }

  /** The error for a refused URI quotes the URI exactly. */
  lemma OpenUriErrorQuotesUri(uri: seq<Byte>, reply: Reply<Handle>)
    requires Nul in uri
    ensures var m := OpenUri(uri, reply).result.error.message;
      m[|UriPrefix|..|UriPrefix| + |uri|] == uri
  {
    var m := UriPrefix + uri + UriSuffix;
    assert m[|UriPrefix|..|UriPrefix| + |uri|] == uri;
  }

  /**
   The URI a device reports can always be opened: `open_uri` never refuses
   it, and the SDK reads back exactly that URI.
   */
  lemma ReportedUriOpens(info: OniDeviceInfo, reply: Reply<Handle>)
    requires ValidOniDeviceInfo(info)
    ensures var uri := DeviceInfoFromOni(info).uri;
      var r := OpenUri(uri, reply);
      && |r.calls| > 0 && r.calls[0].DeviceOpen? && r.calls[0].uri.Some?
      && Nul in r.calls[0].uri.value && CStrFrom(r.calls[0].uri.value) == uri
  {
  }

  // ---------------------------------------------------------------------------
  // Info, sensors, streams

  /** `Device::info`. */
  function Info(d: Device, reply: Reply<OniDeviceInfo>): (r: Step<Result<DeviceInfo>>)
    requires reply.status == StatusOk ==> ValidOniDeviceInfo(reply.value)
    ensures Issues(r.calls, DeviceGetInfo(d.handle))
    ensures r.result.Success? <==> reply.status == StatusOk
    ensures r.result.Success? ==>
      && r.result.value.usbVendorId == reply.value.usbVendorId
      && r.result.value.usbProductId == reply.value.usbProductId
      && Nul !in r.result.value.uri
      && (ValidUtf8(CStrFrom(reply.value.uri)) ==> r.result.value.uri == CStrFrom(reply.value.uri))
    ensures r.result.Success? ==> r.result.value == DeviceInfoFromOni(reply.value)
    ensures r.result.Failure? ==> r.result.error == StatusFromInt(reply.status, reply.lastError)
  {
    var calls := CallsFor(DeviceGetInfo(d.handle), reply.status);
    if reply.status == StatusOk then Step(Success(DeviceInfoFromOni(reply.value)), calls)
    else Step(Failure(StatusFromInt(reply.status, reply.lastError)), calls)
  }

  /**
   `Device::get_sensor_info`: `None` when the SDK returns the null pointer
   (the device has no such sensor); otherwise the requested type with the
   modes the SDK lists.
   */
  function GetSensorInfo(d: Device, sensorType: SensorType, info: Option<OniSensorInfo>): (r: Step<Option<SensorInfo>>)
    requires info.Some? ==> ValidSensorInfo(info.value)
    ensures r.calls == [DeviceGetSensorInfo(d.handle, sensorType.Code())]
    ensures r.result.None? <==> info.None?
    ensures r.result.Some? ==>
      && r.result.value.sensorType == sensorType
      && |r.result.value.videoModes| == info.value.numSupportedVideoModes
      && forall i :: 0 <= i < |r.result.value.videoModes| ==>
           VideoModeToOni(r.result.value.videoModes[i]) == info.value.supportedVideoModes[i]
  {
    var calls := [DeviceGetSensorInfo(d.handle, sensorType.Code())];
    match info
    case None => Step(None, calls)
    case Some(i) =>
      var decoded := SensorInfoFromOni(i, sensorType);
      assert forall k :: 0 <= k < |decoded.videoModes| ==>
        VideoModeToOni(decoded.videoModes[k]) == i.supportedVideoModes[k] by {
        forall k | 0 <= k < |decoded.videoModes| {
          OniVideoModeRoundTrip(i.supportedVideoModes[k]);
        }
      }
      Step(Some(decoded), calls)
  }

  /** `Device::create_stream`: a stream of the sensor on this device, typed by `pixel`. */
  function CreateStream(d: Device, sensorType: SensorType, pixel: PixelType, reply: Reply<Handle>): (r: Step<Result<Streams.Stream>>)
    ensures Issues(r.calls, DeviceCreateStream(d.handle, sensorType.Code()))
    ensures r.result.Success? <==> reply.status == StatusOk
    ensures r.result.Success? ==> r.result.value == Streams.Stream(reply.value, sensorType, pixel)
    ensures r.result.Failure? ==> r.result.error == StatusFromInt(reply.status, reply.lastError)
  {
    Streams.Create(d.handle, sensorType, pixel, reply)
  }

  // ---------------------------------------------------------------------------
  // Depth/color sync and property support

  /** `Device::color_depth_sync`: true exactly when the SDK answers non-zero. */
  function ColorDepthSync(d: Device, answer: CInt): (r: Step<bool>)
    ensures r.calls == [DeviceGetDepthColorSyncEnabled(d.handle)]
    ensures r.result <==> answer != 0
  {
    Step(answer != 0, [DeviceGetDepthColorSyncEnabled(d.handle)])
  }

  /**
   `Device::enable_color_depth_sync`: enabling reports the SDK's status;
   disabling calls the SDK, which returns nothing, and reports `Ok`.
   */
  function EnableColorDepthSync(d: Device, enabled: bool, reply: Reply<()>): (r: Step<Status>)
    ensures enabled ==> Issues(r.calls, DeviceEnableDepthColorSync(d.handle))
    ensures enabled ==> r.result == StatusFromInt(reply.status, reply.lastError)
    ensures !enabled ==> r.calls == [DeviceDisableDepthColorSync(d.handle)] && r.result == Ok
  {
    if enabled then
      Step(StatusFromInt(reply.status, reply.lastError), CallsFor(DeviceEnableDepthColorSync(d.handle), reply.status))
    else Step(Ok, [DeviceDisableDepthColorSync(d.handle)])
  }

  /** `Device::is_property_supported`: true exactly when the SDK answers 1. */
  function IsPropertySupported(d: Device, propertyId: CInt, answer: CInt): (r: Step<bool>)
    ensures r.calls == [DeviceIsPropertySupported(d.handle, propertyId)]
    ensures r.result <==> answer == 1
  {
    Step(answer == 1, [DeviceIsPropertySupported(d.handle, propertyId)])
  }

  // ---------------------------------------------------------------------------
  // Properties

  /** `Device::get_property::<T>`: one read of `size_of::<T>()` bytes. */
  function GetProperty<T>(d: Device, property: DeviceProperty, size: nat, reply: Reply<T>): (r: Step<Result<T>>)
    ensures Issues(r.calls, DeviceGetProperty(d.handle, property, size))
    ensures r.result.Success? <==> reply.status == StatusOk
    ensures r.result.Success? ==> r.result.value == reply.value
    ensures r.result.Failure? ==> r.result.error == StatusFromInt(reply.status, reply.lastError) && !r.result.error.Ok?
  {
    Step(ToResult(reply.status, reply.lastError, reply.value), CallsFor(DeviceGetProperty(d.handle, property, size), reply.status))
  }

  /** `Device::set_property::<T>`: one write of the value with its own size as the length. */
  function SetProperty(d: Device, property: DeviceProperty, value: PropertyValue, reply: Reply<()>): (r: Step<Result<()>>)
    ensures Issues(r.calls, DeviceSetProperty(d.handle, property, value, SizeOf(value)))
    ensures r.result.Success? <==> reply.status == StatusOk
    ensures r.result.Failure? ==> r.result.error == StatusFromInt(reply.status, reply.lastError) && !r.result.error.Ok?
  {
    var call := DeviceSetProperty(d.handle, property, value, SizeOf(value));
    Step(ToResult(reply.status, reply.lastError, ()), CallsFor(call, reply.status))
  }

  /** A string property: read into a `char[ONI_MAX_STR]` and decoded up to its first NUL. */
  function GetStringProperty(d: Device, property: DeviceProperty, reply: Reply<seq<Byte>>): (r: Step<Result<seq<Byte>>>)
    requires reply.status == StatusOk ==> IsTerminatedBuffer(reply.value)
    ensures Issues(r.calls, DeviceGetProperty(d.handle, property, MaxStr))
    ensures r.result.Success? <==> reply.status == StatusOk
    ensures r.result.Success? ==> ValidUtf8(r.result.value) && Nul !in r.result.value
    ensures r.result.Success? && ValidUtf8(CStrFrom(reply.value)) ==> r.result.value == CStrFrom(reply.value)
    ensures r.result.Failure? ==> r.result.error == StatusFromInt(reply.status, reply.lastError)
  {
    var got := GetProperty(d, property, MaxStr, reply);
    match got.result
    case Success(buf) => Step(Success(BufferString(buf)), got.calls)
    case Failure(e) => Step(Failure(e), got.calls)
  }

  /** `Device::get_firmware_version`. */
  function GetFirmwareVersion(d: Device, reply: Reply<seq<Byte>>): (r: Step<Result<seq<Byte>>>)
    requires reply.status == StatusOk ==> IsTerminatedBuffer(reply.value)
    ensures Issues(r.calls, DeviceGetProperty(d.handle, PropFirmwareVersion, MaxStr))
    ensures r.result.Success? <==> reply.status == StatusOk
    ensures r.result.Success? && ValidUtf8(CStrFrom(reply.value)) ==> r.result.value == CStrFrom(reply.value)
    ensures r.result.Success? ==> ValidUtf8(r.result.value) && Nul !in r.result.value
    ensures r.result.Failure? ==> r.result.error == StatusFromInt(reply.status, reply.lastError)
  {
    GetStringProperty(d, PropFirmwareVersion, reply)
  }

  /** `Device::get_serial_number`. */
  function GetSerialNumber(d: Device, reply: Reply<seq<Byte>>): (r: Step<Result<seq<Byte>>>)
    requires reply.status == StatusOk ==> IsTerminatedBuffer(reply.value)
    ensures Issues(r.calls, DeviceGetProperty(d.handle, PropSerialNumber, MaxStr))
    ensures r.result.Success? <==> reply.status == StatusOk
    ensures r.result.Success? && ValidUtf8(CStrFrom(reply.value)) ==> r.result.value == CStrFrom(reply.value)
    ensures r.result.Success? ==> ValidUtf8(r.result.value) && Nul !in r.result.value
    ensures r.result.Failure? ==> r.result.error == StatusFromInt(reply.status, reply.lastError)
  {
    GetStringProperty(d, PropSerialNumber, reply)
  }

  /** `Device::get_driver_version`: the `OniVersion` the SDK writes, as it is. */
  function GetDriverVersion(d: Device, reply: Reply<OniVersion>): (r: Step<Result<OniVersion>>)
    ensures Issues(r.calls, DeviceGetProperty(d.handle, PropDriverVersion, VersionSize))
    ensures r.result.Success? <==> reply.status == StatusOk
    ensures r.result.Success? ==> r.result.value == reply.value
    ensures r.result.Failure? ==> r.result.error == StatusFromInt(reply.status, reply.lastError)
  {
    GetProperty(d, PropDriverVersion, VersionSize, reply)
  }

  /** `Device::get_hardware_version`. */
  function GetHardwareVersion(d: Device, reply: Reply<CInt>): (r: Step<Result<CInt>>)
    ensures Issues(r.calls, DeviceGetProperty(d.handle, PropHardwareVersion, IntSize))
    ensures r.result.Success? <==> reply.status == StatusOk
    ensures r.result.Success? ==> r.result.value == reply.value
    ensures r.result.Failure? ==> r.result.error == StatusFromInt(reply.status, reply.lastError)
  {
    GetProperty(d, PropHardwareVersion, IntSize, reply)
  }

  // ---------------------------------------------------------------------------
  // Image registration and playback

  /** `Device::is_image_registration_mode_supported`: true exactly when the SDK answers non-zero. */
  function IsImageRegistrationModeSupported(d: Device, mode: ImageRegistrationMode, answer: CInt): (r: Step<bool>)
    ensures r.calls == [DeviceIsImageRegistrationModeSupported(d.handle, mode.Code())]
    ensures r.result <==> answer != 0
  {
    Step(answer != 0, [DeviceIsImageRegistrationModeSupported(d.handle, mode.Code())])
  }

  /** The registration mode `set_image_registration` writes for a flag. */
  function RegistrationCode(on: bool): (c: CInt)
    ensures on ==> c == DepthToColor.Code()
    ensures !on ==> c == RegistrationOff.Code()
  {
    if on then ImageRegistrationDepthToColor else ImageRegistrationOff
  }

  /** `Device::get_image_registration`: true exactly when the mode is depth-to-color. */
  function GetImageRegistration(d: Device, reply: Reply<CInt>): (r: Step<Result<bool>>)
    ensures Issues(r.calls, DeviceGetProperty(d.handle, PropImageRegistration, IntSize))
    ensures r.result.Success? <==> reply.status == StatusOk
    ensures r.result.Success? ==> (r.result.value <==> reply.value == ImageRegistrationDepthToColor)
    ensures r.result.Failure? ==> r.result.error == StatusFromInt(reply.status, reply.lastError)
  {
    var got := GetProperty(d, PropImageRegistration, IntSize, reply);
    match got.result
    case Success(mode) => Step(Success(mode == ImageRegistrationDepthToColor), got.calls)
    case Failure(e) => Step(Failure(e), got.calls)
  }

  /** `Device::set_image_registration`. */
  function SetImageRegistration(d: Device, on: bool, reply: Reply<()>): (r: Step<Result<()>>)
    ensures Issues(r.calls, DeviceSetProperty(d.handle, PropImageRegistration, IntValue(RegistrationCode(on)), IntSize))
    ensures r.result.Success? <==> reply.status == StatusOk
    ensures r.result.Failure? ==> r.result.error == StatusFromInt(reply.status, reply.lastError)
  {
    SetProperty(d, PropImageRegistration, IntValue(RegistrationCode(on)), reply)
  }

  /**
   `get_image_registration` reads the slot `set_image_registration` writes,
   and answered with the mode written it returns the flag set.
   */
  lemma SetThenGetImageRegistration(d: Device, on: bool, ok: Reply<()>, lastError: seq<Byte>)
    ensures var setCalls := SetImageRegistration(d, on, ok).calls;
      var written := setCalls[0];
      && written.DeviceSetProperty? && written.value.IntValue?
      && var getCalls := GetImageRegistration(d, Reply(StatusOk, lastError, written.value.i)).calls;
      && getCalls[0].DeviceGetProperty? && getCalls[0].device == written.device
      && getCalls[0].deviceProperty == written.deviceProperty && getCalls[0].size == written.size
      && GetImageRegistration(d, Reply(StatusOk, lastError, written.value.i)).result == Success(on)
  {
  }

  /** `Device::get_playback_repeat_enabled`: true exactly when the SDK answers 1. */
  function GetPlaybackRepeatEnabled(d: Device, reply: Reply<CInt>): (r: Step<Result<bool>>)
    ensures Issues(r.calls, DeviceGetProperty(d.handle, PropPlaybackRepeatEnabled, IntSize))
    ensures r.result.Success? <==> reply.status == StatusOk
    ensures r.result.Success? ==> (r.result.value <==> reply.value == 1)
    ensures r.result.Failure? ==> r.result.error == StatusFromInt(reply.status, reply.lastError)
  {
    var got := GetProperty(d, PropPlaybackRepeatEnabled, IntSize, reply);
    match got.result
    case Success(v) => Step(Success(v == 1), got.calls)
    case Failure(e) => Step(Failure(e), got.calls)
  }

  /** `impl Drop for Device`: closes the handle. */
  function Drop(d: Device): (calls: seq<NativeCall>)
    ensures calls == [DeviceClose(d.handle)]
  {
    [DeviceClose(d.handle)]
  }
}
