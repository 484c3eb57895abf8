/**
 The native OpenNI 2 C interface as the wrapper sees it: the numeric codes of
 its enumerations, the fixed-layout structs it fills in, the calls the wrapper
 makes, and the shape of an answer.

 The SDK itself is not modelled. Every wrapper operation takes the SDK's answer
 to its call as a parameter (a `Reply`) and reports the calls it issued, with
 their arguments, as a list of `NativeCall` values; every property below holds
 whatever the SDK answers.

 The numeric values are those of the OpenNI 2 C headers (OniCEnums.h,
 OniCProperties.h, OniCTypes.h).
 */
module Oni {
  import opened CInterop

  // OniStatus
  const StatusOk: CInt := 0
  const StatusError: CInt := 1
  const StatusNotImplemented: CInt := 2
  const StatusNotSupported: CInt := 3
  const StatusBadParameter: CInt := 4
  const StatusOutOfFlow: CInt := 5
  const StatusNoDevice: CInt := 6
  const StatusTimeOut: CInt := 102

  // OniSensorType
  const SensorIr: CInt := 1
  const SensorColor: CInt := 2
  const SensorDepth: CInt := 3

  // OniPixelFormat
  const PixelFormatDepth1Mm: CInt := 100
  const PixelFormatDepth100Um: CInt := 101
  const PixelFormatShift92: CInt := 102
  const PixelFormatShift93: CInt := 103
  const PixelFormatRgb888: CInt := 200
  const PixelFormatYuv422: CInt := 201
  const PixelFormatGray8: CInt := 202
  const PixelFormatGray16: CInt := 203
  const PixelFormatJpeg: CInt := 204
  const PixelFormatYuyv: CInt := 205

  // OniDeviceState
  const DeviceStateOk: CInt := 0
  const DeviceStateError: CInt := 1
  const DeviceStateNotReady: CInt := 2
  const DeviceStateEof: CInt := 3

  // OniImageRegistrationMode
  const ImageRegistrationOff: CInt := 0
  const ImageRegistrationDepthToColor: CInt := 1

  // Timeouts of oniWaitForAnyStream
  const TimeoutNoneCode: CInt := 0
  const TimeoutForeverCode: CInt := -1

  /** Capacity of every fixed string buffer in the SDK's structs and string properties. */
  const MaxStr: nat := 256

  /** Stream properties the wrapper reads or writes, with their OniStreamProperty ids. */
  datatype StreamProperty =
    | PropCropping | PropHorizontalFov | PropVerticalFov | PropVideoMode
    | PropMaxValue | PropMinValue | PropStride | PropMirroring | PropNumberOfFrames
    | PropAutoWhiteBalance | PropAutoExposure | PropExposure | PropGain
  {
    function Id(): CInt {
      match this
      case PropCropping => 0
      case PropHorizontalFov => 1
      case PropVerticalFov => 2
      case PropVideoMode => 3
      case PropMaxValue => 4
      case PropMinValue => 5
      case PropStride => 6
      case PropMirroring => 7
      case PropNumberOfFrames => 8
      case PropAutoWhiteBalance => 100
      case PropAutoExposure => 101
      case PropExposure => 102
      case PropGain => 103
    }
  }

  /** Device properties the wrapper reads or writes, with their OniDeviceProperty ids. */
  datatype DeviceProperty =
    | PropFirmwareVersion | PropDriverVersion | PropHardwareVersion | PropSerialNumber
    | PropImageRegistration | PropPlaybackSpeed | PropPlaybackRepeatEnabled
  {
    function Id(): CInt {
      match this
      case PropFirmwareVersion => 0
      case PropDriverVersion => 1
      case PropHardwareVersion => 2
      case PropSerialNumber => 3
      case PropImageRegistration => 5
      case PropPlaybackSpeed => 100
      case PropPlaybackRepeatEnabled => 101
    }
  }

  /** `OniCropping`, field for field. */
  datatype OniCropping = OniCropping(enabled: CInt, originX: CInt, originY: CInt, width: CInt, height: CInt)

  /** `OniVideoMode`; `pixelFormat` is a raw `OniPixelFormat` code. */
  datatype OniVideoMode = OniVideoMode(pixelFormat: CInt, resolutionX: CInt, resolutionY: CInt, fps: CInt)

  /**
   The fields of `OniFrame` the wrapper reads: the declared byte size of the
   buffer, the buffer itself, the dimensions and the video mode.
   */
  datatype OniFrame = OniFrame(dataSize: CInt, data: seq<Byte>, width: CInt, height: CInt, videoMode: OniVideoMode)

  /**
   `OniSensorInfo`: the sensor type code, the count `numSupportedVideoModes`
   and the memory `pSupportedVideoModes` points to.
   */
  datatype OniSensorInfo = OniSensorInfo(sensorType: CInt, numSupportedVideoModes: CInt, supportedVideoModes: seq<OniVideoMode>)

  /** `OniDeviceInfo`: three `char[ONI_MAX_STR]` buffers and two `uint16_t` USB ids. */
  datatype OniDeviceInfo = OniDeviceInfo(uri: seq<Byte>, vendor: seq<Byte>, name: seq<Byte>, usbVendorId: U16, usbProductId: U16)

  /** `OniVersion`. */
  datatype OniVersion = OniVersion(major: CInt, minor: CInt, maintenance: CInt, build: CInt)

  /** A value written through `oniStreamSetProperty` / `oniDeviceSetProperty`. */
  datatype PropertyValue = IntValue(i: CInt) | CroppingValue(cropping: OniCropping) | VideoModeValue(mode: OniVideoMode)

  /** `size_of` of each value type the wrapper passes as the property length. */
  function SizeOf(v: PropertyValue): nat {
    match v
    case IntValue(_) => IntSize
    case CroppingValue(_) => CroppingSize
    case VideoModeValue(_) => VideoModeSize
  }

  /** `size_of` of `c_int`, `OniCropping`, `OniVideoMode` and `OniVersion`. */
  const IntSize: nat := 4
  const CroppingSize: nat := 20
  const VideoModeSize: nat := 16
  const VersionSize: nat := 16

  /** One call into the SDK, with the arguments the wrapper passes. `None` for a URI is the null pointer. */
  datatype NativeCall =
    | Initialize(apiVersion: CInt)
    | GetExtendedError
    | GetDeviceList
    | ReleaseDeviceList
    | RegisterDeviceCallbacks
    | UnregisterDeviceCallbacks(registration: Handle)
    | SetLogConsoleOutput(consoleOn: CInt)
    | SetLogFileOutput(fileOn: CInt)
    | SetLogOutputFolder(folder: seq<Byte>)
    | GetLogFileName(capacity: nat)
    | SetLogMinSeverity(severity: CInt)
    | DeviceOpen(uri: Option<seq<Byte>>)
    | DeviceClose(device: Handle)
    | DeviceGetInfo(device: Handle)
    | DeviceGetSensorInfo(device: Handle, sensorType: CInt)
    | DeviceCreateStream(device: Handle, sensorType: CInt)
    | DeviceGetDepthColorSyncEnabled(device: Handle)
    | DeviceEnableDepthColorSync(device: Handle)
    | DeviceDisableDepthColorSync(device: Handle)
    | DeviceIsPropertySupported(device: Handle, propertyId: CInt)
    | DeviceIsImageRegistrationModeSupported(device: Handle, mode: CInt)
    | DeviceGetProperty(device: Handle, deviceProperty: DeviceProperty, size: nat)
    | DeviceSetProperty(device: Handle, deviceProperty: DeviceProperty, value: PropertyValue, size: nat)
    | StreamStart(stream: Handle)
    | StreamStop(stream: Handle)
    | StreamDestroy(stream: Handle)
    | StreamIsPropertySupported(stream: Handle, propertyId: CInt)
    | StreamGetProperty(stream: Handle, streamProperty: StreamProperty, size: nat)
    | StreamSetProperty(stream: Handle, streamProperty: StreamProperty, value: PropertyValue, size: nat)
    | StreamGetSensorInfo(stream: Handle)
    | StreamReadFrame(stream: Handle)
    | CreateRecorder(fileName: seq<Byte>)
    | RecorderAttachStream(recorder: Handle, attached: Handle, allowLossy: CInt)
    | RecorderStart(recorder: Handle)
    | RecorderStop(recorder: Handle)
    | RecorderDestroy(recorder: Handle)

  /**
   The SDK's answer to one call: the status code it returned, the memory
   `oniGetExtendedError` would point to right after the call (the C string
   ends at its first NUL, or just past these bytes), and the value it wrote
   through the call's out-pointer.
   */
  datatype Reply<T> = Reply(status: CInt, lastError: seq<Byte>, value: T)
}
