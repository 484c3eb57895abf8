# rust-openni2, modelled in Dafny

rust-openni2 is a thin Rust wrapper over the OpenNI 2 C SDK for depth cameras.
This project models the translation layer the wrapper puts around the SDK's
calls:

- how an `OniStatus` becomes a `Status`, and how `Status` is displayed;
- the code-backed enumerations with their `from_int` decoders;
- `VideoMode`, `SensorInfo`, `DeviceInfo` and `Version`;
- the cropping, flag, video-mode and image-registration encodings;
- the C-string rules on the way in (`CString::new`) and on the way out
  (`CStr::from_ptr`, `to_str`, `to_string_lossy`);
- the size assertions of `Frame::pixels`;
- the version code passed to `oniInitialize`;
- the device-callback trampolines;
- the recorder's lifetime.

The SDK itself is an oracle. Every wrapper operation takes the SDK's answer to
its call as a parameter: a `Reply` holding the status code, the error text
`oniGetExtendedError` would return, and the value written through the
out-pointer. The operation returns its result together with the list of
`NativeCall`s it issued, with their arguments. So "nothing is sent to the SDK"
reads as `calls == []`, and an encoding can be read off the arguments of the
call. Every property holds whatever the SDK answers. The SDK's promises about
the memory it hands back are stated as preconditions:

- `WellFormed`: a frame's `dataSize` is the length of its buffer;
- `IsTerminatedBuffer`: a fixed `char[ONI_MAX_STR]` buffer holds a NUL;
- `ValidSensorInfo`: the sensor-info count is not negative and that many video modes are readable, so the modes pointer is not null (the source asserts this);
- `ValidEvent`: a state-change event carries a known state.

A panic in the source (`from_int` on an unknown code, or decoding an unknown
pixel format) is also a precondition. The exceptions are the two `assert_eq!`s
of `Frame::pixels`: they are modelled as an explicit `Asserted` outcome,
because which inputs pass them is the point.

The modules follow the crate's files:

- `Types` is types.rs;
- `Frames` is frame.rs;
- `Streams` is stream.rs;
- `Devices` is device.rs;
- `Library` is lib.rs;
- `Recorders` is recorder.rs.

Five modules support them:

- `CInterop`: integer widths and casts, and C strings;
- `Oni`: the native constants, the structs and the `NativeCall`s;
- `Text`: decimal rendering, UTF-8, and `{:?}` escaping;
- `Whitespace`: the UTF-8 encodings of the White_Space characters, and `trim_start` and `trim_end`;
- `Trimming`: `trim`, and what it cuts and keeps.

The numeric codes are those of the OpenNI 2 C headers: OniCEnums.h,
OniCProperties.h and OniCTypes.h. openni2-sys, which re-exports them, is not
part of this model.

Three places in the source do not compile as written. Each is modelled as its
evident intent:

- `get_video_mode` builds a `VideoMode` without its `pixel_format` field
  (src/stream.rs:169-173). The model decodes the pixel format, as `From<OniVideoMode>` does.
- `read_frame` calls `frame_from_pointer` (src/stream.rs:355), which does not exist. The model uses `Frame::from_pointer`.
- `set_video_mode` writes `P::ONI_PIXEL_FORMAT` (src/stream.rs:183), but `trait Pixel` declares no such constant (src/types.rs:256-262). The model takes the stream's pixel format as given.

A stream's pixel type parameter `P` is a value here: the `pixel` field of
`Stream`. It holds a pixel format and `size_of::<P>()`. In the source, `P` is
one of `OniDepthPixel`, `OniGrayscale8Pixel`, `OniRGB888Pixel` and
`OniYUV422DoublePixel`. Since the trait attaches no format to them, the
model's `PixelType.format` is a free parameter, unrelated to `size`.

## Model

| member | source | states |
|---|---|---|
| CInterop.AsU16 | src/frame.rs:22-23 | `as u16` keeps the value modulo 2^16 and leaves values already in range unchanged |
| CInterop.WrapI32 | src/lib.rs:112 | an `i32` expression wraps modulo 2^32 into the `i32` range, exact when in range |
| CInterop.AsUsize | src/frame.rs:43-44 | `c_int as usize` is congruent to the value modulo 2^64, and is the value itself when it is not negative |
| CInterop.MulUsize | src/frame.rs:43-44 | `usize` products wrap modulo 2^64 and are exact below 2^64 |
| CInterop.FlagCode | src/stream.rs:215-217 | a `bool` reaches C as 1 exactly when true and 0 exactly when false |
| CInterop.CStringNew | src/device.rs:53-57 | `CString::new` refuses exactly the strings holding a NUL; any other becomes its bytes and one NUL |
| CInterop.CStrFrom | src/device.rs:354 | `CStr::from_ptr` yields a NUL-free prefix of the buffer that stops at a NUL |
| CInterop.CStringRoundTrip | src/device.rs:53-69 | what C reads from a string the wrapper encodes is the original string |
| CInterop.CStrDependsOnlyOnPrefix | src/device.rs:354-356 | two buffers that agree up to the first NUL decode alike |
| Text.Decimal | src/types.rs:29 | `{}` of an integer is non-empty and holds no dot and no NUL |
| Text.DecimalRoundTrip | src/types.rs:29 | the integer can be parsed back from its `{}` text |
| Text.DecimalInjective | src/types.rs:247 | different integers have different `{}` texts |
| Text.Utf8LossyKeepsValid | src/device.rs:354-356 | `to_string_lossy` leaves well-formed UTF-8 unchanged |
| Text.Utf8LossyIsValid | src/device.rs:354-356 | `to_string_lossy` always yields well-formed UTF-8 |
| Text.Utf8LossyKeepsNoNul | src/device.rs:354-356 | `to_string_lossy` of NUL-free bytes is NUL-free |
| Whitespace.TrimStart | src/lib.rs:143 | `trim_start` returns a suffix of its input that does not start with white space |
| Whitespace.TrimEnd | src/lib.rs:143 | `trim_end` returns a prefix of its input that does not end with white space |
| Whitespace.LeadingRunIsMaximal | src/lib.rs:143 | after the leading white-space run `trim_start` cuts, no white-space character is left at the front |
| Trimming.LeadingRunIsSpace | src/lib.rs:143 | the leading run `trim_start` removes is all white space |
| Whitespace.TrailingRunIsMaximal | src/lib.rs:143 | before the trailing white-space run `trim_end` cuts, no white-space character is left at the back |
| Trimming.TrailingRunIsSpace | src/lib.rs:143 | the trailing run `trim_end` removes is all white space |
| Trimming.Trim | src/lib.rs:143 | `trim` returns a contiguous slice of its input with no white space at either end, and the bytes it cuts before and after that slice are all white space |
| Trimming.TrimRemovesPadding | src/lib.rs:143 | `trim` of well-formed unpadded text surrounded by any white space is exactly that text |
| Trimming.TrimKeepsUnpadded | src/lib.rs:143 | `trim` of text without surrounding white space is that text |
| Trimming.TrimIdempotent | src/lib.rs:143 | trimming twice is trimming once |
| Text.DebugStr | src/recorder.rs:17 | `{:?}` of a `str` is enclosed in double quotes |
| Text.EscapeDebugRoundTrip | src/recorder.rs:17 | the `{:?}` escaping can be undone, so the rendering identifies the string |
| Text.EscapeDebugHasNoNul | src/recorder.rs:17 | the `{:?}` rendering never holds a NUL byte |
| Types.ExtendedError | src/lib.rs:137-146 | well-formed UTF-8 error text is returned trimmed: a slice without white space at either end, with only white space cut before and after it; ill-formed text gives "Unknown error" |
| Types.ExtendedErrorKeepsCleanText | src/lib.rs:137-146 | a clean error message reaches the caller unchanged, whatever follows its NUL |
| Types.ExtendedErrorTrimsPadding | src/lib.rs:137-146 | a well-formed message padded with white space reaches the caller without its padding, whatever follows its NUL |
| Types.StatusFromInt | src/types.rs:19-31 | each named code gives its own variant and only code 0 gives `Ok`; code 1 gives `Error` with the extended error; an unknown code gives `Error("Unknown status code N")` |
| Types.UnknownStatusNamesCode | src/types.rs:29 | the code can be read back from an unknown-status message |
| Types.StatusFromIntSeparatesCodes | src/types.rs:20-30 | two different codes, neither of them ONI_STATUS_ERROR, never give the same `Status` |
| Types.DisplayStatus | src/types.rs:34-48 | the display starts with "OpenNI2 error: " and an `Error` shows its message verbatim after it |
| Types.DisplaySeparatesFixedStatuses | src/types.rs:36-46 | the seven fixed-text statuses display pairwise differently |
| Types.ToResult | src/stream.rs:74-78 | `Ok` exactly when the status is ONI_STATUS_OK; otherwise `Err` with the mapped status |
| Types.CallsFor | src/types.rs:22 | the error text is queried after a call exactly when its status is ONI_STATUS_ERROR |
| Types.SensorTypeFromInt | src/types.rs:65-74 | decoding a known sensor code gives the variant with that code |
| Types.SensorTypeRoundTrip | src/types.rs:59-74 | `from_int(t as i32) == t` for every sensor type |
| Types.PixelFormatFromInt | src/types.rs:101-117 | decoding a known pixel-format code gives the variant with that code |
| Types.PixelFormatRoundTrip | src/types.rs:85-117 | `from_int(f as i32) == f` for every pixel format |
| Types.BytesPerPixel | src/types.rs:126-140 | every format has 1 to 4 bytes; each size holds for exactly the formats listed for it |
| Types.DeviceStateFromInt | src/types.rs:152-162 | decoding a known device-state code gives the variant with that code |
| Types.DeviceStateRoundTrip | src/types.rs:145-162 | `from_int(s as i32) == s` for every device state |
| Types.ImageRegistrationFromInt | src/types.rs:178-186 | decoding a known registration code gives the variant with that code |
| Types.ImageRegistrationRoundTrip | src/types.rs:173-186 | `from_int(m as i32) == m` for every registration mode |
| Types.TimeoutFromInt | src/types.rs:202-210 | decoding a known timeout code gives the variant with that code |
| Types.TimeoutRoundTrip | src/types.rs:197-210 | `from_int(t as i32) == t` for every timeout |
| Types.LogLevelCodesDistinct | src/types.rs:265-273 | different log levels reach the SDK as different severities |
| Types.VideoModeFromOni | src/types.rs:226-235 | the pixel format is decoded; resolution and fps are copied unchanged |
| Types.VideoModeRoundTrip | src/types.rs:226-235 | decoding the native form of a `VideoMode` gives it back |
| Types.OniVideoModeRoundTrip | src/types.rs:226-235 | a decodable native video mode is recovered from its decoding |
| Types.DecodeVideoModes | src/stream.rs:323-326 | the list of decoded modes has one entry per native mode, decoded pointwise |
| Types.DecodeVideoModesRoundTrip | src/stream.rs:323-326 | re-encoding the decoded list gives back the native list |
| Types.SensorInfoFromOni | src/device.rs:119-129 | the reported type is the given one; there are exactly `numSupportedVideoModes` modes, each decoded |
| Types.DisplayVersion | src/types.rs:245-249 | the dotted version text holds no NUL |
| Types.DisplayVersionInjective | src/types.rs:245-249 | different versions display differently: the text determines all four numbers |
| Frames.FromPointer | src/frame.rs:17-27 | the frame keeps the native frame; its width and height are the native ones truncated to `u16` |
| Frames.FrameVideoMode | src/frame.rs:29-31 | the frame's video mode is the decoding of its native video mode and nothing else |
| Frames.PixelCountAsWritten | src/frame.rs:38-48 | the two assertions as written, in wrapping `usize` arithmetic: which frames pass, and the slice length they give |
| Frames.PixelsAsWrittenOverrunsBuffer | src/frame.rs:42-46 | a frame with an empty buffer passes both assertions and is given a slice of 2^62 pixels |
| Frames.FlattenChunks | src/frame.rs:46 | reading the buffer as pixels loses and adds nothing |
| Frames.Pixels | src/frame.rs:38-48 | the type-size assertion fails exactly on a size mismatch; success exactly when sizes match, dimensions are not negative and `width*height*size == dataSize`; then `width*height` pixels of `size` bytes that concatenate to the buffer |
| Frames.PixelsAgreeOnNonNegativeDimensions | src/frame.rs:38-48 | with non-negative dimensions the checks as written and as corrected accept the same frames and give the same length |
| Frames.PixelsOwned | src/frame.rs:50-52 | `pixels_owned` is an element-by-element copy of `pixels`, failing exactly where it fails |
| Streams.Create | src/stream.rs:45-58 | one create call on the device with the sensor code; `Ok(stream)` with the SDK's handle exactly when the status is OK |
| Streams.Start | src/stream.rs:73-79 | `Ok` exactly when the status is OK, else the mapped status |
| Streams.Stop | src/stream.rs:82-84 | one stop call, nothing to fail |
| Streams.IsPropertySupported | src/stream.rs:86-89 | true exactly when the SDK answers 1 |
| Streams.GetProperty | src/stream.rs:259-276 | one read of the property at the type's size; the SDK's value exactly when the status is OK, else the mapped error |
| Streams.SetProperty | src/stream.rs:278-293 | one write of the value at its own size; `Ok` exactly when the status is OK |
| Streams.EncodeCropping | src/stream.rs:136-152 | `None` is written as all zeros; `Some(c)` as enabled 1 with the fields widened unchanged |
| Streams.DecodeCropping | src/stream.rs:99-111 | `Some` exactly when `enabled > 0`, with each field cast to `u16` |
| Streams.CroppingRoundTrip | src/stream.rs:99-154 | decoding the encoding of any `Option<Cropping>` gives it back |
| Streams.OniCroppingRoundTrip | src/stream.rs:99-154 | a native cropping survives decode-then-encode exactly when it has one of the two shapes the setter writes |
| Streams.GetCropping | src/stream.rs:99-111 | reads the cropping slot at its size and returns its decoding when the status is OK |
| Streams.SetCropping | src/stream.rs:136-154 | writes the encoding to the cropping slot at its size |
| Streams.SetThenGetCropping | src/stream.rs:99-154 | the getter reads the slot the setter writes, and given the written struct it returns the cropping set |
| Streams.GetVideoMode | src/stream.rs:166-175 | reads the video-mode slot; the result re-encodes to the native mode the SDK wrote |
| Streams.EncodeVideoMode | src/stream.rs:180-188 | the stream's own pixel format is written, with the caller's resolution and fps |
| Streams.SetVideoMode | src/stream.rs:180-189 | writes the encoded mode to the video-mode slot at its size |
| Streams.SetVideoModeIgnoresPixelFormat | src/stream.rs:182-187 | two modes differing only in pixel format are written identically |
| Streams.SetThenGetVideoMode | src/stream.rs:166-189 | reading back gives the mode set, with the stream's pixel format in place of the caller's |
| Streams.GetInt | src/stream.rs:193-195 | an integer property is read at `c_int` size and returned unchanged |
| Streams.SetInt | src/stream.rs:246-248 | an integer property is written unchanged at `c_int` size |
| Streams.GetFlag | src/stream.rs:208-211 | a flag getter is true exactly when the value read is 1 |
| Streams.SetFlag | src/stream.rs:215-217 | a flag setter writes 1 for true and 0 for false |
| Streams.SetThenGetFlag | src/stream.rs:208-239 | the flag getter reads the slot the setter writes, and given the written value it returns the flag set |
| Streams.SetThenGetInt | src/stream.rs:241-257 | the integer getter reads the slot the setter writes, and given the written value it returns the value set |
| Streams.GetMaxValue | src/stream.rs:193-195 | reads MAX_VALUE as a `c_int`; a failing status gives `Err` with the mapped status |
| Streams.GetMinValue | src/stream.rs:199-201 | reads MIN_VALUE as a `c_int`; a failing status gives `Err` with the mapped status |
| Streams.GetStride | src/stream.rs:203-205 | reads STRIDE as a `c_int`; a failing status gives `Err` with the mapped status |
| Streams.GetNumberOfFrames | src/stream.rs:219-221 | reads NUMBER_OF_FRAMES as a `c_int`; a failing status gives `Err` with the mapped status |
| Streams.GetMirroring | src/stream.rs:208-211 | true exactly when MIRRORING reads 1; a failing status gives `Err` with the mapped status |
| Streams.SetMirroring | src/stream.rs:215-217 | writes 1 or 0 to MIRRORING; a failing status gives `Err` with the mapped status |
| Streams.GetAutoWhiteBalance | src/stream.rs:223-226 | true exactly when AUTO_WHITE_BALANCE reads 1; a failing status gives `Err` with the mapped status |
| Streams.SetAutoWhiteBalance | src/stream.rs:228-230 | writes 1 or 0 to AUTO_WHITE_BALANCE; a failing status gives `Err` with the mapped status |
| Streams.GetAutoExposure | src/stream.rs:232-235 | true exactly when AUTO_EXPOSURE reads 1; a failing status gives `Err` with the mapped status |
| Streams.SetAutoExposure | src/stream.rs:237-239 | writes 1 or 0 to AUTO_EXPOSURE; a failing status gives `Err` with the mapped status |
| Streams.GetExposure | src/stream.rs:241-243 | reads EXPOSURE as a `c_int`; a failing status gives `Err` with the mapped status |
| Streams.SetExposure | src/stream.rs:246-248 | writes EXPOSURE unchanged; a failing status gives `Err` with the mapped status |
| Streams.GetGain | src/stream.rs:250-252 | reads GAIN as a `c_int`; a failing status gives `Err` with the mapped status |
| Streams.SetGain | src/stream.rs:255-257 | writes GAIN unchanged; a failing status gives `Err` with the mapped status |
| Streams.SensorInfo | src/stream.rs:316-335 | a null pointer gives `Err(OutOfFlow)`; otherwise the stream's own sensor type and `numSupportedVideoModes` modes, each re-encoding to the native one |
| Streams.ReadFrame | src/stream.rs:351-358 | on an OK status, the frame `Frame::from_pointer` builds from the SDK's frame: the native frame kept, width and height cast `as u16`, typed by the stream's pixel type; else the mapped error |
| Streams.Drop | src/stream.rs:470-475 | dropping a stream stops it, then destroys it |
| Devices.BufferString | src/device.rs:184 | a fixed buffer reads as NUL-free well-formed UTF-8, and as its exact text before the first NUL when that text is well-formed |
| Devices.BufferStringIgnoresTail | src/device.rs:184 | bytes after the first NUL of a buffer are never read |
| Devices.DeviceInfoFromOni | src/device.rs:351-361 | uri, vendor and name are the buffers' NUL-terminated prefixes (exactly, when well-formed); the USB ids are unchanged |
| Devices.Open | src/device.rs:60-74 | one open call with the given URI (null for `None`); `Ok(device)` exactly when the status is OK |
| Devices.OpenDefault | src/device.rs:34-36 | opens with the null URI; a failing status gives `Err` with the mapped status |
| Devices.OpenUri | src/device.rs:52-58 | a URI holding a NUL gives ``Error("Uri `..` was not a valid CString")`` with no SDK call; any other is opened as a C string that reads back as the URI, and a failing status gives `Err` with the mapped status |
| Devices.OpenUriErrorQuotesUri | src/device.rs:56 | the refusal message quotes the URI verbatim |
| Devices.ReportedUriOpens | src/device.rs:45-48 | a URI a device reports is never refused by `open_uri` and reaches the SDK intact |
| Devices.Info | src/device.rs:91-98 | on an OK status, the native info converted in all five fields (`DeviceInfoFromOni`), so the URI is NUL-free and the USB ids are unchanged; else the mapped error |
| Devices.GetSensorInfo | src/device.rs:113-132 | a null pointer gives `None`; otherwise the requested sensor type and `numSupportedVideoModes` modes, each re-encoding to the native one |
| Devices.CreateStream | src/device.rs:147-149 | a stream on this device's handle for the sensor, exactly when the status is OK; a failing status gives `Err` with the mapped status |
| Devices.ColorDepthSync | src/device.rs:151-155 | true exactly when the SDK answers non-zero |
| Devices.EnableColorDepthSync | src/device.rs:157-164 | disabling always reports `Ok`; enabling reports the mapped native status |
| Devices.IsPropertySupported | src/device.rs:167-170 | true exactly when the SDK answers 1 |
| Devices.GetProperty | src/device.rs:286-302 | one read at the type's size; the SDK's value exactly when the status is OK |
| Devices.SetProperty | src/device.rs:304-318 | one write at the value's size; `Ok` exactly when the status is OK |
| Devices.GetStringProperty | src/device.rs:182-186 | a string property is read at ONI_MAX_STR and decoded up to its first NUL |
| Devices.GetFirmwareVersion | src/device.rs:182-186 | the firmware version is the buffer's text before the first NUL; always NUL-free well-formed UTF-8; a failing status gives `Err` with the mapped status |
| Devices.GetSerialNumber | src/device.rs:230-234 | the serial number is the buffer's text before the first NUL; always NUL-free well-formed UTF-8; a failing status gives `Err` with the mapped status |
| Devices.GetDriverVersion | src/device.rs:201-204 | the `OniVersion` the SDK writes, read at its size; a failing status gives `Err` with the mapped status |
| Devices.GetHardwareVersion | src/device.rs:216-218 | the hardware version, read as a `c_int`; a failing status gives `Err` with the mapped status |
| Devices.IsImageRegistrationModeSupported | src/device.rs:240-242 | asks for the mode's code; true exactly when the SDK answers non-zero |
| Devices.RegistrationCode | src/device.rs:254 | `on` is written as DEPTH_TO_COLOR and off as OFF |
| Devices.GetImageRegistration | src/device.rs:245-248 | true exactly when the mode read is DEPTH_TO_COLOR |
| Devices.SetImageRegistration | src/device.rs:251-257 | writes the registration code of the flag at `c_int` size |
| Devices.SetThenGetImageRegistration | src/device.rs:245-257 | the getter reads the slot the setter writes (same device, property and size), and given the written mode it returns the flag set |
| Devices.GetPlaybackRepeatEnabled | src/device.rs:276-279 | true exactly when the value read is 1; a failing status gives `Err` with the mapped status |
| Devices.Drop | src/device.rs:330-334 | dropping a device closes its handle |
| Library.VersionCode | src/lib.rs:112 | the code is `major*1000+minor` whenever that fits in an `i32`, and wraps otherwise |
| Library.VersionCodeRecoversVersion | src/lib.rs:111-116 | for realistic versions, major and minor can be read back from the code |
| Library.InitVersion | src/lib.rs:111-116 | initialises with the code of `major.minor`; `Ok` exactly when the status is OK |
| Library.Init | src/lib.rs:103-108 | initialises with code 2002 |
| Library.GetDeviceList | src/lib.rs:157-168 | exactly `count` entries, the SDK's entries converted in order, each with a NUL-free URI; the list is released after it is read |
| Library.Trampoline | src/lib.rs:197-217 | an event runs only its own closure, on the converted info (and the decoded state); the other two closures are unchanged |
| Library.DispatchRunsEachClosureOnItsOwnEvents | src/lib.rs:197-223 | over any run of events on the one persistent box, each closure's state is its own events folded in arrival order |
| Library.RegisterDeviceCallbacks | src/lib.rs:232-242 | `Ok(handle)` exactly when the registration status is OK |
| Library.Unregister | src/lib.rs:315-323 | dropping the handle unregisters its registration |
| Library.SetConsoleLog | src/lib.rs:246-254 | sends 1 for true and 0 for false; reports the mapped status |
| Library.SetFileLog | src/lib.rs:257-265 | sends 1 for true and 0 for false; reports the mapped status |
| Library.SetLogLocation | src/lib.rs:269-279 | a path holding a NUL gives `Error("Invalid directory path")` with no SDK call; any other reaches the SDK as a C string that reads back as the path |
| Library.GetLogFileName | src/lib.rs:292-300 | on an OK status, the 256-byte buffer's text before its first NUL |
| Library.SetLogLevel | src/lib.rs:303-305 | sends the level's severity code; reports the mapped status |
| Recorders.Create | src/recorder.rs:13-25 | a name holding a NUL gives `Error("Invalid filename: ..")` with no SDK call; otherwise `Ok(recorder)` exactly when the status is OK, the name reaching the SDK intact |
| Recorders.CreateErrorNamesFile | src/recorder.rs:16-18 | the refusal message identifies the file name |
| Recorders.AttachStream | src/recorder.rs:29-38 | sends 1 when lossy and 0 otherwise; `Ok` exactly when the status is OK |
| Recorders.Start | src/recorder.rs:40-45 | `Ok` exactly when the status is OK, else the mapped status |
| Recorders.Stop | src/recorder.rs:47-49 | one stop call, nothing to fail |
| Recorders.Drop | src/recorder.rs:52-56 | dropping always destroys the recorder |
| Recorders.UseCalls | src/recorder.rs:29-49 | using a live recorder only calls that recorder (or the error-text query), and never destroys it |
| Recorders.LifetimeEndsInOneDestroy | src/recorder.rs:29-56 | however it is used, a recorder's calls end with exactly one destroy of its own handle and only ever touch that recorder |

## Left out

- The SDK itself. This covers device and stream storage, frame capture and recorder I/O. Its answers are parameters.
- Floating point: the FOV getters (src/stream.rs:156-162), playback speed (src/device.rs:264-271) and `depth_to_world`/`world_to_depth` (src/stream.rs:365-385).
- The stream listener (src/stream.rs:429-461, 488-505). It runs on SDK threads and its unregistration races with calls in flight, which this model cannot express.
- `set_playback_repeat_enabled` (src/device.rs:282-284). It writes a one-byte Rust `bool` where the getter reads a `c_int`, so there is no round trip to state at this level.
- `shutdown` and `get_version` (src/lib.rs:119-135). Each is a single SDK call with nothing to translate.
- `Frame::inspect` (src/frame.rs:33-36), the `println!` in `get_log_file_name` (src/lib.rs:295), and the `Debug` formatting of `Stream` (src/stream.rs:464-468). These are output only.
- The raw-pointer and lifetime machinery: `PhantomData`, `Box::into_raw`, `mem::forget` and `mem::uninitialized`. The persistence of the closure box is modelled as state threaded through `Library.Dispatch`.
- src/enums.rs is not part of this model. It is not declared as a module of the crate. src/main.rs and the examples are not part of this model either.
- Trimming.Trim works byte by byte on the UTF-8 encodings of the White_Space characters. This agrees with `str::trim` on well-formed input, which is the only input it receives.
- Text.DebugStr escapes only ASCII control bytes, the quote and the backslash. Rust's `{:?}` also escapes some non-ASCII characters (grapheme extenders, for one), which the model copies unchanged.
- Devices.DeviceInfoFromOni: the USB ids are `uint16_t` in the C struct, so `as u16` is the identity. The model says so instead of modelling a truncation.
- Library.VersionCodeRecoversVersion: stated only for major versions below 2^21 and minor versions below 1000; beyond that the code wraps or overlaps.
- Streams.SensorInfo, Devices.GetSensorInfo: a null `pSupportedVideoModes`, which the source asserts against (src/stream.rs:324, src/device.rs:121), is excluded by `ValidSensorInfo` as a promise of the SDK; the model does not describe the panic.
- Library.GetDeviceList: the status of `oniGetDeviceList` is ignored, as in the source. A null list pointer (an assertion) and a negative count are excluded by its precondition.
- CInterop.WrapI32, CInterop.MulUsize, Library.VersionCode, Frames.PixelCountAsWritten: these wrap on overflow, which is what a release build does. A debug build panics instead on the overflowing product at src/frame.rs:43-44 and on `major * 1000 + minor` at src/lib.rs:112. The model does not cover the debug build.
- Frames.Pixels: its precondition assumes a frame's `dataSize` is the length of its buffer. A frame whose declared size exceeds its buffer is not modelled.

Where the code and its documentation differ, the model follows the code:

- `get_property` does not check the length the SDK writes back.
- `Recorder::create` creates no directories.
- `open_uri` reports an invalid URI as `Error(..)`.

## Findings

| source | as written | input that shows it | evidently intended | confidence | as-written member | corrected member |
|---|---|---|---|---|---|---|
| src/frame.rs:42-46 | `width as usize * height as usize`, compared with `dataSize as usize` in wrapping `usize` arithmetic | in a release build: width = height = `i32::MIN`, `dataSize` = 0, empty buffer, a 4-byte format: both assertions pass and the slice has 2^62 elements | refuse negative dimensions and compare the exact product, so the slice never exceeds the buffer | not executed | Frames.PixelCountAsWritten, Frames.PixelsAsWrittenOverrunsBuffer | Frames.Pixels |
