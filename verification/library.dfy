/**
 The crate's free functions (lib.rs): initialising the SDK with a version
 code, listing devices, the device-event callbacks and their trampolines,
 and the logging switches.
 */
module Library {
  import opened CInterop
  import opened Oni
  import opened Text
  import opened Types
  import opened Devices

  // ---------------------------------------------------------------------------
  // Initialisation

  /** `major * 1000 + minor` as an `i32` expression, which wraps in a release build. */
  function VersionCode(major: CInt, minor: CInt): (c: CInt)
    ensures -0x8000_0000 <= major * 1000 + minor < 0x8000_0000 ==> c == major * 1000 + minor
    ensures (major * 1000 + minor - c) % 0x1_0000_0000 == 0
  {
    WrapI32(major * 1000 + minor)
  }

  /** For every version the SDK could name, the code it receives determines the major and minor numbers. */
  lemma VersionCodeRecoversVersion(major: CInt, minor: CInt)
    requires 0 <= major < 0x20_0000 && 0 <= minor < 1000
    ensures VersionCode(major, minor) / 1000 == major
    ensures VersionCode(major, minor) % 1000 == minor
  {
    var c := major * 1000 + minor;
    assert 0 <= c < 0x8000_0000;
    assert VersionCode(major, minor) == c;
  }

  /** `init_version`: initialises the SDK with the version code of `major.minor`. */
  function InitVersion(major: CInt, minor: CInt, reply: Reply<()>): (r: Step<Result<()>>)
    ensures Issues(r.calls, Initialize(VersionCode(major, minor)))
    ensures r.result.Success? <==> reply.status == StatusOk
    ensures r.result.Failure? ==> r.result.error == StatusFromInt(reply.status, reply.lastError) && !r.result.error.Ok?
  {
    Step(ToResult(reply.status, reply.lastError, ()), CallsFor(Initialize(VersionCode(major, minor)), reply.status))
  }

  /** `init`: initialises the SDK for API version 2.2, whose code is 2002. */
  function Init(reply: Reply<()>): (r: Step<Result<()>>)
    ensures Issues(r.calls, Initialize(2002))
    ensures r.result.Success? <==> reply.status == StatusOk
    ensures r.result.Failure? ==> r.result.error == StatusFromInt(reply.status, reply.lastError)
  {
    InitVersion(2, 2, reply)
  }

  // ---------------------------------------------------------------------------
  // Device list

  /**
   `get_device_list`: the first `count` entries of the list the SDK hands
   out, converted, where `count` is the number the SDK wrote back; the status
   of the listing call is not looked at, and the list is released afterwards.
   */
  method GetDeviceList(count: CInt, infos: seq<OniDeviceInfo>) returns (list: seq<DeviceInfo>, calls: seq<NativeCall>)
    requires 0 <= count <= |infos|
    requires forall i :: 0 <= i < count ==> ValidOniDeviceInfo(infos[i])
    ensures |list| == count
    ensures forall i :: 0 <= i < count ==> list[i] == DeviceInfoFromOni(infos[i])
    ensures forall i :: 0 <= i < count ==> Nul !in list[i].uri
    ensures calls == [Oni.GetDeviceList, ReleaseDeviceList]
  {
    list := seq(count, k requires 0 <= k < count => DeviceInfoFromOni(infos[k]));
    calls := [Oni.GetDeviceList, ReleaseDeviceList];
  }

  // ---------------------------------------------------------------------------
  // Device callbacks

  /** The state the three boxed closures hold (`ClosureStruct`). */
  datatype Closures<A, B, C> = Closures(connected: A, disconnected: B, stateChanged: C)

  /** What each closure does to its own state when it is called. */
  datatype Callbacks<!A, !B, !C> = Callbacks(
    onConnected: (A, DeviceInfo) -> A,
    onDisconnected: (B, DeviceInfo) -> B,
    onStateChanged: (C, DeviceInfo, DeviceState) -> C)

  /** An event the SDK delivers to one of the three registered C callbacks. */
  datatype DeviceEvent =
    | Connected(info: OniDeviceInfo)
    | Disconnected(info: OniDeviceInfo)
    | StateChanged(info: OniDeviceInfo, state: CInt)

  /** What the SDK promises of an event: a terminated device info and, for a state change, a known state. */
  predicate ValidEvent(e: DeviceEvent) {
    ValidOniDeviceInfo(e.info) && (e.StateChanged? ==> IsDeviceStateCode(e.state))
  }

  predicate ValidEvents(events: seq<DeviceEvent>) {
    forall i :: 0 <= i < |events| ==> ValidEvent(events[i])
  }

  /**
   The three `extern "C"` trampolines: each reopens the box, converts the
   device info (and the state), calls its own closure and forgets the box
   again, so the other two closures are untouched and nothing is freed.
   */
  function Trampoline<A, B, C>(cb: Callbacks<A, B, C>, st: Closures<A, B, C>, e: DeviceEvent): (r: Closures<A, B, C>)
    requires ValidEvent(e)
    ensures e.Connected? ==>
      && r.connected == cb.onConnected(st.connected, DeviceInfoFromOni(e.info))
      && r.disconnected == st.disconnected && r.stateChanged == st.stateChanged
    ensures e.Disconnected? ==>
      && r.disconnected == cb.onDisconnected(st.disconnected, DeviceInfoFromOni(e.info))
      && r.connected == st.connected && r.stateChanged == st.stateChanged
    ensures e.StateChanged? ==>
      && r.stateChanged == cb.onStateChanged(st.stateChanged, DeviceInfoFromOni(e.info), DeviceStateFromInt(e.state))
      && r.connected == st.connected && r.disconnected == st.disconnected
  {
    var info := DeviceInfoFromOni(e.info);
    match e
    case Connected(_) => st.(connected := cb.onConnected(st.connected, info))
    case Disconnected(_) => st.(disconnected := cb.onDisconnected(st.disconnected, info))
    case StateChanged(_, state) => st.(stateChanged := cb.onStateChanged(st.stateChanged, info, DeviceStateFromInt(state)))
  }

  /** A run of events delivered one after another to the same, never freed, closure box. */
  function Dispatch<A, B, C>(cb: Callbacks<A, B, C>, st: Closures<A, B, C>, events: seq<DeviceEvent>): Closures<A, B, C>
    requires ValidEvents(events)
    decreases |events|
  {
    if events == [] then st else Dispatch(cb, Trampoline(cb, st, events[0]), events[1..])
  }

  /** The device infos of the connect events, in order. */
  function ConnectedInfos(events: seq<DeviceEvent>): seq<DeviceInfo>
    requires ValidEvents(events)
  {
    if events == [] then []
    else (if events[0].Connected? then [DeviceInfoFromOni(events[0].info)] else []) + ConnectedInfos(events[1..])
  }

  /** The device infos of the disconnect events, in order. */
  function DisconnectedInfos(events: seq<DeviceEvent>): seq<DeviceInfo>
    requires ValidEvents(events)
  {
    if events == [] then []
    else (if events[0].Disconnected? then [DeviceInfoFromOni(events[0].info)] else []) + DisconnectedInfos(events[1..])
  }

  /** The device infos and decoded states of the state-change events, in order. */
  function StateChanges(events: seq<DeviceEvent>): seq<(DeviceInfo, DeviceState)>
    requires ValidEvents(events)
  {
    if events == [] then []
    else
      (if events[0].StateChanged? then [(DeviceInfoFromOni(events[0].info), DeviceStateFromInt(events[0].state))] else [])
      + StateChanges(events[1..])
  }

  /** One closure called on each of `xs` in turn. */
  function FoldInfos<S>(f: (S, DeviceInfo) -> S, s: S, xs: seq<DeviceInfo>): S {
    if xs == [] then s else FoldInfos(f, f(s, xs[0]), xs[1..])
  }

  function FoldStates<S>(f: (S, DeviceInfo, DeviceState) -> S, s: S, xs: seq<(DeviceInfo, DeviceState)>): S {
    if xs == [] then s else FoldStates(f, f(s, xs[0].0, xs[0].1), xs[1..])
  }

  /**
   Demultiplexing: after any run of events, each closure's state is what it
   reaches by being called on its own kind of event alone, in the order they
   arrived; the events of the other kinds never reach it.
   */
  lemma {:induction false} DispatchRunsEachClosureOnItsOwnEvents<A, B, C>(cb: Callbacks<A, B, C>, st: Closures<A, B, C>, events: seq<DeviceEvent>)
    requires ValidEvents(events)
    ensures Dispatch(cb, st, events).connected == FoldInfos(cb.onConnected, st.connected, ConnectedInfos(events))
    ensures Dispatch(cb, st, events).disconnected == FoldInfos(cb.onDisconnected, st.disconnected, DisconnectedInfos(events))
    ensures Dispatch(cb, st, events).stateChanged == FoldStates(cb.onStateChanged, st.stateChanged, StateChanges(events))
    decreases |events|
  {
    if events != [] {
      var e := events[0];
      var rest := events[1..];
      assert ValidEvents(rest);
      var next := Trampoline(cb, st, e);
      DispatchRunsEachClosureOnItsOwnEvents(cb, next, rest);
      var ci := ConnectedInfos(events);
      var di := DisconnectedInfos(events);
      var sc := StateChanges(events);
      if e.Connected? {
        assert ci == [DeviceInfoFromOni(e.info)] + ConnectedInfos(rest);
        assert ci[1..] == ConnectedInfos(rest);
      } else {
        assert ci == ConnectedInfos(rest);
      }
      if e.Disconnected? {
        assert di == [DeviceInfoFromOni(e.info)] + DisconnectedInfos(rest);
        assert di[1..] == DisconnectedInfos(rest);
      } else {
        assert di == DisconnectedInfos(rest);
      }
      if e.StateChanged? {
        assert sc == [(DeviceInfoFromOni(e.info), DeviceStateFromInt(e.state))] + StateChanges(rest);
        assert sc[1..] == StateChanges(rest);
      } else {
        assert sc == StateChanges(rest);
      }
    }
  }

  /** `DeviceCallbackHandle`: the SDK's registration handle. */
  datatype CallbackHandle = CallbackHandle(registration: Handle)

  /** `register_device_callbacks`: a handle exactly when the SDK accepts the registration. */
  function RegisterDeviceCallbacks(reply: Reply<Handle>): (r: Step<Result<CallbackHandle>>)
    ensures Issues(r.calls, Oni.RegisterDeviceCallbacks)
    ensures r.result.Success? <==> reply.status == StatusOk
    ensures r.result.Success? ==> r.result.value == CallbackHandle(reply.value)
    ensures r.result.Failure? ==> r.result.error == StatusFromInt(reply.status, reply.lastError) && !r.result.error.Ok?
  {
    Step(ToResult(reply.status, reply.lastError, CallbackHandle(reply.value)), CallsFor(Oni.RegisterDeviceCallbacks, reply.status))
  }

  /** `impl Drop for DeviceCallbackHandle` (and `unregister`, which only drops it). */
  function Unregister(h: CallbackHandle): (calls: seq<NativeCall>)
    ensures calls == [UnregisterDeviceCallbacks(h.registration)]
  {
    [UnregisterDeviceCallbacks(h.registration)]
  }

  // ---------------------------------------------------------------------------
  // Logging

  /** `set_console_log`: sends 1 to turn console logging on and 0 to turn it off. */
  function SetConsoleLog(on: bool, reply: Reply<()>): (r: Step<Status>)
    ensures Issues(r.calls, SetLogConsoleOutput(FlagCode(on)))
    ensures r.calls[0].consoleOn == 1 <==> on
    ensures r.result.Ok? <==> reply.status == StatusOk
    ensures r.result == StatusFromInt(reply.status, reply.lastError)
  {
    Step(StatusFromInt(reply.status, reply.lastError), CallsFor(SetLogConsoleOutput(FlagCode(on)), reply.status))
  }

  /** `set_file_log`: sends 1 to turn file logging on and 0 to turn it off. */
  function SetFileLog(on: bool, reply: Reply<()>): (r: Step<Status>)
    ensures Issues(r.calls, SetLogFileOutput(FlagCode(on)))
    ensures r.calls[0].fileOn == 1 <==> on
    ensures r.result.Ok? <==> reply.status == StatusOk
    ensures r.result == StatusFromInt(reply.status, reply.lastError)
  {
    Step(StatusFromInt(reply.status, reply.lastError), CallsFor(SetLogFileOutput(FlagCode(on)), reply.status))
  }

  const InvalidDirectoryPath: seq<Byte> := Ascii("Invalid directory path")

  /**
   `set_log_location`: a folder holding a NUL is refused before any SDK call;
   any other reaches the SDK as a C string that reads back as the folder.
   */
  function SetLogLocation(folder: seq<Byte>, reply: Reply<()>): (r: Step<Result<()>>)
    ensures Nul in folder ==> r.calls == [] && r.result == Failure(Error(InvalidDirectoryPath))
    ensures Nul !in folder ==>
      && Issues(r.calls, SetLogOutputFolder(folder + [Nul]))
      && Nul in r.calls[0].folder && CStrFrom(r.calls[0].folder) == folder
      && (r.result.Success? <==> reply.status == StatusOk)
      && (r.result.Failure? ==> r.result.error == StatusFromInt(reply.status, reply.lastError))
  {
    match CStringNew(folder)
    case None => Step(Failure(Error(InvalidDirectoryPath)), [])
    case Some(path) =>
      CStringRoundTrip(folder);
      Step(ToResult(reply.status, reply.lastError, ()), CallsFor(SetLogOutputFolder(path), reply.status))
  }

  /** The size of the buffer `get_log_file_name` lends the SDK. */
  const LogFileNameCapacity: nat := 256

  /** `get_log_file_name`: the name the SDK writes into a 256-byte buffer, up to its first NUL. */
  function GetLogFileName(reply: Reply<seq<Byte>>): (r: Step<Result<seq<Byte>>>)
    requires reply.status == StatusOk ==> |reply.value| == LogFileNameCapacity && Nul in reply.value
    ensures Issues(r.calls, Oni.GetLogFileName(LogFileNameCapacity))
    ensures r.result.Success? <==> reply.status == StatusOk
    ensures r.result.Success? ==> ValidUtf8(r.result.value) && Nul !in r.result.value
    ensures r.result.Success? && ValidUtf8(CStrFrom(reply.value)) ==> r.result.value == CStrFrom(reply.value)
    ensures r.result.Failure? ==> r.result.error == StatusFromInt(reply.status, reply.lastError)
  {
    var calls := CallsFor(Oni.GetLogFileName(LogFileNameCapacity), reply.status);
    if reply.status == StatusOk then Step(Success(BufferString(reply.value)), calls)
    else Step(Failure(StatusFromInt(reply.status, reply.lastError)), calls)
  }

  /** `set_log_level`: sends the level's severity code. */
  function SetLogLevel(level: LogLevel, reply: Reply<()>): (r: Step<Status>)
    ensures Issues(r.calls, SetLogMinSeverity(level.Code()))
    ensures r.result.Ok? <==> reply.status == StatusOk
    ensures r.result == StatusFromInt(reply.status, reply.lastError)
  {
    Step(StatusFromInt(reply.status, reply.lastError), CallsFor(SetLogMinSeverity(level.Code()), reply.status))
  }
}
