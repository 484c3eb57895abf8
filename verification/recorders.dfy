/**
 A recorder (recorder.rs): created on a file name, streams attached to it,
 started and stopped, and destroyed on drop.
 */
module Recorders {
  import opened CInterop
  import opened Oni
  import opened Text
  import opened Types
  import Streams

  /** `Recorder`: the SDK's recorder handle. */
  datatype Recorder = Recorder(handle: Handle)

  const InvalidFilenamePrefix: seq<Byte> := Ascii("Invalid filename: ")

  /**
   `Recorder::create`: a file name holding a NUL is refused before any SDK
   call, with an error quoting the name as `{:?}` renders it; any other
   reaches the SDK as a C string that reads back as the name.
   */
  function Create(filename: seq<Byte>, reply: Reply<Handle>): (r: Step<Result<Recorder>>)
    ensures Nul in filename ==> r.calls == [] && r.result == Failure(Error(InvalidFilenamePrefix + DebugStr(filename)))
    ensures Nul !in filename ==>
      && Issues(r.calls, CreateRecorder(filename + [Nul]))
      && Nul in r.calls[0].fileName && CStrFrom(r.calls[0].fileName) == filename
      && (r.result.Success? <==> reply.status == StatusOk)
      && (r.result.Success? ==> r.result.value == Recorder(reply.value))
      && (r.result.Failure? ==> r.result.error == StatusFromInt(reply.status, reply.lastError))
  {
    match CStringNew(filename)
    case None => Step(Failure(Error(InvalidFilenamePrefix + DebugStr(filename))), [])
    case Some(path) =>
      CStringRoundTrip(filename);
      Step(ToResult(reply.status, reply.lastError, Recorder(reply.value)), CallsFor(CreateRecorder(path), reply.status))
  }

  /** The name a refused file name is quoted under can be read back: the message identifies it. */
  lemma CreateErrorNamesFile(filename: seq<Byte>, reply: Reply<Handle>)
    requires Nul in filename
    ensures var m := Create(filename, reply).result.error.message;
      && |m| >= |InvalidFilenamePrefix| + 2
      && m[..|InvalidFilenamePrefix|] == InvalidFilenamePrefix
      && Unescape(m[|InvalidFilenamePrefix| + 1..|m| - 1]) == filename
  {
    var p := InvalidFilenamePrefix;
    var e := EscapeDebug(filename);
    var m := p + ([Quote] + e + [Quote]);
    assert Create(filename, reply).result.error.message == m;
    assert m[..|p|] == p;
    assert m[|p| + 1..|m| - 1] == e;
    EscapeDebugRoundTrip(filename);
  }

  /** `Recorder::attach_stream`: sends 1 when lossy compression is allowed and 0 otherwise. */
  function AttachStream(rec: Recorder, stream: Streams.Stream, lossy: bool, reply: Reply<()>): (r: Step<Result<()>>)
    ensures Issues(r.calls, RecorderAttachStream(rec.handle, stream.handle, FlagCode(lossy)))
    ensures r.calls[0].allowLossy == 1 <==> lossy
    ensures r.result.Success? <==> reply.status == StatusOk
    ensures r.result.Failure? ==> r.result.error == StatusFromInt(reply.status, reply.lastError) && !r.result.error.Ok?
  {
    var call := RecorderAttachStream(rec.handle, stream.handle, FlagCode(lossy));
    Step(ToResult(reply.status, reply.lastError, ()), CallsFor(call, reply.status))
  }

  /** `Recorder::start`. */
  function Start(rec: Recorder, reply: Reply<()>): (r: Step<Result<()>>)
    ensures Issues(r.calls, RecorderStart(rec.handle))
    ensures r.result.Success? <==> reply.status == StatusOk
    ensures r.result.Failure? ==> r.result.error == StatusFromInt(reply.status, reply.lastError) && !r.result.error.Ok?
  {
    Step(ToResult(reply.status, reply.lastError, ()), CallsFor(RecorderStart(rec.handle), reply.status))
  }

  /** `Recorder::stop`: the SDK call returns nothing, so there is no outcome to report. */
  function Stop(rec: Recorder): (calls: seq<NativeCall>)
    ensures calls == [RecorderStop(rec.handle)]
  {
    [RecorderStop(rec.handle)]
  }

  /** `impl Drop for Recorder`: destroys the recorder, whatever it was doing. */
  function Drop(rec: Recorder): (calls: seq<NativeCall>)
    ensures calls == [RecorderDestroy(rec.handle)]
  {
    [RecorderDestroy(rec.handle)]
  }

  // ---------------------------------------------------------------------------
  // A recorder's lifetime

  /** One use of a live recorder, with the SDK's answer where the call has one. */
  datatype Use =
    | Attach(stream: Streams.Stream, lossy: bool, reply: Reply<()>)
    | StartUse(reply: Reply<()>)
    | StopUse

  /** The calls of one use: calls on `rec` and the error-text query, never a destroy. */
  function UseCalls(rec: Recorder, u: Use): (calls: seq<NativeCall>)
    ensures |calls| > 0
    ensures forall i :: 0 <= i < |calls| ==> !calls[i].RecorderDestroy?
    ensures forall i :: 0 <= i < |calls| ==> ActsOn(calls[i], rec.handle) || calls[i] == GetExtendedError
  {
    match u
    case Attach(stream, lossy, reply) =>
      var calls := AttachStream(rec, stream, lossy, reply).calls;
      IssuedOnRecorder(calls, RecorderAttachStream(rec.handle, stream.handle, FlagCode(lossy)), rec.handle);
      calls
    case StartUse(reply) =>
      var calls := Start(rec, reply).calls;
      IssuedOnRecorder(calls, RecorderStart(rec.handle), rec.handle);
      calls
    case StopUse =>
      IssuedOnRecorder(Stop(rec), RecorderStop(rec.handle), rec.handle);
      Stop(rec)
  }

  lemma IssuedOnRecorder(calls: seq<NativeCall>, call: NativeCall, h: Handle)
    requires Issues(calls, call) && ActsOn(call, h) && !call.RecorderDestroy?
    ensures forall i :: 0 <= i < |calls| ==> !calls[i].RecorderDestroy?
    ensures forall i :: 0 <= i < |calls| ==> ActsOn(calls[i], h) || calls[i] == GetExtendedError
  {
  }

  /** The calls of a recorder used as `uses` describes and then dropped. */
  function Lifetime(rec: Recorder, uses: seq<Use>): (calls: seq<NativeCall>)
    ensures |calls| > 0
  {
    if uses == [] then Drop(rec) else UseCalls(rec, uses[0]) + Lifetime(rec, uses[1..])
  }

  /** The recorder a call acts on, if it acts on one. */
  predicate ActsOn(call: NativeCall, h: Handle) {
    match call
    case RecorderAttachStream(r, _, _) => r == h
    case RecorderStart(r) => r == h
    case RecorderStop(r) => r == h
    case RecorderDestroy(r) => r == h
    case _ => false
  }

  /**
   However a recorder is used, its lifetime ends with exactly one destroy of
   its own handle, every other call is either a call on that recorder or the
   error-text query, and nothing is destroyed earlier.
   */
  lemma {:induction false} LifetimeEndsInOneDestroy(rec: Recorder, uses: seq<Use>)
    ensures var calls := Lifetime(rec, uses);
      && calls[|calls| - 1] == RecorderDestroy(rec.handle)
      && (forall i :: 0 <= i < |calls| - 1 ==> !calls[i].RecorderDestroy?)
      && (forall i :: 0 <= i < |calls| ==> ActsOn(calls[i], rec.handle) || calls[i] == GetExtendedError)
  {
    if uses != [] {
      var head := UseCalls(rec, uses[0]);
      var tail := Lifetime(rec, uses[1..]);
      LifetimeEndsInOneDestroy(rec, uses[1..]);
      var calls := head + tail;
      forall i | 0 <= i < |calls|
        ensures i < |calls| - 1 ==> !calls[i].RecorderDestroy?
        ensures ActsOn(calls[i], rec.handle) || calls[i] == GetExtendedError
      {
        if i >= |head| {
          assert calls[i] == tail[i - |head|];
        } else {
          assert calls[i] == head[i];
        }
      }
      assert calls[|calls| - 1] == tail[|tail| - 1];
    }
  }
}
