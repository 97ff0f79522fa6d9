/**
 The capture protocol of the camera: one capture thread runs startCapture, while any number of
 control threads stop it, change the preview surface and edit the list of encoder surfaces under
 the two mutexes. Every step is one access to shared state; select, the video driver and the
 windows answer as they like, except that the driver is a FIFO and refuses a buffer it has.
 */
module Capture {
  import opened Sequences
  import opened Wrappers

  const BUFFER_NR: nat := 4

  type Surface = nat

  // ---- The state.

  datatype Readiness = Ready | Interrupted | Failed | TimedOut

  /** The instruction that the capture thread runs next. */
  datatype Pc =
    | Idle                       // no startCapture call is running
    | Entry                      // mFD < 0 ?
    | SetRun                     // mPeekRun = true
    | Head                       // while (mPeekRun)
    | Selecting
    | Check(r: Readiness)        // mPeekRun == false ?
    | Dequeue                    // VIDIOC_DQBUF
    | NotifyFirst
    | PreviewLock | PreviewHeld | PreviewWindow
    | UnlockNoSurface | UnlockNoBuffer | UnlockQueued  // the three exits of drawPreviewSurface
    | EncoderLock | EncoderHeld | EncoderNext(i: nat) | EncoderUnlock
    | EncoderUnlockEmpty | EncoderFree
    | Requeue                    // VIDIOC_QBUF
    | Stopping | NotifyStop
    | Closing | NotifyError

  /** A call that changes the surfaces. */
  datatype Command = SetPreview(window: Option<Surface>) | AddEncoder(surface: Surface) | RemoveEncoder(surface: Surface)

  /** A control thread: outside, before the lock, before the change, before the unlock. */
  datatype ControlPc = Away | Wants(c: Command) | Holds(c: Command) | Leaves(c: Command)

  datatype Holder = Nobody | CaptureThread | ControlThread(t: nat)

  datatype Note = First | Stop | Error

  /** What became of a frame on the preview surface. */
  datatype PreviewResult = Undrawn | NoSurface | NoBuffer | Queued

  /**
   One drawn frame: its buffer, whether the driver handed it out, what the preview did with it, the
   encoder list at the lock, and who was offered it.
   */
  datatype Frame = Frame(buffer: nat, dequeued: bool, preview: PreviewResult, list: seq<Surface>, offered: seq<Offer>)

  function NewFrame(buffer: nat, dequeued: bool): Frame {
    Frame(buffer, dequeued, Undrawn, [], [])
  }

  /** One visit of the encoder loop, and whether the window could be locked and was posted. */
  datatype Offer = Offer(surface: Surface, posted: bool)

  /** A completed startCapture call: the device before and after it, and the callbacks made. */
  datatype Call = Call(openBefore: bool, openAfter: bool, notes: seq<Note>)

  /** The video device: whether mFD >= 0, and the buffers queued in the driver. */
  datatype Device = Device(open: bool, queue: seq<nat>)

  /** mPeekRun, and the fields under the two mutexes. */
  datatype Shared = Shared(run: bool, preview: Option<Surface>, encoders: seq<Surface>, previewLock: Holder, encoderLock: Holder)

  /** What only the capture thread uses; `yuv` and `rgba` say whether mYuv420sp and mRGBA8888 are allocated. */
  datatype Local = Local(pc: Pc, first: bool, frame: Frame, yuv: bool, rgba: bool)

  /**
   What happened: the frames drawn since the last successful open and whether all their dequeues
   succeeded, the device at the start of the current call and its callbacks, the completed calls.
   */
  datatype Log = Log(frames: seq<Frame>, clean: bool, before: bool, notes: seq<Note>, calls: seq<Call>)

  datatype State = State(device: Device, shared: Shared, local: Local, control: seq<ControlPc>, log: Log)

  function Boot(n: nat): State {
    State(Device(false, []), Shared(false, None, [], Nobody, Nobody), Local(Idle, true, NewFrame(0, false), false, false),
          seq(n, i => Away), Log([], true, false, [], []))
  }

  // ---- The steps.

  /** What the outside world answers to an instruction of the capture thread. */
  datatype Answer =
    | Silent
    | Selected(r: Readiness)
    | Dequeued
    | Again                                   // EAGAIN
    | DequeueFailed(index: nat, lost: Option<nat>)  // any other errno: the index left behind, the queue position lost
    | Window(ok: bool)
    | Requeued(ok: bool)

  datatype Step =
    | Open(ok: bool)                          // openCamera
    | Start                                   // startCapture is called
    | Proceed(a: Answer)                      // the next instruction of the capture thread
    | StopCapture
    | Request(t: nat, c: Command)
    | Acquire(t: nat)
    | Apply(t: nat)
    | Release(t: nat)

  predicate CanProceed(s: State, a: Answer) {
    match s.local.pc
    case Idle => false
    case Selecting => a.Selected?
    case Dequeue =>
      match a {
        case Dequeued => s.device.queue != []
        case Again => true
        case DequeueFailed(index, lost) => index < BUFFER_NR && (lost.Some? ==> lost.value < |s.device.queue|)
        case _ => false
      }
    case PreviewLock => a.Silent? && s.shared.previewLock == Nobody
    case PreviewWindow => a.Window?
    case EncoderLock => a.Silent? && s.shared.encoderLock == Nobody
    case EncoderNext(i) => if i < |s.shared.encoders| then a.Window? else a.Silent?
    case Requeue => a.Requeued? && (a.ok ==> s.local.frame.buffer !in s.device.queue)
    case _ => a.Silent?
  }

  function Proceeded(s: State, a: Answer): State
    requires CanProceed(s, a)
  {
    if Drawing(s.local.pc) then
      var (shared, local, log) := Draw(s.shared, s.local, s.log, a);
      s.(shared := shared, local := local, log := log)
    else
      Loop(s, a)
  }

  /** The frame has been taken and not yet been drawn to the end. */
  predicate Drawing(pc: Pc) {
    match pc
    case NotifyFirst | PreviewLock | PreviewHeld | PreviewWindow => true
    case UnlockNoSurface | UnlockNoBuffer | UnlockQueued => true
    case EncoderLock | EncoderHeld | EncoderUnlock | EncoderUnlockEmpty | EncoderFree => true
    case EncoderNext(_) => true
    case _ => false
  }

  /** startCapture outside of the two draw functions. */
  function Loop(s: State, a: Answer): State
    requires CanProceed(s, a) && !Drawing(s.local.pc)
  {
    match s.local.pc
    case Entry => if s.device.open then Go(s, SetRun) else Return(s)
    case SetRun => Go(SetRunning(s, true), Head)
    case Head => Go(s, if s.shared.run then Selecting else Stopping)
    case Selecting => Go(s, Check(a.r))
    case Check(r) => Go(s, if !s.shared.run then Stopping else AfterSelect(r))
    case Dequeue => AfterDequeue(s, a)
    case Requeue =>
      if a.ok then Go(s.(device := Device(s.device.open, s.device.queue + [s.local.frame.buffer])), Head) else Go(s, Closing)
    case Stopping => Go(SetRunning(s, false), NotifyStop)
    case NotifyStop => Return(s.(log := Noted(s.log, Stop)))
    case Closing => Go(s.(device := Device(false, [])), NotifyError)
    case NotifyError => Return(s.(log := Noted(s.log, Error)))
  }

  function Go(s: State, pc: Pc): State {
    s.(local := s.local.(pc := pc))
  }

  function SetRunning(s: State, run: bool): State {
    s.(shared := s.shared.(run := run))
  }

  function Noted(log: Log, note: Note): Log {
    log.(notes := log.notes + [note])
  }

  function Return(s: State): State {
    Go(s.(log := s.log.(calls := s.log.calls + [Call(s.log.before, s.device.open, s.log.notes)])), Idle)
  }

  function AfterSelect(r: Readiness): Pc {
    match r
    case Interrupted => Head
    case Failed => Closing
    case TimedOut => Closing
    case Ready => Dequeue
  }

  /** Unless the answer is EAGAIN the frame is drawn, whether or not the dequeue succeeded. */
  function AfterDequeue(s: State, a: Answer): State
    requires s.local.pc == Dequeue && CanProceed(s, a)
  {
    match a
    case Dequeued => TakeFrame(s, NewFrame(s.device.queue[0], true), s.device.queue[1..])
    case DequeueFailed(index, lost) => TakeFrame(s, NewFrame(index, false), Drop(s.device.queue, lost))
    case _ => Go(s, Closing)
  }

  function TakeFrame(s: State, frame: Frame, queue: seq<nat>): State {
    s.(device := s.device.(queue := queue),
       local := s.local.(frame := frame, pc := if s.local.first then NotifyFirst else PreviewLock),
       log := s.log.(clean := s.log.clean && frame.dequeued))
  }

  function Drop(q: seq<nat>, lost: Option<nat>): seq<nat>
    requires lost.Some? ==> lost.value < |q|
  {
    if lost.Some? then q[..lost.value] + q[lost.value + 1..] else q
  }

  /** The answer is that of a window where one is asked. */
  predicate AnswerFits(shared: Shared, pc: Pc, a: Answer) {
    pc == PreviewWindow || (pc.EncoderNext? && pc.i < |shared.encoders|) ==> a.Window?
  }

  /** The first callback, drawPreviewSurface and drawEncoderSurface. */
  function Draw(shared: Shared, local: Local, log: Log, a: Answer): (Shared, Local, Log)
    requires Drawing(local.pc)
    requires AnswerFits(shared, local.pc, a)
  {
    match local.pc
    case NotifyFirst => (shared, local.(first := false, pc := PreviewLock), Noted(log, First))
    case PreviewLock => (shared.(previewLock := CaptureThread), local.(pc := PreviewHeld), log)
    case PreviewHeld =>
      if shared.preview.None? then (shared, Previewed(local.(yuv := false), NoSurface, UnlockNoSurface), log)
      else (shared, local.(yuv := true, pc := PreviewWindow), log)
    case PreviewWindow =>
      if a.ok then (shared, Previewed(local, Queued, UnlockQueued), log)
      else (shared, Previewed(local, NoBuffer, UnlockNoBuffer), log)
    case UnlockNoSurface => (shared.(previewLock := Nobody), local.(pc := EncoderLock), log)
    case UnlockNoBuffer => (shared.(previewLock := Nobody), local.(pc := EncoderLock), log)
    case UnlockQueued => (shared.(previewLock := Nobody), local.(pc := EncoderLock), log)
    case EncoderLock =>
      (shared.(encoderLock := CaptureThread), local.(frame := local.frame.(list := shared.encoders, offered := []), pc := EncoderHeld), log)
    case EncoderHeld =>
      if shared.encoders == [] then (shared, local.(pc := EncoderUnlockEmpty), log)
      else (shared, local.(rgba := true, pc := EncoderNext(0)), log)
    case EncoderNext(i) =>
      if i < |shared.encoders| then (shared, Offered(local, Offer(shared.encoders[i], a.ok)), log)
      else (shared, local.(pc := EncoderUnlock), log)
    case EncoderUnlock =>
      (shared.(encoderLock := Nobody), local.(pc := Requeue), log.(frames := log.frames + [local.frame]))
    case EncoderUnlockEmpty => (shared.(encoderLock := Nobody), local.(pc := EncoderFree), log)
    case EncoderFree => (shared, local.(rgba := false, pc := Requeue), log.(frames := log.frames + [local.frame]))
  }

  function Previewed(local: Local, result: PreviewResult, pc: Pc): Local {
    local.(frame := local.frame.(preview := result), pc := pc)
  }

  function Offered(local: Local, offer: Offer): Local
    requires local.pc.EncoderNext?
  {
    local.(frame := local.frame.(offered := local.frame.offered + [offer]), pc := EncoderNext(local.pc.i + 1))
  }

  predicate CanStep(s: State, e: Step) {
    match e
    case Open(_) => s.local.pc == Idle
    case Start => s.local.pc == Idle
    case Proceed(a) => CanProceed(s, a)
    case StopCapture => true
    case Request(t, c) => t < |s.control| && s.control[t] == Away
    case Acquire(t) => t < |s.control| && s.control[t].Wants? && LockFor(s.shared, s.control[t].c) == Nobody
    case Apply(t) => t < |s.control| && s.control[t].Holds?
    case Release(t) => t < |s.control| && s.control[t].Leaves?
  }

  function DoStep(s: State, e: Step): State
    requires CanStep(s, e)
  {
    match e
    case Open(ok) => Opened(s, ok)
    case Start => Go(s.(log := s.log.(before := s.device.open, notes := []), local := s.local.(first := true)), Entry)
    case Proceed(a) => Proceeded(s, a)
    case StopCapture => SetRunning(s, false)
    case Request(t, c) => s.(control := s.control[t := Wants(c)])
    case _ => Controlled(s, e.t, s.control[e.t].c)
  }

  /** openCamera: on success all four buffers have been queued in order, otherwise the device is closed. */
  function Opened(s: State, ok: bool): State {
    if ok then s.(device := Device(true, [0, 1, 2, 3]), log := s.log.(frames := [], clean := true))
    else s.(device := Device(false, []))
  }

  /**
   openCamera as code: `ready` says whether everything up to the memory mappings succeeded, `queued`
   whether each buffer was queued, `streaming` whether the stream was started.
   */
  method OpenCamera(ready: bool, queued: seq<bool>, streaming: bool) returns (d: Device)
    requires |queued| == BUFFER_NR
    ensures d.open <==> ready && streaming && false !in queued
    ensures forall s :: d == Opened(s, d.open).device
  {
    if !ready {
      return Device(false, []);
    }
    var queue: seq<nat> := [];
    for i := 0 to BUFFER_NR
      invariant |queue| == i && forall j | 0 <= j < i :: queued[j] && queue[j] == j
    {
      if !queued[i] {
        return Device(false, []);
      }
      queue := queue + [i];
    }
    if !streaming {
      return Device(false, []);
    }
    assert queue == [0, 1, 2, 3];
    d := Device(true, queue);
  }

  /** The next instruction of a control thread: lock, change, unlock. */
  function Controlled(s: State, t: nat, c: Command): State
    requires t < |s.control| && s.control[t] != Away
  {
    match s.control[t]
    case Wants(_) => s.(shared := SetLock(s.shared, c, ControlThread(t)), control := s.control[t := Holds(c)])
    case Holds(_) => s.(shared := Changed(s.shared, c), control := s.control[t := Leaves(c)])
    case Leaves(_) => s.(shared := SetLock(s.shared, c, Nobody), control := s.control[t := Away])
  }

  function LockFor(s: Shared, c: Command): Holder {
    if c.SetPreview? then s.previewLock else s.encoderLock
  }

  function SetLock(s: Shared, c: Command, h: Holder): Shared {
    if c.SetPreview? then s.(previewLock := h) else s.(encoderLock := h)
  }

  function Changed(s: Shared, c: Command): Shared {
    match c
    case SetPreview(w) => s.(preview := w)
    case AddEncoder(x) => s.(encoders := s.encoders + [x])
    case RemoveEncoder(x) => s.(encoders := Without(s.encoders, x))
  }

  function Reached(s: State, es: seq<Step>): State {
    if es == [] then s
    else
      var before := Reached(s, Front(es));
      if CanStep(before, Last(es)) then DoStep(before, Last(es)) else before
  }

  predicate Run(s: State, es: seq<Step>) {
    es == [] || (Run(s, Front(es)) && CanStep(Reached(s, Front(es)), Last(es)))
  }

  /** From a dequeue up to the queueing that belongs to it. */
  predicate InFrame(pc: Pc) {
    pc == Requeue || Drawing(pc)
  }

  /** A step of a control thread changes nothing but the shared fields. */
  lemma ControlLeaves(s: State, e: Step)
    requires CanStep(s, e) && !e.Open? && !e.Start? && !e.Proceed?
    ensures var s' := DoStep(s, e); s'.device == s.device && s'.local == s.local && s'.log == s.log
  {
  }
}
