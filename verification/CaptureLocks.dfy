/**
 The two mutexes of the capture protocol, over every run: who holds them, that every holder gives
 its lock back, that callbacks run without a lock, and that each frame goes to the encoder list as
 it stood when the lock was taken.
 */
module CaptureLocks {
  import opened Sequences
  import opened Capture

  predicate HoldsPreview(pc: Pc) {
    pc == PreviewHeld || pc == PreviewWindow || UnlocksPreview(pc)
  }

  predicate UnlocksPreview(pc: Pc) {
    pc == UnlockNoSurface || pc == UnlockNoBuffer || pc == UnlockQueued
  }

  predicate UnlocksEncoders(pc: Pc) {
    pc == EncoderUnlock || pc == EncoderUnlockEmpty
  }

  predicate HoldsEncoders(pc: Pc) {
    pc == EncoderHeld || pc.EncoderNext? || UnlocksEncoders(pc)
  }

  /** A control thread between its lock and its unlock. */
  predicate Inside(c: ControlPc) {
    c.Holds? || c.Leaves?
  }

  predicate ControlHoldsPreview(c: ControlPc) {
    Inside(c) && c.c.SetPreview?
  }

  predicate ControlHoldsEncoders(c: ControlPc) {
    Inside(c) && !c.c.SetPreview?
  }

  /** The recorded holder of the preview mutex is the one thread that is between its lock and its unlock. */
  predicate PreviewOwned(lock: Holder, pc: Pc, control: seq<ControlPc>) {
    && (lock == CaptureThread <==> HoldsPreview(pc))
    && (lock.ControlThread? ==> lock.t < |control|)
    && forall t | 0 <= t < |control| :: lock == ControlThread(t) <==> ControlHoldsPreview(control[t])
  }

  predicate EncodersOwned(lock: Holder, pc: Pc, control: seq<ControlPc>) {
    && (lock == CaptureThread <==> HoldsEncoders(pc))
    && (lock.ControlThread? ==> lock.t < |control|)
    && forall t | 0 <= t < |control| :: lock == ControlThread(t) <==> ControlHoldsEncoders(control[t])
  }

  predicate LocksInv(s: State) {
    && PreviewOwned(s.shared.previewLock, s.local.pc, s.control)
    && EncodersOwned(s.shared.encoderLock, s.local.pc, s.control)
  }

  lemma ControlKeepsPreviewLock(s: State, e: Step)
    requires LocksInv(s) && CanStep(s, e) && (e.Request? || e.Acquire? || e.Apply? || e.Release?)
    ensures var s' := DoStep(s, e); PreviewOwned(s'.shared.previewLock, s'.local.pc, s'.control)
  {
  }

  lemma ControlKeepsEncoderLock(s: State, e: Step)
    requires LocksInv(s) && CanStep(s, e) && (e.Request? || e.Acquire? || e.Apply? || e.Release?)
    ensures var s' := DoStep(s, e); EncodersOwned(s'.shared.encoderLock, s'.local.pc, s'.control)
  {
  }

  /** What an instruction of the capture thread at `pc` does to the preview mutex it does to its own place. */
  predicate PreviewMoves(lock: Holder, pc: Pc, lock': Holder, pc': Pc) {
    && lock' == (if pc == PreviewLock then CaptureThread else if UnlocksPreview(pc) then Nobody else lock)
    && (HoldsPreview(pc') <==> pc == PreviewLock || (HoldsPreview(pc) && !UnlocksPreview(pc)))
  }

  predicate EncodersMove(lock: Holder, pc: Pc, lock': Holder, pc': Pc) {
    && lock' == (if pc == EncoderLock then CaptureThread else if UnlocksEncoders(pc) then Nobody else lock)
    && (HoldsEncoders(pc') <==> pc == EncoderLock || (HoldsEncoders(pc) && !UnlocksEncoders(pc)))
  }

  lemma DrawMovesPreview(shared: Shared, l: Local, log: Log, a: Answer)
    requires Drawing(l.pc) && AnswerFits(shared, l.pc, a)
    ensures var (shared', l', _) := Draw(shared, l, log, a); PreviewMoves(shared.previewLock, l.pc, shared'.previewLock, l'.pc)
  {
  }

  lemma DrawMovesEncoders(shared: Shared, l: Local, log: Log, a: Answer)
    requires Drawing(l.pc) && AnswerFits(shared, l.pc, a)
    ensures var (shared', l', _) := Draw(shared, l, log, a); EncodersMove(shared.encoderLock, l.pc, shared'.encoderLock, l'.pc)
  {
  }

  lemma LoopHoldsNothing(s: State, a: Answer)
    requires CanProceed(s, a) && !Drawing(s.local.pc)
    ensures !HoldsPreview(Loop(s, a).local.pc) && !HoldsEncoders(Loop(s, a).local.pc)
  {
    if s.local.pc != Dequeue {
      LoopDrawsNothing(s, a);
    }
  }

  lemma LoopDrawsNothing(s: State, a: Answer)
    requires CanProceed(s, a) && !Drawing(s.local.pc) && s.local.pc != Dequeue
    ensures !Drawing(Loop(s, a).local.pc)
  {
  }

  lemma LoopLeavesLocks(s: State, a: Answer)
    requires CanProceed(s, a) && !Drawing(s.local.pc)
    ensures var s' := Loop(s, a); s'.control == s.control && s'.shared == s.shared.(run := s'.shared.run)
  {
  }

  lemma ProceedLocks(s: State, a: Answer)
    requires CanProceed(s, a)
    ensures var s' := Proceeded(s, a);
            && s'.control == s.control
            && PreviewMoves(s.shared.previewLock, s.local.pc, s'.shared.previewLock, s'.local.pc)
            && EncodersMove(s.shared.encoderLock, s.local.pc, s'.shared.encoderLock, s'.local.pc)
  {
    if Drawing(s.local.pc) {
      DrawMovesPreview(s.shared, s.local, s.log, a);
      DrawMovesEncoders(s.shared, s.local, s.log, a);
    } else {
      LoopHoldsNothing(s, a);
      LoopLeavesLocks(s, a);
    }
  }

  lemma LocksKept(s: State, e: Step)
    requires LocksInv(s) && CanStep(s, e)
    ensures LocksInv(DoStep(s, e))
  {
    match e
    case Open(_) =>
    case Start =>
    case Proceed(a) => ProceedLocks(s, a);
    case StopCapture =>
    case _ =>
      ControlKeepsPreviewLock(s, e);
      ControlKeepsEncoderLock(s, e);
  }

  lemma {:induction false} LocksAlways(n: nat, es: seq<Step>)
    requires Run(Boot(n), es)
    ensures LocksInv(Reached(Boot(n), es))
  {
    if es != [] {
      LocksAlways(n, Front(es));
      LocksKept(Reached(Boot(n), Front(es)), Last(es));
    }
  }

  predicate Holds(s: State, h: Holder) {
    h != Nobody && (s.shared.previewLock == h || s.shared.encoderLock == h)
  }

  /** No thread ever holds both mutexes, and the capture thread holds none while it calls back. */
  lemma OneLockAtMost(n: nat, es: seq<Step>, h: Holder)
    requires Run(Boot(n), es) && h != Nobody
    ensures var s := Reached(Boot(n), es);
            && !(s.shared.previewLock == h && s.shared.encoderLock == h)
            && (s.local.pc == NotifyFirst || s.local.pc == NotifyStop || s.local.pc == NotifyError ==> !Holds(s, CaptureThread))
            && (s.local.pc == Idle ==> !Holds(s, CaptureThread))
            && (h.ControlThread? && h.t < |s.control| && s.control[h.t] == Away ==> !Holds(s, h))
  {
    LocksAlways(n, es);
  }

  // ---- Every lock is given back.

  /** The thread that a step belongs to. */
  function Actor(e: Step): Holder {
    match e
    case Start | Proceed(_) => CaptureThread
    case Open(_) | StopCapture => Nobody
    case Request(t, _) => ControlThread(t)
    case Acquire(t) => ControlThread(t)
    case Apply(t) => ControlThread(t)
    case Release(t) => ControlThread(t)
  }

  ghost predicate CanMove(s: State, h: Holder) {
    exists e :: CanStep(s, e) && Actor(e) == h
  }

  /** The own steps that the capture thread has left before it gives its lock back. */
  function CaptureLeft(pc: Pc, entries: nat): nat {
    match pc
    case PreviewHeld => 3
    case PreviewWindow => 2
    case UnlockNoSurface | UnlockNoBuffer | UnlockQueued => 1
    case EncoderHeld => entries + 3
    case EncoderNext(i) => 2 + if i < entries then entries - i else 0
    case EncoderUnlock | EncoderUnlockEmpty => 1
    case _ => 0
  }

  function ControlLeft(c: ControlPc): nat {
    match c
    case Holds(_) => 2
    case Leaves(_) => 1
    case _ => 0
  }

  function StepsLeft(s: State, h: Holder): nat {
    match h
    case CaptureThread => CaptureLeft(s.local.pc, |s.shared.encoders|)
    case ControlThread(t) => if t < |s.control| then ControlLeft(s.control[t]) else 0
    case Nobody => 0
  }

  /** An instruction for the capture thread wherever it is, unless it waits for a mutex. */
  function AnyAnswer(s: State): Answer {
    match s.local.pc
    case Selecting => Selected(Ready)
    case Dequeue => Again
    case PreviewWindow => Window(true)
    case EncoderNext(i) => if i < |s.shared.encoders| then Window(true) else Silent
    case Requeue => Requeued(false)
    case _ => Silent
  }

  lemma CaptureCanMove(s: State)
    requires s.local.pc != Idle
    requires s.local.pc == PreviewLock ==> s.shared.previewLock == Nobody
    requires s.local.pc == EncoderLock ==> s.shared.encoderLock == Nobody
    ensures CanMove(s, CaptureThread)
  {
    assert CanStep(s, Proceed(AnyAnswer(s)));
  }

  lemma HolderCanMove(s: State, h: Holder)
    requires LocksInv(s) && Holds(s, h)
    ensures CanMove(s, h) && StepsLeft(s, h) > 0
  {
    match h
    case CaptureThread => CaptureCanMove(s);
    case ControlThread(t) =>
      assert CanStep(s, if s.control[t].Holds? then Apply(t) else Release(t));
  }

  /** The mutex that a thread is about to lock. */
  function Awaits(s: State, h: Holder): Holder {
    match h
    case CaptureThread =>
      if s.local.pc == PreviewLock then s.shared.previewLock else if s.local.pc == EncoderLock then s.shared.encoderLock else Nobody
    case ControlThread(t) =>
      if t < |s.control| && s.control[t].Wants? then LockFor(s.shared, s.control[t].c) else Nobody
    case Nobody => Nobody
  }

  predicate Engaged(s: State, h: Holder) {
    match h
    case CaptureThread => s.local.pc != Idle
    case ControlThread(t) => t < |s.control| && s.control[t] != Away
    case Nobody => false
  }

  /** No reachable state is deadlocked: a thread inside a call can move, or waits for another thread that can. */
  lemma NobodyIsStuck(n: nat, es: seq<Step>, h: Holder)
    requires Run(Boot(n), es) && Engaged(Reached(Boot(n), es), h)
    ensures var s := Reached(Boot(n), es);
            CanMove(s, h) || (Awaits(s, h) != h && Holds(s, Awaits(s, h)) && CanMove(s, Awaits(s, h)))
  {
    LocksAlways(n, es);
    var s := Reached(Boot(n), es);
    if Awaits(s, h) != Nobody {
      HolderCanMove(s, Awaits(s, h));
    } else if h == CaptureThread {
      CaptureCanMove(s);
    } else {
      var t := h.t;
      assert CanStep(s, if s.control[t].Wants? then Acquire(t) else if s.control[t].Holds? then Apply(t) else Release(t));
    }
  }

  lemma CaptureGetsCloser(shared: Shared, l: Local, log: Log, a: Answer)
    requires AnswerFits(shared, l.pc, a) && (HoldsPreview(l.pc) || HoldsEncoders(l.pc))
    ensures Drawing(l.pc)
    ensures var (shared', l', _) := Draw(shared, l, log, a);
            CaptureLeft(l'.pc, |shared'.encoders|) < CaptureLeft(l.pc, |shared.encoders|)
  {
  }

  lemma ControlKeepsEncoders(s: State, e: Step)
    requires LocksInv(s) && CanStep(s, e) && Actor(e) != CaptureThread && !e.Open?
    ensures DoStep(s, e).local == s.local
    ensures HoldsEncoders(s.local.pc) ==> DoStep(s, e).shared.encoders == s.shared.encoders
  {
  }

  /** A step of the holder brings its unlock closer, and a step of another thread does not delay it. */
  predicate Closer(s: State, s': State, h: Holder, own: bool) {
    if own then StepsLeft(s', h) < StepsLeft(s, h) else StepsLeft(s', h) == StepsLeft(s, h)
  }

  lemma CaptureStepCloser(s: State, a: Answer, h: Holder)
    requires CanProceed(s, a) && Holds(s, h) && LocksInv(s)
    ensures Closer(s, Proceeded(s, a), h, h == CaptureThread)
  {
    if h == CaptureThread {
      CaptureGetsCloser(s.shared, s.local, s.log, a);
    } else {
      ProceedLocks(s, a);
    }
  }

  lemma ControlStepCloser(s: State, e: Step, h: Holder)
    requires CanStep(s, e) && Holds(s, h) && LocksInv(s) && Actor(e) != CaptureThread && !e.Open?
    ensures Closer(s, DoStep(s, e), h, h == Actor(e))
  {
    if h == CaptureThread {
      ControlKeepsEncoders(s, e);
    }
  }

  /**
   Every lock is given back: each step of its holder brings the unlock closer, no step of another
   thread delays it, and the lock stays with the holder until no step is left.
   */
  lemma HolderGetsCloser(s: State, e: Step, h: Holder)
    requires LocksInv(s) && CanStep(s, e) && Holds(s, h)
    ensures Closer(s, DoStep(s, e), h, h == Actor(e))
    ensures Holds(DoStep(s, e), h) <==> StepsLeft(DoStep(s, e), h) > 0
  {
    LocksKept(s, e);
    HeldWhileLeft(DoStep(s, e), h);
    match e
    case Open(_) =>
    case Start => HeldWhileLeft(s, h);
    case Proceed(a) => CaptureStepCloser(s, a, h);
    case _ => ControlStepCloser(s, e, h);
  }

  /** A thread holds a mutex exactly while it has steps left to its unlock. */
  lemma HeldWhileLeft(s: State, h: Holder)
    requires LocksInv(s) && h != Nobody
    ensures Holds(s, h) <==> StepsLeft(s, h) > 0
  {
  }

  // ---- Each frame goes to the encoder list as it stood when the mutex was taken.

  /** The first `i` entries of the list have been offered the frame, in order and once each. */
  predicate OfferedUpTo(f: Frame, i: nat) {
    && |f.offered| == i <= |f.list|
    && forall k | 0 <= k < i :: f.offered[k].surface == f.list[k]
  }

  predicate OfferedToAll(f: Frame) {
    OfferedUpTo(f, |f.list|)
  }

  /** While the mutex is held the list cannot change; the pixel buffers exist where they are used. */
  predicate OffersInv(l: Local, encoders: seq<Surface>) {
    EncodersOffered(l, encoders) && PreviewShown(l)
  }

  /** What has become of the frame on the preview surface, and the planar buffer with it. */
  predicate PreviewShown(l: Local) {
    match l.pc
    case NotifyFirst | PreviewLock | PreviewHeld => l.frame.preview == Undrawn
    case PreviewWindow => l.frame.preview == Undrawn && l.yuv
    case UnlockNoSurface => l.frame.preview == NoSurface && !l.yuv
    case UnlockNoBuffer => l.frame.preview == NoBuffer && l.yuv
    case UnlockQueued => l.frame.preview == Queued && l.yuv
    case _ => InFrame(l.pc) ==> l.frame.preview != Undrawn && (l.yuv <==> l.frame.preview != NoSurface)
  }

  predicate EncodersOffered(l: Local, encoders: seq<Surface>) {
    match l.pc
    case EncoderHeld => l.frame.list == encoders && OfferedUpTo(l.frame, 0)
    case EncoderNext(i) => l.rgba && l.frame.list == encoders != [] && OfferedUpTo(l.frame, i)
    case EncoderUnlock => l.rgba && l.frame.list != [] && OfferedToAll(l.frame)
    case EncoderUnlockEmpty | EncoderFree => l.frame.list == [] && OfferedToAll(l.frame)
    case Requeue => OfferedToAll(l.frame) && (l.rgba <==> l.frame.list != [])
    case _ => true
  }

  predicate AllOffered(frames: seq<Frame>) {
    forall k | 0 <= k < |frames| :: frames[k].preview != Undrawn && OfferedToAll(frames[k])
  }

  predicate FramesInv(s: State) {
    OffersInv(s.local, s.shared.encoders) && AllOffered(s.log.frames)
  }

  lemma OneMoreOffer(l: Local, encoders: seq<Surface>, posted: bool)
    requires l.pc.EncoderNext? && l.pc.i < |encoders| && EncodersOffered(l, encoders)
    ensures EncodersOffered(Offered(l, Offer(encoders[l.pc.i], posted)), encoders)
  {
  }

  lemma DrawKeepsEncoders(shared: Shared, l: Local, log: Log, a: Answer)
    requires Drawing(l.pc) && AnswerFits(shared, l.pc, a)
    requires EncodersOffered(l, shared.encoders)
    ensures var (shared', l', _) := Draw(shared, l, log, a); EncodersOffered(l', shared'.encoders)
  {
    if l.pc.EncoderNext? && l.pc.i < |shared.encoders| {
      OneMoreOffer(l, shared.encoders, a.ok);
    }
  }

  lemma DrawKeepsPreview(shared: Shared, l: Local, log: Log, a: Answer)
    requires Drawing(l.pc) && AnswerFits(shared, l.pc, a)
    requires PreviewShown(l)
    ensures var (_, l', _) := Draw(shared, l, log, a); PreviewShown(l')
  {
  }

  lemma DrawRecords(shared: Shared, l: Local, log: Log, a: Answer)
    requires Drawing(l.pc) && AnswerFits(shared, l.pc, a)
    requires OffersInv(l, shared.encoders)
    ensures var (_, _, log') := Draw(shared, l, log, a);
            log'.frames == log.frames || (log'.frames == log.frames + [l.frame] && l.frame.preview != Undrawn && OfferedToAll(l.frame))
  {
  }

  lemma DrawKeepsOffers(shared: Shared, l: Local, log: Log, a: Answer)
    requires Drawing(l.pc) && AnswerFits(shared, l.pc, a)
    requires OffersInv(l, shared.encoders)
    ensures var (shared', l', log') := Draw(shared, l, log, a);
            && OffersInv(l', shared'.encoders)
            && (log'.frames == log.frames || (log'.frames == log.frames + [l.frame] && l.frame.preview != Undrawn && OfferedToAll(l.frame)))
  {
    DrawKeepsEncoders(shared, l, log, a);
    DrawKeepsPreview(shared, l, log, a);
    DrawRecords(shared, l, log, a);
  }

  lemma DequeueKeepsOffers(s: State, a: Answer)
    requires CanProceed(s, a) && s.local.pc == Dequeue
    ensures OffersInv(Loop(s, a).local, Loop(s, a).shared.encoders) && Loop(s, a).log.frames == s.log.frames
  {
  }

  lemma LoopKeepsOffers(s: State, a: Answer)
    requires CanProceed(s, a) && !Drawing(s.local.pc) && s.local.pc != Dequeue
    ensures !InFrame(Loop(s, a).local.pc) && Loop(s, a).log.frames == s.log.frames
  {
  }

  lemma ControlKeepsOffers(s: State, e: Step)
    requires LocksInv(s) && CanStep(s, e) && Actor(e) != CaptureThread && !e.Open?
    requires FramesInv(s)
    ensures FramesInv(DoStep(s, e))
  {
    ControlKeepsEncoders(s, e);
    ControlLeaves(s, e);
  }

  lemma FramesKept(s: State, e: Step)
    requires LocksInv(s) && FramesInv(s) && CanStep(s, e)
    ensures FramesInv(DoStep(s, e))
  {
    match e
    case Open(_) =>
    case Start =>
    case Proceed(a) =>
      if Drawing(s.local.pc) {
        DrawKeepsOffers(s.shared, s.local, s.log, a);
      } else if s.local.pc == Dequeue {
        DequeueKeepsOffers(s, a);
      } else {
        LoopKeepsOffers(s, a);
      }
    case _ => ControlKeepsOffers(s, e);
  }

  lemma {:induction false} FramesAlways(n: nat, es: seq<Step>)
    requires Run(Boot(n), es)
    ensures FramesInv(Reached(Boot(n), es))
  {
    if es != [] {
      FramesAlways(n, Front(es));
      LocksAlways(n, Front(es));
      FramesKept(Reached(Boot(n), Front(es)), Last(es));
    }
  }

  /** The surfaces that a frame was posted to. */
  function Posted(offers: seq<Offer>): seq<Surface> {
    if offers == [] then [] else Posted(Front(offers)) + (if Last(offers).posted then [Last(offers).surface] else [])
  }

  /** The entries of a list at which the window lock succeeded. */
  function Locked(list: seq<Surface>, ok: seq<bool>): seq<Surface>
    requires |list| == |ok|
  {
    if list == [] then [] else Locked(Front(list), Front(ok)) + (if Last(ok) then [Last(list)] else [])
  }

  /**
   Every drawn frame was posted once for each entry whose window could be locked, in order, of the
   list found at the lock.
   */
  lemma {:induction false} PostedInOrder(f: Frame)
    requires OfferedToAll(f)
    ensures Posted(f.offered) == Locked(f.list, Answers(f.offered))
    decreases |f.list|
  {
    if f.list != [] {
      var g := f.(list := Front(f.list), offered := Front(f.offered));
      PostedInOrder(g);
      assert Answers(g.offered) == Front(Answers(f.offered));
    }
  }

  function Answers(offers: seq<Offer>): (ok: seq<bool>)
    ensures |ok| == |offers|
  {
    seq(|offers|, k requires 0 <= k < |offers| => offers[k].posted)
  }

  lemma FramesGoToTheList(n: nat, es: seq<Step>, k: nat)
    requires Run(Boot(n), es) && k < |Reached(Boot(n), es).log.frames|
    ensures var f := Reached(Boot(n), es).log.frames[k];
            f.preview != Undrawn && |f.offered| == |f.list| && Posted(f.offered) == Locked(f.list, Answers(f.offered))
  {
    FramesAlways(n, es);
    PostedInOrder(Reached(Boot(n), es).log.frames[k]);
  }
}
