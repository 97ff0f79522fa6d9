/**
 What a call makes of the answers it gets, over every run: failures end it with the error callback
 and a stop with the stop callback, frames need a ready device, each frame records what the driver
 and the windows said, and the surfaces it meets are those that the control threads have set, added
 and not removed.
 */
module CaptureAnswers {
  import opened Sequences
  import opened Wrappers
  import opened Capture
  import opened CaptureLocks

  // ---- A failure ends the call with the error callback.

  /** The instruction finds a failure: of select (unless the call has been stopped), of the dequeue, or of the queueing. */
  predicate FailsNow(s: State, a: Answer) {
    || (s.local.pc.Check? && (s.local.pc.r == Failed || s.local.pc.r == TimedOut) && s.shared.run && a == Silent)
    || (s.local.pc == Dequeue && a == Again)
    || (s.local.pc == Requeue && a == Requeued(false))
  }

  /** On its way to the error callback, or past it, after a failure in a state with this log. */
  predicate Erring(log: Log, s: State) {
    if s.local.pc == Idle then
      && |s.log.calls| == |log.calls| + 1 && s.log.calls[..|log.calls|] == log.calls
      && !Last(s.log.calls).openAfter && Last(s.log.calls).notes == log.notes + [Error]
    else
      && (s.local.pc == Closing || (s.local.pc == NotifyError && !s.device.open))
      && s.log == log
  }

  lemma ErringStep(log: Log, s: State, e: Step)
    requires Erring(log, s) && CanStep(s, e) && e != Start
    ensures Erring(log, DoStep(s, e))
  {
    if e.Proceed? {
      assert s.local.pc == Closing || s.local.pc == NotifyError;
    } else if !e.Open? {
      ControlLeaves(s, e);
    }
  }

  lemma {:induction false} StaysErring(log: Log, s: State, es: seq<Step>)
    requires Erring(log, s) && Run(s, es) && Start !in es
    ensures Erring(log, Reached(s, es))
  {
    if es != [] {
      assert Last(es) in es;
      StaysErring(log, s, Front(es));
      ErringStep(log, Reached(s, Front(es)), Last(es));
    }
  }

  /**
   After a failure, however the threads go on: until the call is over nothing is drawn and nothing
   called back, the device is closed, and then the call has ended with the error callback.
   */
  lemma FailureEndsInError(n: nat, es: seq<Step>, s: State, a: Answer, fs: seq<Step>, s': State)
    requires Run(Boot(n), es) && s == Reached(Boot(n), es) && CanProceed(s, a) && FailsNow(s, a)
    requires Run(DoStep(s, Proceed(a)), fs) && s' == Reached(DoStep(s, Proceed(a)), fs) && Start !in fs
    ensures if s'.local.pc == Idle then
              && |s'.log.calls| == |s.log.calls| + 1 && s'.log.calls[..|s.log.calls|] == s.log.calls
              && !Last(s'.log.calls).openAfter && Last(s'.log.calls).notes == s.log.notes + [Error]
            else
              && s'.log.frames == s.log.frames && s'.log.notes == s.log.notes && s'.log.calls == s.log.calls
              && (s'.local.pc == Closing || (s'.local.pc == NotifyError && !s'.device.open))
  {
    assert Erring(s.log, DoStep(s, Proceed(a)));
    StaysErring(s.log, DoStep(s, Proceed(a)), fs);
  }

  // ---- A stop that the loop notices ends the call with the stop callback.

  /** The instruction finds that the call has been stopped: at the loop head, or after select whatever that has said. */
  predicate NoticesStop(s: State, a: Answer) {
    (s.local.pc == Head || s.local.pc.Check?) && !s.shared.run && a == Silent
  }

  /** On its way to the stop callback, or past it, after a state with this log and this device. */
  predicate Leaving(log: Log, device: Device, s: State) {
    if s.local.pc == Idle then
      && |s.log.calls| == |log.calls| + 1 && s.log.calls[..|log.calls|] == log.calls
      && Last(s.log.calls).openAfter == device.open && Last(s.log.calls).notes == log.notes + [Stop]
    else
      && (s.local.pc == Stopping || s.local.pc == NotifyStop)
      && s.log == log && s.device == device
  }

  lemma LeavingStep(log: Log, device: Device, s: State, e: Step)
    requires Leaving(log, device, s) && CanStep(s, e) && e != Start
    ensures Leaving(log, device, DoStep(s, e))
  {
    if e.Proceed? {
      assert s.local.pc == Stopping || s.local.pc == NotifyStop;
    } else if !e.Open? {
      ControlLeaves(s, e);
    }
  }

  lemma {:induction false} StaysLeaving(log: Log, device: Device, s: State, es: seq<Step>)
    requires Leaving(log, device, s) && Run(s, es) && Start !in es
    ensures Leaving(log, device, Reached(s, es))
  {
    if es != [] {
      assert Last(es) in es;
      StaysLeaving(log, device, s, Front(es));
      LeavingStep(log, device, Reached(s, Front(es)), Last(es));
    }
  }

  /**
   After the loop has noticed a stop, however the threads go on: until the call is over there is no
   select, no frame and no callback, the device stays as it is, and then the call has ended with the
   stop callback.
   */
  lemma StopEndsInStop(n: nat, es: seq<Step>, s: State, a: Answer, fs: seq<Step>, s': State)
    requires Run(Boot(n), es) && s == Reached(Boot(n), es) && CanProceed(s, a) && NoticesStop(s, a)
    requires Run(DoStep(s, Proceed(a)), fs) && s' == Reached(DoStep(s, Proceed(a)), fs) && Start !in fs
    ensures if s'.local.pc == Idle then
              && |s'.log.calls| == |s.log.calls| + 1 && s'.log.calls[..|s.log.calls|] == s.log.calls
              && Last(s'.log.calls).openAfter == s.device.open && Last(s'.log.calls).notes == s.log.notes + [Stop]
            else
              && s'.log.frames == s.log.frames && s'.log.notes == s.log.notes && s'.log.calls == s.log.calls
              && s'.device == s.device && (s'.local.pc == Stopping || s'.local.pc == NotifyStop)
  {
    assert Leaving(s.log, s.device, DoStep(s, Proceed(a)));
    StaysLeaving(s.log, s.device, DoStep(s, Proceed(a)), fs);
  }

  // ---- Every frame needs a ready device.

  /** How often select has said that the device is ready since the last successful open. */
  function Readies(es: seq<Step>): nat {
    if es == [] || Last(es) == Open(true) then 0
    else Readies(Front(es)) + (if Last(es) == Proceed(Selected(Ready)) then 1 else 0)
  }

  /** A frame is due: select has said ready, and it has not been drawn to the end. */
  function Due(pc: Pc): nat {
    if pc == Check(Ready) || pc == Dequeue || Drawing(pc) then 1 else 0
  }

  lemma DrawDue(shared: Shared, l: Local, log: Log, a: Answer)
    requires Drawing(l.pc) && AnswerFits(shared, l.pc, a)
    ensures var (_, l', log') := Draw(shared, l, log, a); |log'.frames| + Due(l'.pc) == |log.frames| + 1
  {
  }

  lemma LoopDue(s: State, a: Answer)
    requires CanProceed(s, a) && !Drawing(s.local.pc)
    ensures var s' := Loop(s, a);
            && s'.log.frames == s.log.frames
            && Due(s'.local.pc) <= Due(s.local.pc) + (if a == Selected(Ready) then 1 else 0)
  {
  }

  lemma {:induction false} FramesNeedReady(n: nat, es: seq<Step>)
    requires Run(Boot(n), es)
    ensures |Reached(Boot(n), es).log.frames| + Due(Reached(Boot(n), es).local.pc) <= Readies(es)
  {
    if es != [] {
      FramesNeedReady(n, Front(es));
      var s, e := Reached(Boot(n), Front(es)), Last(es);
      if e.Proceed? && Drawing(s.local.pc) {
        DrawDue(s.shared, s.local, s.log, e.a);
      } else if e.Proceed? {
        LoopDue(s, e.a);
      } else if !e.Open? && !e.Start? {
        ControlLeaves(s, e);
      }
    }
  }

  // ---- A frame records what it met.

  /**
   What was said about the current frame: the buffer that the dequeue named and whether it succeeded,
   the preview surface and the encoder list found at the locks, and the answers of the windows.
   */
  datatype Heard = Heard(buffer: nat, dequeued: bool, surface: Option<Surface>, shown: Option<bool>, list: seq<Surface>, oks: seq<bool>)

  function Hear(h: Heard, s: State, e: Step): Heard {
    if !e.Proceed? then h
    else
      match s.local.pc
      case Dequeue =>
        if e.a.Dequeued? && s.device.queue != [] then Heard(s.device.queue[0], true, None, None, [], [])
        else if e.a.DequeueFailed? then Heard(e.a.index, false, None, None, [], [])
        else h
      case PreviewLock => h.(surface := s.shared.preview)
      case PreviewWindow => if e.a.Window? then h.(shown := Some(e.a.ok)) else h
      case EncoderLock => h.(list := s.shared.encoders)
      case EncoderNext(_) => if e.a.Window? then h.(oks := h.oks + [e.a.ok]) else h
      case _ => h
  }

  function HeardIn(s: State, es: seq<Step>): Heard {
    if es == [] then Heard(0, false, None, None, [], [])
    else Hear(HeardIn(s, Front(es)), Reached(s, Front(es)), Last(es))
  }

  /** The preview has met this surface, and its window has given this answer. */
  predicate PreviewTold(l: Local, h: Heard, preview: Option<Surface>) {
    match l.pc
    case NotifyFirst => h.shown.None? && h.surface.None?
    case PreviewLock => h.shown.None?
    case PreviewHeld => h.shown.None? && h.surface == preview
    case PreviewWindow => h.shown.None? && h.surface.Some?
    case _ =>
      && (l.frame.preview == NoSurface <==> h.surface.None?)
      && (l.frame.preview == Queued <==> h.surface.Some? && h.shown == Some(true))
      && (l.frame.preview == NoBuffer <==> h.surface.Some? && h.shown == Some(false))
  }

  /** The encoders met this list, and their windows have given these answers. */
  predicate EncodersTold(l: Local, h: Heard) {
    match l.pc
    case NotifyFirst | PreviewLock | PreviewHeld | PreviewWindow => h.oks == []
    case UnlockNoSurface | UnlockNoBuffer | UnlockQueued | EncoderLock => h.oks == []
    case _ =>
      && l.frame.list == h.list && |l.frame.offered| == |h.oks|
      && forall k | 0 <= k < |h.oks| :: l.frame.offered[k].posted == h.oks[k]
  }

  predicate Told(s: State, h: Heard) {
    InFrame(s.local.pc) ==>
      && s.local.frame.buffer == h.buffer && s.local.frame.dequeued == h.dequeued
      && PreviewTold(s.local, h, s.shared.preview) && EncodersTold(s.local, h)
  }

  /** The part of drawEncoderSurface after its lock. */
  predicate Encoding(pc: Pc) {
    match pc
    case EncoderHeld | EncoderUnlock | EncoderUnlockEmpty | EncoderFree => true
    case EncoderNext(_) => true
    case _ => false
  }

  /** drawPreviewSurface, with what is before and after it. */
  predicate Previewing(pc: Pc) {
    Drawing(pc) && !Encoding(pc) && pc != EncoderLock
  }

  lemma PreviewTells(shared: Shared, l: Local, log: Log, s: State, h: Heard, a: Answer)
    requires Previewing(l.pc) && AnswerFits(shared, l.pc, a) && s.shared == shared && s.local == l
    requires PreviewTold(l, h, shared.preview)
    ensures PreviewTold(Draw(shared, l, log, a).1, Hear(h, s, Proceed(a)), shared.preview)
  {
    if UnlocksPreview(l.pc) {
      UnlockTells(shared, l, log, s, h, a);
    }
  }

  lemma UnlockTells(shared: Shared, l: Local, log: Log, s: State, h: Heard, a: Answer)
    requires UnlocksPreview(l.pc) && s.local == l
    ensures var l' := Draw(shared, l, log, a).1; l'.pc == EncoderLock && l'.frame == l.frame && Hear(h, s, Proceed(a)) == h
  {
  }

  lemma PreviewLeavesEncoders(shared: Shared, l: Local, log: Log, s: State, h: Heard, a: Answer)
    requires Previewing(l.pc) && AnswerFits(shared, l.pc, a) && s.shared == shared && s.local == l && h.oks == []
    ensures var l' := Draw(shared, l, log, a).1;
            (Previewing(l'.pc) || l'.pc == EncoderLock) && Hear(h, s, Proceed(a)).oks == []
  {
  }

  lemma EncodingLeavesPreview(shared: Shared, l: Local, log: Log, s: State, h: Heard, a: Answer)
    requires Drawing(l.pc) && !Previewing(l.pc) && AnswerFits(shared, l.pc, a) && s.shared == shared && s.local == l
    ensures var l' := Draw(shared, l, log, a).1; var h' := Hear(h, s, Proceed(a));
            && (Encoding(l'.pc) || l'.pc == Requeue)
            && l'.frame.preview == l.frame.preview && h'.surface == h.surface && h'.shown == h.shown
  {
  }

  lemma OfferTells(l: Local, h: Heard, offer: Offer)
    requires l.pc.EncoderNext? && EncodersTold(l, h)
    ensures EncodersTold(Offered(l, offer), h.(oks := h.oks + [offer.posted]))
  {
  }

  /** A visit of the encoder loop. */
  lemma VisitTells(shared: Shared, l: Local, log: Log, s: State, h: Heard, a: Answer)
    requires l.pc.EncoderNext? && l.pc.i < |shared.encoders| && a.Window? && s.shared == shared && s.local == l
    requires EncodersTold(l, h)
    ensures EncodersTold(Draw(shared, l, log, a).1, Hear(h, s, Proceed(a)))
  {
    OfferTells(l, h, Offer(shared.encoders[l.pc.i], a.ok));
  }

  lemma LockTells(shared: Shared, l: Local, log: Log, s: State, h: Heard, a: Answer)
    requires l.pc == EncoderLock && s.shared == shared && s.local == l && h.oks == []
    ensures EncodersTold(Draw(shared, l, log, a).1, Hear(h, s, Proceed(a)))
  {
  }

  /** Between visits nothing is said. */
  lemma EncodingTells(shared: Shared, l: Local, log: Log, s: State, h: Heard, a: Answer)
    requires Encoding(l.pc) && AnswerFits(shared, l.pc, a) && s.shared == shared && s.local == l
    requires l.pc.EncoderNext? ==> l.pc.i >= |shared.encoders| && a.Silent?
    ensures Draw(shared, l, log, a).1.frame == l.frame && Hear(h, s, Proceed(a)) == h
    ensures Encoding(Draw(shared, l, log, a).1.pc) || Draw(shared, l, log, a).1.pc == Requeue
  {
  }

  lemma DrawTellsPreview(s: State, h: Heard, a: Answer)
    requires CanProceed(s, a) && Drawing(s.local.pc) && PreviewTold(s.local, h, s.shared.preview)
    ensures PreviewTold(Draw(s.shared, s.local, s.log, a).1, Hear(h, s, Proceed(a)), s.shared.preview)
  {
    if Previewing(s.local.pc) {
      PreviewTells(s.shared, s.local, s.log, s, h, a);
    } else {
      EncodingLeavesPreview(s.shared, s.local, s.log, s, h, a);
    }
  }

  lemma DrawTellsEncoders(s: State, h: Heard, a: Answer)
    requires CanProceed(s, a) && Drawing(s.local.pc) && EncodersTold(s.local, h)
    ensures EncodersTold(Draw(s.shared, s.local, s.log, a).1, Hear(h, s, Proceed(a)))
  {
    if Previewing(s.local.pc) {
      PreviewLeavesEncoders(s.shared, s.local, s.log, s, h, a);
    } else if s.local.pc == EncoderLock {
      LockTells(s.shared, s.local, s.log, s, h, a);
    } else if s.local.pc.EncoderNext? && s.local.pc.i < |s.shared.encoders| {
      VisitTells(s.shared, s.local, s.log, s, h, a);
    } else {
      EncodingTells(s.shared, s.local, s.log, s, h, a);
    }
  }

  lemma DrawTells(s: State, h: Heard, a: Answer)
    requires CanProceed(s, a) && Drawing(s.local.pc) && Told(s, h)
    ensures Told(Proceeded(s, a), Hear(h, s, Proceed(a)))
  {
    DrawTellsPreview(s, h, a);
    DrawTellsEncoders(s, h, a);
    DrawLeaves(s.shared, s.local, s.log, s, h, a);
  }

  /** Drawing changes neither the buffer of the frame nor the preview surface. */
  lemma DrawLeaves(shared: Shared, l: Local, log: Log, s: State, h: Heard, a: Answer)
    requires Drawing(l.pc) && AnswerFits(shared, l.pc, a) && s.local == l
    ensures var (shared', l', _) := Draw(shared, l, log, a); var h' := Hear(h, s, Proceed(a));
            && l'.frame.buffer == l.frame.buffer && l'.frame.dequeued == l.frame.dequeued && shared'.preview == shared.preview
            && h'.buffer == h.buffer && h'.dequeued == h.dequeued
  {
  }

  lemma LoopTells(s: State, h: Heard, a: Answer)
    requires CanProceed(s, a) && !Drawing(s.local.pc)
    ensures Told(Proceeded(s, a), Hear(h, s, Proceed(a)))
  {
    if s.local.pc != Dequeue {
      LoopBeginsNoFrame(s, a);
    }
  }

  lemma LoopBeginsNoFrame(s: State, a: Answer)
    requires CanProceed(s, a) && !Drawing(s.local.pc) && s.local.pc != Dequeue
    ensures !InFrame(Loop(s, a).local.pc)
  {
  }

  lemma ControlTells(s: State, h: Heard, e: Step)
    requires LocksInv(s) && CanStep(s, e) && !e.Open? && !e.Start? && !e.Proceed? && Told(s, h)
    ensures Told(DoStep(s, e), h)
  {
    ControlLeaves(s, e);
    if s.local.pc == PreviewHeld {
      PreviewGuarded(s, e);
    }
  }

  lemma PreviewGuarded(s: State, e: Step)
    requires LocksInv(s) && CanStep(s, e) && !e.Open? && !e.Start? && !e.Proceed? && s.local.pc == PreviewHeld
    ensures DoStep(s, e).shared.preview == s.shared.preview
  {
  }

  /**
   In every run each frame is drawn from the buffer that the dequeue named; it has met the preview
   surface and the encoder list that were found at the locks, and was queued or posted exactly where
   the windows agreed.
   */
  lemma {:induction false} FramesTellTheTruth(n: nat, es: seq<Step>)
    requires Run(Boot(n), es)
    ensures Told(Reached(Boot(n), es), HeardIn(Boot(n), es))
  {
    if es != [] {
      FramesTellTheTruth(n, Front(es));
      LocksAlways(n, Front(es));
      var s, h, e := Reached(Boot(n), Front(es)), HeardIn(Boot(n), Front(es)), Last(es);
      if e.Proceed? && Drawing(s.local.pc) {
        DrawTells(s, h, e.a);
      } else if e.Proceed? {
        LoopTells(s, h, e.a);
      } else if !e.Open? && !e.Start? {
        ControlTells(s, h, e);
      }
    }
  }

  /** A frame on its way back to the driver is the one recorded last. */
  predicate Recorded(s: State) {
    s.local.pc == Requeue ==> s.log.frames != [] && Last(s.log.frames) == s.local.frame
  }

  lemma DrawRecordsFrame(shared: Shared, l: Local, log: Log, a: Answer)
    requires Drawing(l.pc) && AnswerFits(shared, l.pc, a)
    ensures var (_, l', log') := Draw(shared, l, log, a); l'.pc == Requeue ==> log'.frames == log.frames + [l'.frame]
  {
  }

  lemma {:induction false} FramesAreRecorded(n: nat, es: seq<Step>)
    requires Run(Boot(n), es)
    ensures Recorded(Reached(Boot(n), es))
  {
    if es != [] {
      FramesAreRecorded(n, Front(es));
      var s, e := Reached(Boot(n), Front(es)), Last(es);
      if e.Proceed? && Drawing(s.local.pc) {
        DrawRecordsFrame(s.shared, s.local, s.log, e.a);
      } else if e.Proceed? && s.local.pc != Dequeue {
        LoopBeginsNoFrame(s, e.a);
      } else if !e.Proceed? && !e.Open? && !e.Start? {
        ControlLeaves(s, e);
      }
    }
  }

  // ---- The surfaces are those that have been set, added and not removed.

  /** The changes that the control threads have made, in order. */
  function Edits(s: State, es: seq<Step>): seq<Command>
    requires Run(s, es)
  {
    if es == [] then []
    else
      var e := Last(es);
      Edits(s, Front(es)) + (if e.Apply? then [Reached(s, Front(es)).control[e.t].c] else [])
  }

  /** Edit `i` is the last one that set the preview. */
  predicate SetLast(edits: seq<Command>, i: nat) {
    i < |edits| && edits[i].SetPreview? && forall j | i < j < |edits| :: !edits[j].SetPreview?
  }

  /** The preview is what was set last, or has never been set. */
  ghost predicate Previewed(edits: seq<Command>, preview: Option<Surface>) {
    || (exists i: nat :: SetLast(edits, i) && edits[i] == SetPreview(preview))
    || (preview.None? && forall i | 0 <= i < |edits| :: !edits[i].SetPreview?)
  }

  /** A surface was added by edit `i` and has not been removed since. */
  predicate Stands(edits: seq<Command>, i: nat) {
    i < |edits| && edits[i].AddEncoder? && RemoveEncoder(edits[i].surface) !in edits[i + 1..]
  }

  /** The list consists of the surfaces that stand, in the order in which they were added. */
  ghost predicate Listed(edits: seq<Command>, list: seq<Surface>, at: seq<nat>) {
    && |at| == |list|
    && (forall j, k | 0 <= j < k < |at| :: at[j] < at[k])
    && (forall k | 0 <= k < |at| :: Stands(edits, at[k]) && edits[at[k]].surface == list[k])
    && (forall i: nat | Stands(edits, i) :: i in at)
  }

  lemma PreviewEdit(edits: seq<Command>, s: Shared, c: Command)
    requires Previewed(edits, s.preview)
    ensures Previewed(edits + [c], Changed(s, c).preview)
  {
    if c.SetPreview? {
      assert SetLast(edits + [c], |edits|);
    } else if exists i: nat :: SetLast(edits, i) && edits[i] == SetPreview(s.preview) {
      var i: nat :| SetLast(edits, i) && edits[i] == SetPreview(s.preview);
      assert SetLast(edits + [c], i);
    }
  }

  lemma StandsOn(edits: seq<Command>, c: Command, edits': seq<Command>, i: nat)
    requires i < |edits| && edits' == edits + [c]
    ensures edits'[i] == edits[i] && (Stands(edits', i) <==> Stands(edits, i) && c != RemoveEncoder(edits[i].surface))
  {
    if edits[i].AddEncoder? {
      assert edits'[i + 1..] == edits[i + 1..] + [c];
    }
  }

  /** The same edits stand, and one more at the end. */
  lemma OneMoreListed(edits: seq<Command>, edits': seq<Command>, list: seq<Surface>, at: seq<nat>, list': seq<Surface>, at': seq<nat>, x: Surface)
    requires Listed(edits, list, at) && |edits'| == |edits| + 1
    requires forall i: nat | i < |edits| :: edits'[i] == edits[i] && (Stands(edits', i) <==> Stands(edits, i))
    requires Stands(edits', |edits|) && edits'[|edits|].surface == x
    requires list' == list + [x] && at' == at + [|edits|]
    ensures Listed(edits', list', at')
  {
    forall k | 0 <= k < |at'|
      ensures Stands(edits', at'[k]) && edits'[at'[k]].surface == list'[k]
    {
      assert k < |at| ==> Stands(edits, at[k]);
    }
    forall i: nat | Stands(edits', i)
      ensures i in at'
    {
      if i < |edits| {
        assert i in at;
      } else {
        assert at'[|at|] == i;
      }
    }
  }

  lemma AddListed(edits: seq<Command>, list: seq<Surface>, at: seq<nat>, x: Surface, edits': seq<Command>)
    requires Listed(edits, list, at) && edits' == edits + [AddEncoder(x)]
    ensures Listed(edits', list + [x], at + [|edits|])
  {
    forall i: nat | i < |edits|
      ensures edits'[i] == edits[i] && (Stands(edits', i) <==> Stands(edits, i))
    {
      StandsOn(edits, AddEncoder(x), edits', i);
    }
    assert edits'[|edits| + 1..] == [];
    OneMoreListed(edits, edits', list, at, list + [x], at + [|edits|], x);
  }

  /** Of the edits that stand, those of one surface stand no longer. */
  lemma FewerListed(edits: seq<Command>, edits': seq<Command>, list: seq<Surface>, at: seq<nat>, x: Surface,
                    list': seq<Surface>, pick: seq<nat>, at': seq<nat>)
    requires Listed(edits, list, at) && |edits'| == |edits| + 1 && !edits'[|edits|].AddEncoder?
    requires forall i: nat | i < |edits| :: edits'[i] == edits[i] && (Stands(edits', i) <==> Stands(edits, i) && edits[i].surface != x)
    requires Picks(list, x, list', pick)
    requires |at'| == |pick| && forall k | 0 <= k < |pick| :: at'[k] == at[pick[k]]
    ensures Listed(edits', list', at')
  {
    forall k | 0 <= k < |at'|
      ensures Stands(edits', at'[k]) && edits'[at'[k]].surface == list'[k]
    {
      assert pick[k] in pick;
      assert Stands(edits, at[pick[k]]) && edits[at[pick[k]]].surface == list[pick[k]];
    }
    forall i: nat | Stands(edits', i)
      ensures i in at'
    {
      assert Stands(edits, i) && i in at;
      var k :| 0 <= k < |at| && at[k] == i;
      assert k in pick;
      var m :| 0 <= m < |pick| && pick[m] == k;
      assert at'[m] == i;
    }
  }

  lemma RemoveListed(edits: seq<Command>, list: seq<Surface>, at: seq<nat>, x: Surface, edits': seq<Command>) returns (rest: seq<nat>)
    requires Listed(edits, list, at) && edits' == edits + [RemoveEncoder(x)]
    ensures Listed(edits', Without(list, x), rest)
  {
    var pick := WithoutPicks(list, x);
    rest := seq(|pick|, k requires 0 <= k < |pick| => at[pick[k]]);
    forall i: nat | i < |edits|
      ensures edits'[i] == edits[i] && (Stands(edits', i) <==> Stands(edits, i) && edits[i].surface != x)
    {
      StandsOn(edits, RemoveEncoder(x), edits', i);
    }
    FewerListed(edits, edits', list, at, x, Without(list, x), pick, rest);
  }

  lemma OtherListed(edits: seq<Command>, list: seq<Surface>, at: seq<nat>, c: Command, edits': seq<Command>)
    requires Listed(edits, list, at) && c.SetPreview? && edits' == edits + [c]
    ensures Listed(edits', list, at)
  {
    forall i: nat | i < |edits|
      ensures edits'[i] == edits[i] && (Stands(edits', i) <==> Stands(edits, i))
    {
      StandsOn(edits, c, edits', i);
    }
    forall i: nat | Stands(edits', i)
      ensures i in at
    {
      assert Stands(edits, i);
    }
  }

  /** Only the change itself touches the surfaces. */
  lemma OnlyEdits(s: State, e: Step)
    requires CanStep(s, e) && !e.Apply?
    ensures DoStep(s, e).shared.preview == s.shared.preview && DoStep(s, e).shared.encoders == s.shared.encoders
  {
    if e.Proceed? && Drawing(s.local.pc) {
      DrawEditsNothing(s.shared, s.local, s.log, e.a);
    } else if e.Proceed? {
      LoopEditsNothing(s, e.a);
    }
  }

  lemma DrawEditsNothing(shared: Shared, l: Local, log: Log, a: Answer)
    requires Drawing(l.pc) && AnswerFits(shared, l.pc, a)
    ensures var shared' := Draw(shared, l, log, a).0; shared'.preview == shared.preview && shared'.encoders == shared.encoders
  {
  }

  lemma LoopEditsNothing(s: State, a: Answer)
    requires CanProceed(s, a) && !Drawing(s.local.pc)
    ensures Loop(s, a).shared.preview == s.shared.preview && Loop(s, a).shared.encoders == s.shared.encoders
  {
  }

  /**
   In every run the preview surface is the one set last, and the encoder list consists of the surfaces
   that have been added and not removed since, once for each such addition, in the order of the additions.
   */
  lemma {:induction false} SurfacesAreEdits(n: nat, es: seq<Step>) returns (at: seq<nat>)
    requires Run(Boot(n), es)
    ensures Previewed(Edits(Boot(n), es), Reached(Boot(n), es).shared.preview)
    ensures Listed(Edits(Boot(n), es), Reached(Boot(n), es).shared.encoders, at)
  {
    if es == [] {
      return [];
    }
    at := SurfacesAreEdits(n, Front(es));
    var s, e, edits := Reached(Boot(n), Front(es)), Last(es), Edits(Boot(n), Front(es));
    if !e.Apply? {
      OnlyEdits(s, e);
      assert Edits(Boot(n), es) == edits;
      return at;
    }
    var c := s.control[e.t].c;
    PreviewEdit(edits, s.shared, c);
    match c
    case SetPreview(_) => OtherListed(edits, s.shared.encoders, at, c, edits + [c]);
    case AddEncoder(x) =>
      AddListed(edits, s.shared.encoders, at, x, edits + [c]);
      return at + [|edits|];
    case RemoveEncoder(x) =>
      at := RemoveListed(edits, s.shared.encoders, at, x, edits + [c]);
  }
}
