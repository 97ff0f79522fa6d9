/**
 The calls of startCapture, over every run: which callbacks each makes, what becomes of the device,
 and what stopCapture achieves.
 */
module CaptureCalls {
  import opened Sequences
  import opened Capture
  import opened CaptureLocks

  // ---- The callbacks of a call.

  /**
   A call on a closed device calls nothing back. Any other announces at most one first frame, then
   either stops with the device open or reports an error with the device closed.
   */
  predicate GoodCall(c: Call) {
    if !c.openBefore then !c.openAfter && c.notes == []
    else if c.openAfter then c.notes == [Stop] || c.notes == [First, Stop]
    else c.notes == [Error] || c.notes == [First, Error]
  }

  predicate AllGood(calls: seq<Call>) {
    forall k | 0 <= k < |calls| :: GoodCall(calls[k])
  }

  /** In the course of a call: the callbacks made so far, and the device as the call found it. */
  predicate CallInv(d: Device, l: Local, log: Log) {
    match l.pc
    case Idle => true
    case Entry => log.before == d.open && log.notes == [] && l.first
    case NotifyError => log.before && !d.open && log.notes == (if l.first then [] else [First])
    case _ =>
      && log.before && d.open
      && log.notes == (if l.first then [] else [First])
      && (l.pc == NotifyFirst ==> l.first)
      && (Drawing(l.pc) && l.pc != NotifyFirst ==> !l.first)
  }

  predicate CallsInv(s: State) {
    CallInv(s.device, s.local, s.log) && AllGood(s.log.calls)
  }

  lemma DrawKeepsCall(d: Device, shared: Shared, l: Local, log: Log, a: Answer)
    requires Drawing(l.pc) && AnswerFits(shared, l.pc, a)
    requires CallInv(d, l, log)
    ensures var (_, l', log') := Draw(shared, l, log, a); CallInv(d, l', log') && log'.calls == log.calls
  {
  }

  /** The instructions that may return from the call. */
  predicate Exits(pc: Pc) {
    pc == Entry || pc == NotifyStop || pc == NotifyError
  }

  lemma ExitKeepsCall(s: State, a: Answer)
    requires CanProceed(s, a) && Exits(s.local.pc) && CallsInv(s)
    ensures CallsInv(Loop(s, a))
  {
  }

  lemma NoReturn(s: State, a: Answer)
    requires CanProceed(s, a) && !Drawing(s.local.pc) && !Exits(s.local.pc)
    ensures Loop(s, a).log.calls == s.log.calls
  {
  }

  lemma LoopKeepsCall(s: State, a: Answer)
    requires CanProceed(s, a) && !Drawing(s.local.pc) && !Exits(s.local.pc) && CallInv(s.device, s.local, s.log)
    ensures var s' := Loop(s, a);
            CallInv(s'.device, s'.local, s'.log) && s'.log.calls == s.log.calls
  {
    NoReturn(s, a);
    if s.local.pc != Dequeue {
      LoopStays(s, a);
    }
  }

  /** Outside of the exits and the dequeue only the error exit touches what a call is judged by. */
  lemma LoopStays(s: State, a: Answer)
    requires CanProceed(s, a) && !Drawing(s.local.pc) && !Exits(s.local.pc) && s.local.pc != Dequeue
    ensures var s' := Loop(s, a);
            && s'.log.notes == s.log.notes && s'.log.before == s.log.before && s'.local.first == s.local.first
            && !Drawing(s'.local.pc) && s'.local.pc != Idle && s'.local.pc != Entry
            && (if s.local.pc == Closing then s'.local.pc == NotifyError && !s'.device.open
                else s'.local.pc != NotifyError && s'.device.open == s.device.open)
  {
  }

  lemma CallsKept(s: State, e: Step)
    requires CallsInv(s) && CanStep(s, e)
    ensures CallsInv(DoStep(s, e))
  {
    match e
    case Open(_) =>
    case Start =>
    case Proceed(a) =>
      if Drawing(s.local.pc) {
        DrawKeepsCall(s.device, s.shared, s.local, s.log, a);
      } else if Exits(s.local.pc) {
        ExitKeepsCall(s, a);
      } else {
        LoopKeepsCall(s, a);
      }
    case _ => ControlLeaves(s, e);
  }

  /** Every completed call in every run. */
  lemma {:induction false} EveryCallIsGood(n: nat, es: seq<Step>)
    requires Run(Boot(n), es)
    ensures CallsInv(Reached(Boot(n), es))
  {
    if es != [] {
      EveryCallIsGood(n, Front(es));
      CallsKept(Reached(Boot(n), Front(es)), Last(es));
    }
  }

  /** Once the device is closed between two calls, every call returns at once until it is opened again. */
  lemma {:induction false} ClosedStaysQuiet(s: State, es: seq<Step>)
    requires Run(s, es) && s.local.pc == Idle && !s.device.open && Open(true) !in es
    ensures var s' := Reached(s, es);
            && (s'.local.pc == Idle || (s'.local.pc == Entry && !s'.log.before && s'.log.notes == []))
            && !s'.device.open && s'.log.frames == s.log.frames
            && |s'.log.calls| >= |s.log.calls| && s'.log.calls[..|s.log.calls|] == s.log.calls
            && forall k | |s.log.calls| <= k < |s'.log.calls| :: s'.log.calls[k] == Call(false, false, [])
  {
    if es != [] {
      ClosedStaysQuiet(s, Front(es));
      var before, e := Reached(s, Front(es)), Last(es);
      assert Last(es) in es;
      if !e.Open? && !e.Start? && !e.Proceed? {
        ControlLeaves(before, e);
      }
    }
  }

  // ---- stopCapture.

  /** The call is past the assignment to mPeekRun, or over. */
  predicate PastAssignment(pc: Pc) {
    pc != Entry && pc != SetRun
  }

  /** Whether a frame is on its way: about to be dequeued, or not yet drawn to the end. */
  function Ahead(pc: Pc): nat {
    if pc == Dequeue || Drawing(pc) then 1 else 0
  }

  /** No step of a stopped call starts another frame. */
  lemma StoppedStep(s: State, e: Step)
    requires CanStep(s, e) && !e.Start? && !s.shared.run && PastAssignment(s.local.pc)
    ensures var s' := DoStep(s, e);
            && !s'.shared.run && PastAssignment(s'.local.pc)
            && |s'.log.frames| + Ahead(s'.local.pc) <= |s.log.frames| + Ahead(s.local.pc)
  {
    if e.Proceed? && Drawing(s.local.pc) {
      StoppedDraw(s.shared, s.local, s.log, e.a);
    } else if e.Proceed? {
      StoppedLoop(s, e.a);
    } else if !e.Open? {
      ControlLeaves(s, e);
    }
  }

  lemma StoppedDraw(shared: Shared, l: Local, log: Log, a: Answer)
    requires Drawing(l.pc) && AnswerFits(shared, l.pc, a)
    ensures var (shared', l', log') := Draw(shared, l, log, a);
            && shared'.run == shared.run && PastAssignment(l'.pc)
            && |log'.frames| + Ahead(l'.pc) == |log.frames| + 1
  {
  }

  lemma StoppedLoop(s: State, a: Answer)
    requires CanProceed(s, a) && !Drawing(s.local.pc) && !s.shared.run && PastAssignment(s.local.pc)
    ensures var s' := Loop(s, a);
            && !s'.shared.run && PastAssignment(s'.local.pc)
            && s'.log.frames == s.log.frames && Ahead(s'.local.pc) <= Ahead(s.local.pc)
  {
  }

  /** From a stop that follows the assignment until the next call, at most one more frame is drawn. */
  lemma {:induction false} AtMostOneMoreFrame(s: State, es: seq<Step>)
    requires Run(s, es) && Start !in es && !s.shared.run && PastAssignment(s.local.pc)
    ensures var s' := Reached(s, es);
            && !s'.shared.run && PastAssignment(s'.local.pc)
            && |s'.log.frames| + Ahead(s'.local.pc) <= |s.log.frames| + Ahead(s.local.pc) <= |s.log.frames| + 1
  {
    if es != [] {
      AtMostOneMoreFrame(s, Front(es));
      assert Last(es) in es;
      StoppedStep(Reached(s, Front(es)), Last(es));
    }
  }

  /** How far a stopped call is from its return. */
  function Rank(pc: Pc): nat {
    match pc
    case Idle => 0
    case Entry | SetRun => 0
    case NotifyError => 1
    case Closing => 2
    case NotifyStop => 3
    case Stopping => 4
    case Check(_) => 5
    case Selecting => 6
    case Head => 7
    case Requeue => 8
    case EncoderFree => 9
    case EncoderUnlock | EncoderUnlockEmpty => 10
    case EncoderNext(_) => 11
    case EncoderHeld => 12
    case EncoderLock => 13
    case UnlockNoSurface | UnlockNoBuffer | UnlockQueued => 14
    case PreviewWindow => 15
    case PreviewHeld => 16
    case PreviewLock => 17
    case NotifyFirst => 18
    case Dequeue => 19
  }

  /** The entries of the encoder list that the loop has yet to visit. */
  function Unvisited(pc: Pc, entries: nat): nat {
    if pc.EncoderNext? && pc.i < entries then entries - pc.i else 0
  }

  /** A call that gets nearer to its return: its rank falls, or it has visited an entry. */
  predicate Nearer(pc: Pc, entries: nat, pc': Pc, entries': nat) {
    Rank(pc') < Rank(pc) || (Rank(pc') == Rank(pc) && Unvisited(pc', entries') < Unvisited(pc, entries))
  }

  /** Each instruction of a stopped call brings it closer to its return, so it does return. */
  lemma StoppedCallEnds(s: State, a: Answer)
    requires CanProceed(s, a) && !s.shared.run && PastAssignment(s.local.pc)
    ensures var s' := Proceeded(s, a); Nearer(s.local.pc, |s.shared.encoders|, s'.local.pc, |s'.shared.encoders|)
  {
    if Drawing(s.local.pc) {
      DrawGoesOn(s.shared, s.local, s.log, a);
    } else {
      StoppedGoesOn(s, a);
    }
  }

  lemma DrawGoesOn(shared: Shared, l: Local, log: Log, a: Answer)
    requires Drawing(l.pc) && AnswerFits(shared, l.pc, a)
    ensures var (shared', l', _) := Draw(shared, l, log, a); Nearer(l.pc, |shared.encoders|, l'.pc, |shared'.encoders|)
  {
    if Rank(l.pc) > Rank(EncoderLock) {
      PreviewGoesOn(shared, l, log, a);
    }
  }

  lemma PreviewGoesOn(shared: Shared, l: Local, log: Log, a: Answer)
    requires Drawing(l.pc) && AnswerFits(shared, l.pc, a) && Rank(l.pc) > Rank(EncoderLock)
    ensures Rank(Draw(shared, l, log, a).1.pc) < Rank(l.pc)
  {
  }

  lemma StoppedGoesOn(s: State, a: Answer)
    requires CanProceed(s, a) && !Drawing(s.local.pc) && !s.shared.run && PastAssignment(s.local.pc)
    ensures Rank(Loop(s, a).local.pc) < Rank(s.local.pc)
  {
  }

  /** No step of another thread puts the return further away. */
  lemma OthersDoNotDelay(s: State, e: Step)
    requires LocksInv(s) && CanStep(s, e) && Actor(e) != CaptureThread && !e.Open?
    ensures var s' := DoStep(s, e);
            s'.local == s.local && Unvisited(s'.local.pc, |s'.shared.encoders|) == Unvisited(s.local.pc, |s.shared.encoders|)
  {
    ControlKeepsEncoders(s, e);
  }

  // ---- Why a call ends.

  predicate Stops(pc: Pc) {
    pc == Stopping || pc == NotifyStop
  }

  predicate Fails(pc: Pc) {
    pc == Closing || pc == NotifyError
  }

  /** The answers that lead to the error exit. */
  predicate Failure(a: Answer) {
    a == Selected(Failed) || a == Selected(TimedOut) || a == Again || a == Requeued(false)
  }

  /** A call that nobody stops. */
  predicate Unstopped(s: State) {
    s.local.pc == Idle || (PastAssignment(s.local.pc) && !Stops(s.local.pc) && (s.shared.run || Fails(s.local.pc)))
  }

  /** A call in which nothing has failed. */
  predicate Unfailed(pc: Pc) {
    PastAssignment(pc) && !Fails(pc) && (pc.Check? ==> pc.r == Ready || pc.r == Interrupted)
  }

  /** The calls completed since ended in an error, or in a stop. */
  predicate AllEnded(calls: seq<Call>, since: nat, note: Note) {
    since <= |calls| && forall k | since <= k < |calls| :: calls[k].notes != [] && Last(calls[k].notes) == note
  }

  /** At most one call has been completed, and it ended with this callback. */
  predicate EndsWith(calls: seq<Call>, calls': seq<Call>, note: Note) {
    calls' == calls || (calls' != [] && calls' == calls + [Last(calls')] && Last(calls').notes != [] && Last(Last(calls').notes) == note)
  }

  lemma OneMoreEnded(calls: seq<Call>, calls': seq<Call>, since: nat, note: Note)
    requires AllEnded(calls, since, note) && EndsWith(calls, calls', note)
    ensures AllEnded(calls', since, note)
  {
  }

  lemma LoopUnstopped(s: State, a: Answer)
    requires CanProceed(s, a) && !Drawing(s.local.pc) && Unstopped(s)
    ensures Unstopped(Loop(s, a)) && EndsWith(s.log.calls, Loop(s, a).log.calls, Error)
  {
    if !Exits(s.local.pc) {
      NoReturn(s, a);
    }
  }

  lemma LoopUnfailed(s: State, a: Answer)
    requires CanProceed(s, a) && !Drawing(s.local.pc) && Unfailed(s.local.pc) && !Failure(a)
    ensures Unfailed(Loop(s, a).local.pc) && EndsWith(s.log.calls, Loop(s, a).log.calls, Stop)
  {
  }

  lemma DrawGoesThrough(shared: Shared, l: Local, log: Log, a: Answer)
    requires Drawing(l.pc) && AnswerFits(shared, l.pc, a)
    ensures var (shared', l', log') := Draw(shared, l, log, a);
            InFrame(l'.pc) && shared'.run == shared.run && log'.calls == log.calls
  {
  }

  lemma ControlKeepsRun(s: State, e: Step)
    requires CanStep(s, e) && !e.Open? && !e.Start? && !e.Proceed? && e != StopCapture
    ensures DoStep(s, e).shared.run == s.shared.run && DoStep(s, e).local == s.local && DoStep(s, e).log == s.log
  {
  }

  lemma UnstoppedStep(s: State, e: Step, since: nat)
    requires CanStep(s, e) && e != Start && e != StopCapture && Unstopped(s) && AllEnded(s.log.calls, since, Error)
    ensures Unstopped(DoStep(s, e)) && AllEnded(DoStep(s, e).log.calls, since, Error)
  {
    if e.Proceed? && Drawing(s.local.pc) {
      DrawGoesThrough(s.shared, s.local, s.log, e.a);
    } else if e.Proceed? {
      LoopUnstopped(s, e.a);
      OneMoreEnded(s.log.calls, Loop(s, e.a).log.calls, since, Error);
    } else if !e.Open? {
      ControlKeepsRun(s, e);
    }
  }

  lemma UnfailedStep(s: State, e: Step, since: nat)
    requires CanStep(s, e) && e != Start && (e.Proceed? ==> !Failure(e.a))
    requires Unfailed(s.local.pc) && AllEnded(s.log.calls, since, Stop)
    ensures Unfailed(DoStep(s, e).local.pc) && AllEnded(DoStep(s, e).log.calls, since, Stop)
  {
    if e.Proceed? && Drawing(s.local.pc) {
      DrawGoesThrough(s.shared, s.local, s.log, e.a);
    } else if e.Proceed? {
      LoopUnfailed(s, e.a);
      OneMoreEnded(s.log.calls, Loop(s, e.a).log.calls, since, Stop);
    } else if !e.Open? {
      ControlLeaves(s, e);
    }
  }

  /** As long as nobody stops it, a call that is past the assignment can only end with the error callback. */
  lemma {:induction false} OnlyAStopStops(s: State, es: seq<Step>)
    requires Run(s, es) && Unstopped(s) && Start !in es && StopCapture !in es
    ensures Unstopped(Reached(s, es)) && AllEnded(Reached(s, es).log.calls, |s.log.calls|, Error)
  {
    if es != [] {
      OnlyAStopStops(s, Front(es));
      assert Last(es) in es;
      UnstoppedStep(Reached(s, Front(es)), Last(es), |s.log.calls|);
    }
  }

  /** As long as select, the dequeue (other than by losing a frame) and the queueing succeed, it can only end with the stop callback. */
  lemma {:induction false} OnlyAFailureFails(s: State, es: seq<Step>)
    requires Run(s, es) && Unfailed(s.local.pc) && Start !in es
    requires forall i | 0 <= i < |es| :: es[i].Proceed? ==> !Failure(es[i].a)
    ensures Unfailed(Reached(s, es).local.pc) && AllEnded(Reached(s, es).log.calls, |s.log.calls|, Stop)
  {
    if es != [] {
      OnlyAFailureFails(s, Front(es));
      assert Last(es) in es && Last(es) == es[|es| - 1];
      UnfailedStep(Reached(s, Front(es)), Last(es), |s.log.calls|);
    }
  }

  // ---- A stop that comes before the assignment is lost.

  /** Equal, but for mPeekRun as long as the call has not assigned it. */
  predicate SameBut(s: State, s': State) {
    s' == s || (s' == SetRunning(s, s'.shared.run) && (s.local.pc == Idle || s.local.pc == Entry || s.local.pc == SetRun))
  }

  lemma SameStep(s: State, s': State, e: Step)
    requires SameBut(s, s') && CanStep(s, e)
    ensures CanStep(s', e) && SameBut(DoStep(s, e), DoStep(s', e))
  {
  }

  /** Whatever follows runs the same, with or without a stop between the return of a call and the next assignment. */
  lemma {:induction false} EarlyStopIsLost(s: State, es: seq<Step>)
    requires Run(s, es) && (s.local.pc == Idle || s.local.pc == Entry || s.local.pc == SetRun)
    ensures Run(DoStep(s, StopCapture), es)
    ensures SameBut(Reached(s, es), Reached(DoStep(s, StopCapture), es))
  {
    if es != [] {
      EarlyStopIsLost(s, Front(es));
      SameStep(Reached(s, Front(es)), Reached(DoStep(s, StopCapture), Front(es)), Last(es));
    }
  }
}
