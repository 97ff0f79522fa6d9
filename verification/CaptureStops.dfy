/**
 When stopCapture works: at most one more frame is drawn exactly if the stop comes after the call has
 assigned mPeekRun, or finds the device closed. Before the assignment it is overwritten, and the
 capture thread can go on to draw frame after frame.
 */
module CaptureStops {
  import opened Sequences
  import opened Wrappers
  import opened Capture
  import opened CaptureBuffers
  import opened CaptureLocks
  import opened CaptureCalls

  /** `es` is a run from `s` to `s'` in which startCapture is not called again. */
  ghost predicate Leads(s: State, es: seq<Step>, s': State) {
    Run(s, es) && Reached(s, es) == s' && Start !in es
  }

  lemma Stays(s: State)
    ensures Leads(s, [], s)
  {
  }

  lemma OneStep(s: State, es: seq<Step>, s': State, e: Step)
    requires Leads(s, es, s') && CanStep(s', e) && e != Start
    ensures Leads(s, es + [e], DoStep(s', e))
  {
    Append(es, e);
  }

  lemma {:induction false} Chain(s: State, es: seq<Step>, s': State, fs: seq<Step>, s'': State)
    requires Leads(s, es, s') && Leads(s', fs, s'')
    ensures Leads(s, es + fs, s'')
  {
    if fs == [] {
      assert es + fs == es;
    } else {
      forall f | f in Front(fs)
        ensures f in fs
      {
      }
      Chain(s, es, s', Front(fs), Reached(s', Front(fs)));
      assert Last(fs) in fs;
      OneStep(s, es + Front(fs), Reached(s', Front(fs)), Last(fs));
      assert es + fs == es + Front(fs) + [Last(fs)];
    }
  }

  /** No control thread holds a mutex. */
  predicate Alone(s: State) {
    LocksInv(s) && !s.shared.previewLock.ControlThread? && !s.shared.encoderLock.ControlThread?
  }

  /** A control thread that holds a mutex can be let run until it has given it back. */
  lemma LetGo(s: State, t: nat) returns (es: seq<Step>, s': State)
    requires LocksInv(s) && t < |s.control| && Inside(s.control[t])
    ensures Leads(s, es, s') && LocksInv(s')
    ensures s'.device == s.device && s'.local == s.local && s'.log == s.log && s'.shared.run == s.shared.run
    ensures if s.control[t].c.SetPreview? then s'.shared.previewLock == Nobody && s'.shared.encoderLock == s.shared.encoderLock
            else s'.shared.encoderLock == Nobody && s'.shared.previewLock == s.shared.previewLock
  {
    es, s' := [], s;
    Stays(s);
    if s.control[t].Holds? {
      OneStep(s, es, s', Apply(t));
      LocksKept(s', Apply(t));
      es, s' := es + [Apply(t)], DoStep(s', Apply(t));
    }
    OneStep(s, es, s', Release(t));
    LocksKept(s', Release(t));
    es, s' := es + [Release(t)], DoStep(s', Release(t));
  }

  lemma LetAllGo(s: State) returns (es: seq<Step>, s': State)
    requires LocksInv(s)
    ensures Leads(s, es, s') && Alone(s')
    ensures s'.device == s.device && s'.local == s.local && s'.log == s.log && s'.shared.run == s.shared.run
  {
    es, s' := [], s;
    Stays(s);
    if s'.shared.previewLock.ControlThread? {
      var fs, s1 := LetGo(s', s'.shared.previewLock.t);
      Chain(s, es, s', fs, s1);
      es, s' := es + fs, s1;
    }
    if s'.shared.encoderLock.ControlThread? {
      var fs, s1 := LetGo(s', s'.shared.encoderLock.t);
      Chain(s, es, s', fs, s1);
      es, s' := es + fs, s1;
    }
  }

  lemma AloneKept(s: State, a: Answer)
    requires Alone(s) && CanProceed(s, a)
    ensures Alone(Proceeded(s, a))
  {
    ProceedLocks(s, a);
    LocksKept(s, Proceed(a));
  }

  /** One instruction of the drawing. */
  lemma DrawAlone(s: State, a: Answer)
    requires Alone(s) && Drawing(s.local.pc) && a == AnyAnswer(s)
    ensures CanProceed(s, a) && Alone(Proceeded(s, a))
    ensures var s' := Proceeded(s, a);
            && InFrame(s'.local.pc) && s'.local.frame.buffer == s.local.frame.buffer
            && s'.device == s.device && s'.shared.run == s.shared.run
            && |s'.log.frames| + Ahead(s'.local.pc) == |s.log.frames| + 1
  {
    AloneKept(s, a);
    StoppedDraw(s.shared, s.local, s.log, a);
    DrawStays(s.shared, s.local, s.log, a);
  }

  /** The capture thread alone draws its frame to the end. */
  lemma DrawOn(s: State) returns (es: seq<Step>, s': State)
    requires Alone(s) && Drawing(s.local.pc)
    ensures Leads(s, es, s') && Alone(s') && s'.local.pc == Requeue
    ensures s'.device == s.device && s'.shared.run == s.shared.run && |s'.log.frames| == |s.log.frames| + 1
    ensures s'.local.frame.buffer == s.local.frame.buffer
    decreases Rank(s.local.pc), Unvisited(s.local.pc, |s.shared.encoders|)
  {
    var a := AnyAnswer(s);
    DrawAlone(s, a);
    DrawGoesOn(s.shared, s.local, s.log, a);
    var s1 := Proceeded(s, a);
    Stays(s);
    OneStep(s, [], s, Proceed(a));
    if s1.local.pc == Requeue {
      return [] + [Proceed(a)], s1;
    }
    var fs, s2 := DrawOn(s1);
    Chain(s, [] + [Proceed(a)], s1, fs, s2);
    return [] + [Proceed(a)] + fs, s2;
  }

  /** At the loop head, running, with all buffers in the driver. */
  predicate Rolling(s: State) {
    Alone(s) && s.local.pc == Head && s.shared.run && s.device.open && AllQueued(s.device.queue)
  }

  /** From the loop head up to a frame. */
  lemma GetFrame(s: State) returns (es: seq<Step>, s': State)
    requires Rolling(s)
    ensures Leads(s, es, s') && Alone(s') && Drawing(s'.local.pc) && s'.shared.run && s'.log.frames == s.log.frames
    ensures s'.device == Device(true, s.device.queue[1..]) && s'.local.frame.buffer == s.device.queue[0]
    ensures es == [Proceed(Silent), Proceed(Selected(Ready)), Proceed(Silent), Proceed(Dequeued)]
    ensures s'.shared == s.shared && s'.local.first == s.local.first
    ensures s'.local.pc == if s.local.first then NotifyFirst else PreviewLock
  {
    es, s' := [], s;
    Stays(s);
    AloneKept(s', Silent);
    OneStep(s, es, s', Proceed(Silent));
    es, s' := es + [Proceed(Silent)], Proceeded(s', Silent);
    AloneKept(s', Selected(Ready));
    OneStep(s, es, s', Proceed(Selected(Ready)));
    es, s' := es + [Proceed(Selected(Ready))], Proceeded(s', Selected(Ready));
    AloneKept(s', Silent);
    OneStep(s, es, s', Proceed(Silent));
    es, s' := es + [Proceed(Silent)], Proceeded(s', Silent);
    AloneKept(s', Dequeued);
    OneStep(s, es, s', Proceed(Dequeued));
    es, s' := es + [Proceed(Dequeued)], Proceeded(s', Dequeued);
  }

  /** The driver takes the buffer back, and the loop goes on. */
  lemma PutBack(s: State, q: seq<nat>)
    requires Alone(s) && s.local.pc == Requeue && s.shared.run && AllQueued(q)
    requires s.device == Device(true, q[1..]) && s.local.frame.buffer == q[0]
    ensures CanProceed(s, Requeued(true)) && Rolling(Proceeded(s, Requeued(true)))
    ensures var s' := Proceeded(s, Requeued(true)); s'.log == s.log && s'.local.first == s.local.first && s'.shared == s.shared
  {
    TurnedQueue(q);
    AloneKept(s, Requeued(true));
  }

  /** One iteration of the capture loop, with one frame. */
  lemma Iterate(s: State) returns (es: seq<Step>, s': State)
    requires Rolling(s)
    ensures Leads(s, es, s') && Rolling(s') && |s'.log.frames| == |s.log.frames| + 1
  {
    var fs, s1 := GetFrame(s);
    var gs, s2 := DrawOn(s1);
    Chain(s, fs, s1, gs, s2);
    PutBack(s2, s.device.queue);
    OneStep(s, fs + gs, s2, Proceed(Requeued(true)));
    es, s' := fs + gs + [Proceed(Requeued(true))], Proceeded(s2, Requeued(true));
  }

  lemma TurnedQueue(q: seq<nat>)
    requires AllQueued(q)
    ensures q[0] !in q[1..] && AllQueued(q[1..] + [q[0]])
  {
  }

  /** From the call up to the loop head: the assignment to mPeekRun makes the loop run. */
  lemma Begin(s: State) returns (es: seq<Step>, s': State)
    requires Alone(s) && s.device.open && AllQueued(s.device.queue) && !PastAssignment(s.local.pc)
    ensures Leads(s, es, s') && Rolling(s') && s'.log.frames == s.log.frames
  {
    es, s' := [], s;
    Stays(s);
    if s'.local.pc == Entry {
      AloneKept(s', Silent);
      OneStep(s, es, s', Proceed(Silent));
      es, s' := es + [Proceed(Silent)], Proceeded(s', Silent);
    }
    AloneKept(s', Silent);
    OneStep(s, es, s', Proceed(Silent));
    es, s' := es + [Proceed(Silent)], Proceeded(s', Silent);
  }

  /** From before the assignment, with the device open, two frames can be drawn. */
  lemma TwoMoreFrames(s: State) returns (es: seq<Step>, s': State)
    requires LocksInv(s) && s.device.open && AllQueued(s.device.queue) && !PastAssignment(s.local.pc)
    ensures Leads(s, es, s') && |s'.log.frames| == |s.log.frames| + 2
  {
    var a, s1 := LetAllGo(s);
    var b, s2 := Begin(s1);
    Chain(s, a, s1, b, s2);
    var c, s3 := Iterate(s2);
    Chain(s, a + b, s2, c, s3);
    var d, s4 := Iterate(s3);
    Chain(s, a + b + c, s3, d, s4);
    es, s' := a + b + c + d, s4;
  }

  /** However the threads go on after a stop in this state, at most one more frame is drawn before the next call. */
  ghost predicate StopWorks(s: State) {
    forall es, s' | Leads(DoStep(s, StopCapture), es, s') :: |s'.log.frames| <= |s.log.frames| + 1
  }

  /** A call that finds the device closed draws nothing. */
  lemma {:induction false} ClosedCall(s: State, es: seq<Step>, s': State)
    requires Leads(s, es, s') && s.local.pc == Entry && !s.device.open && !s.shared.run
    ensures !s'.shared.run
    ensures (s'.local.pc == Entry && !s'.device.open) || PastAssignment(s'.local.pc)
    ensures |s'.log.frames| + Ahead(s'.local.pc) <= |s.log.frames|
  {
    if es != [] {
      var before, e := Reached(s, Front(es)), Last(es);
      forall f | f in Front(es)
        ensures f in es
      {
      }
      ClosedCall(s, Front(es), before);
      assert e in es;
      if before.local.pc == Entry {
        EntryStep(before, e);
      } else {
        StoppedStep(before, e);
      }
    }
  }

  lemma EntryStep(s: State, e: Step)
    requires CanStep(s, e) && e != Start && s.local.pc == Entry && !s.device.open && !s.shared.run
    ensures var s' := DoStep(s, e);
            !s'.shared.run && s'.log.frames == s.log.frames && !s'.device.open && (s'.local.pc == Entry || s'.local.pc == Idle)
  {
    if !e.Proceed? && !e.Open? {
      ControlLeaves(s, e);
    }
  }

  /** In every reachable state a stop works exactly if it comes after the assignment, or the device is closed. */
  lemma StopWorksExactly(n: nat, es: seq<Step>)
    requires Run(Boot(n), es)
    ensures var s := Reached(Boot(n), es); StopWorks(s) <==> PastAssignment(s.local.pc) || !s.device.open
  {
    var s := Reached(Boot(n), es);
    var stopped := DoStep(s, StopCapture);
    QueueAlways(n, es);
    LocksAlways(n, es);
    if PastAssignment(s.local.pc) {
      forall fs, s' | Leads(stopped, fs, s')
        ensures |s'.log.frames| <= |s.log.frames| + 1
      {
        AtMostOneMoreFrame(stopped, fs);
      }
    } else if !s.device.open {
      forall fs, s' | Leads(stopped, fs, s')
        ensures |s'.log.frames| <= |s.log.frames| + 1
      {
        ClosedCall(stopped, fs, s');
      }
    } else {
      var fs, s' := TwoMoreFrames(stopped);
    }
  }

  // ---- How soon a stopped call returns.

  /** The instructions that the capture thread executes in a run. */
  function Proceeds(es: seq<Step>): nat {
    if es == [] then 0 else Proceeds(Front(es)) + (if Last(es).Proceed? then 1 else 0)
  }

  /** The entries of the encoder list that the call has visited for its last frame. */
  function Offers(l: Local): nat {
    if Rank(l.pc) > Rank(EncoderNext(0)) then 0 else |l.frame.offered|
  }

  lemma DrawSpends(shared: Shared, l: Local, log: Log, a: Answer)
    requires Drawing(l.pc) && AnswerFits(shared, l.pc, a)
    ensures var l' := Draw(shared, l, log, a).1; Rank(l'.pc) + Offers(l) + 1 <= Rank(l.pc) + Offers(l')
  {
  }

  lemma LoopSpends(s: State, a: Answer)
    requires CanProceed(s, a) && !Drawing(s.local.pc) && !s.shared.run && PastAssignment(s.local.pc)
    ensures var l' := Loop(s, a).local; Rank(l'.pc) + Offers(s.local) + 1 <= Rank(s.local.pc) + Offers(l')
  {
    StoppedGoesOn(s, a);
    if s.local.pc != Dequeue {
      LoopKeepsFrame(s, a);
    }
  }

  lemma LoopKeepsFrame(s: State, a: Answer)
    requires CanProceed(s, a) && !Drawing(s.local.pc) && s.local.pc != Dequeue
    ensures Loop(s, a).local.frame == s.local.frame
  {
  }

  /** Every instruction of a stopped call is paid for by its rank or by a visited entry. */
  lemma {:induction false} SpendsRank(s: State, es: seq<Step>)
    requires Run(s, es) && Start !in es && !s.shared.run && PastAssignment(s.local.pc)
    ensures var s' := Reached(s, es);
            && !s'.shared.run && PastAssignment(s'.local.pc)
            && Proceeds(es) + Rank(s'.local.pc) + Offers(s.local) <= Rank(s.local.pc) + Offers(s'.local)
  {
    if es != [] {
      SpendsRank(s, Front(es));
      var before, e := Reached(s, Front(es)), Last(es);
      assert e in es;
      StoppedStep(before, e);
      if e.Proceed? && Drawing(before.local.pc) {
        DrawSpends(before.shared, before.local, before.log, e.a);
      } else if e.Proceed? {
        LoopSpends(before, e.a);
      } else if !e.Open? {
        ControlLeaves(before, e);
      }
    }
  }

  /** No more entries are visited than the list had at the lock. */
  predicate OffersFit(l: Local) {
    |l.frame.offered| <= |l.frame.list|
  }

  lemma DrawKeepsFit(shared: Shared, l: Local, log: Log, a: Answer)
    requires Drawing(l.pc) && AnswerFits(shared, l.pc, a) && OffersInv(l, shared.encoders) && OffersFit(l)
    ensures OffersFit(Draw(shared, l, log, a).1)
  {
  }

  lemma {:induction false} OffersAlwaysFit(n: nat, es: seq<Step>)
    requires Run(Boot(n), es)
    ensures OffersFit(Reached(Boot(n), es).local)
  {
    if es != [] {
      OffersAlwaysFit(n, Front(es));
      FramesAlways(n, Front(es));
      FitKept(Reached(Boot(n), Front(es)), Last(es));
    }
  }

  lemma FitKept(s: State, e: Step)
    requires CanStep(s, e) && FramesInv(s) && OffersFit(s.local)
    ensures OffersFit(DoStep(s, e).local)
  {
    if e.Proceed? && Drawing(s.local.pc) {
      DrawKeepsFit(s.shared, s.local, s.log, e.a);
    } else if e.Proceed? && s.local.pc != Dequeue {
      LoopKeepsFrame(s, e.a);
    } else if !e.Proceed? && !e.Open? && !e.Start? {
      ControlLeaves(s, e);
    }
  }

  lemma RunOn(s: State, es: seq<Step>, s': State, e: Step)
    requires Run(s, es) && s' == Reached(s, es) && CanStep(s', e)
    ensures Run(s, es + [e]) && Reached(s, es + [e]) == DoStep(s', e)
  {
    Append(es, e);
  }

  lemma {:induction false} RunsOn(s: State, es: seq<Step>, s': State, fs: seq<Step>)
    requires Run(s, es) && s' == Reached(s, es) && Run(s', fs)
    ensures Run(s, es + fs) && Reached(s, es + fs) == Reached(s', fs)
  {
    if fs == [] {
      assert es + fs == es;
    } else {
      var gs, last := Front(fs), Last(fs);
      RunsOn(s, es, s', gs);
      RunOn(s, es + gs, Reached(s', gs), last);
      Joined(es, fs);
    }
  }

  lemma Joined<T>(a: seq<T>, b: seq<T>)
    requires b != []
    ensures a + b == a + Front(b) + [Last(b)]
  {
  }

  /**
   From a stop on, the capture thread executes at most as many instructions before the next call as
   its rank says (19 at most), and one more for each entry of the encoder list found at the lock.
   */
  lemma StoppedCallIsShort(n: nat, es: seq<Step>, s: State, fs: seq<Step>, s': State)
    requires Run(Boot(n), es) && s == Reached(Boot(n), es)
    requires !s.shared.run && PastAssignment(s.local.pc) && Leads(s, fs, s')
    ensures Proceeds(fs) <= Rank(s.local.pc) + |s'.local.frame.list|
    ensures Rank(s.local.pc) <= 19
  {
    SpendsRank(s, fs);
    RunsOn(Boot(n), es, s, fs);
    OffersAlwaysFit(n, es + fs);
    WithinList(s.local, s'.local, Proceeds(fs));
  }

  lemma WithinList(l: Local, l': Local, steps: nat)
    requires steps + Rank(l'.pc) + Offers(l) <= Rank(l.pc) + Offers(l') && OffersFit(l')
    ensures steps <= Rank(l.pc) + |l'.frame.list| && Rank(l.pc) <= 19
  {
  }

  // ---- One such run, step by step.

  /**
   An iteration without any surface, in which the draw functions take `quiet` instructions; the first
   one announces itself.
   */
  function Iteration(first: bool, quiet: nat): seq<Step> {
    [Proceed(Silent), Proceed(Selected(Ready)), Proceed(Silent), Proceed(Dequeued)]
    + (if first then [Proceed(Silent)] else [])
    + Silences(quiet)
    + [Proceed(Requeued(true))]
  }

  function Silences(k: nat): seq<Step> {
    if k == 0 then [] else Silences(k - 1) + [Proceed(Silent)]
  }

  /** Without surfaces `k` silent instructions lead from the preview mutex to this one. */
  function QuietPc(k: nat): Pc {
    match k
    case 0 => PreviewLock
    case 1 => PreviewHeld
    case 2 => UnlockNoSurface
    case 3 => EncoderLock
    case 4 => EncoderHeld
    case 5 => EncoderUnlockEmpty
    case 6 => EncoderFree
    case _ => Requeue
  }

  predicate NoSurfaces(s: State) {
    Alone(s) && s.shared.preview.None? && s.shared.encoders == []
  }

  lemma QuietStep(shared: Shared, l: Local, log: Log, k: nat)
    requires shared.preview.None? && shared.encoders == [] && k < 7 && l.pc == QuietPc(k)
    ensures var (shared', l', log') := Draw(shared, l, log, Silent);
            && Drawing(l.pc) && shared'.preview.None? && shared'.encoders == [] && shared'.run == shared.run
            && l'.pc == QuietPc(k + 1) && l'.first == l.first && l'.frame.buffer == l.frame.buffer
            && |log'.frames| == |log.frames| + (if k == 6 then 1 else 0)
  {
  }

  lemma QuietCanStep(s: State, k: nat)
    requires NoSurfaces(s) && k < 7 && s.local.pc == QuietPc(k)
    ensures CanProceed(s, Silent)
  {
  }

  lemma {:induction false} QuietDraw(s: State, k: nat) returns (es: seq<Step>, s': State)
    requires NoSurfaces(s) && s.local.pc == PreviewLock && k <= 7
    ensures es == Silences(k)
    ensures Leads(s, es, s') && NoSurfaces(s') && s'.local.pc == QuietPc(k)
    ensures s'.device == s.device && s'.shared.run == s.shared.run && s'.local.first == s.local.first
    ensures s'.local.frame.buffer == s.local.frame.buffer
    ensures |s'.log.frames| == |s.log.frames| + (if k == 7 then 1 else 0)
  {
    if k == 0 {
      Stays(s);
      return [], s;
    }
    var fs, before := QuietDraw(s, k - 1);
    s' := QuietProceed(before, k - 1);
    OneStep(s, fs, before, Proceed(Silent));
    es := fs + [Proceed(Silent)];
  }

  lemma QuietProceed(s: State, k: nat) returns (s': State)
    requires NoSurfaces(s) && k < 7 && s.local.pc == QuietPc(k)
    ensures CanProceed(s, Silent) && s' == Proceeded(s, Silent) && NoSurfaces(s') && s'.local.pc == QuietPc(k + 1)
    ensures s'.device == s.device && s'.shared.run == s.shared.run && s'.local.first == s.local.first
    ensures s'.local.frame.buffer == s.local.frame.buffer
    ensures |s'.log.frames| == |s.log.frames| + (if k == 6 then 1 else 0)
  {
    QuietCanStep(s, k);
    QuietStep(s.shared, s.local, s.log, k);
    AloneKept(s, Silent);
    s' := Proceeded(s, Silent);
  }

  lemma QuietIteration(s: State, quiet: nat) returns (s': State)
    requires Rolling(s) && NoSurfaces(s) && quiet == 7
    ensures Leads(s, Iteration(s.local.first, quiet), s') && Rolling(s') && NoSurfaces(s')
    ensures !s'.local.first && |s'.log.frames| == |s.log.frames| + 1
  {
    var es, s1 := GetFrame(s);
    var fs, s2 := Announce(s1, s.local.first);
    Chain(s, es, s1, fs, s2);
    var gs, s3 := QuietDraw(s2, quiet);
    Chain(s, es + fs, s2, gs, s3);
    PutBack(s3, s.device.queue);
    OneStep(s, es + fs + gs, s3, Proceed(Requeued(true)));
    s' := Proceeded(s3, Requeued(true));
  }

  /** The callback for the first frame. */
  lemma Announce(s: State, first: bool) returns (es: seq<Step>, s': State)
    requires NoSurfaces(s) && s.local.first == first && s.local.pc == if first then NotifyFirst else PreviewLock
    ensures es == if first then [Proceed(Silent)] else []
    ensures Leads(s, es, s') && NoSurfaces(s') && s'.local.pc == PreviewLock && !s'.local.first
    ensures s'.device == s.device && s'.shared.run == s.shared.run && s'.log.frames == s.log.frames
    ensures s'.local.frame == s.local.frame
  {
    Stays(s);
    es, s' := [], s;
    if first {
      AloneKept(s, Silent);
      OneStep(s, es, s, Proceed(Silent));
      es, s' := es + [Proceed(Silent)], Proceeded(s, Silent);
    }
  }

  /**
   The device is opened, a call starts, a stop comes just before the assignment, and two frames are
   drawn: `start` leads up to the stop, `go` is the assignment, `quiet` counts the instructions of the
   draw functions.
   */
  lemma LostStop(start: seq<Step>, go: seq<Step>, quiet: nat) returns (s: State, s': State)
    requires start == [Open(true), Start, Proceed(Silent)] && go == [Proceed(Silent)] && quiet == 7
    ensures Run(Boot(0), start) && s == Reached(Boot(0), start) && s.local.pc == SetRun && s.log.frames == []
    ensures Leads(DoStep(s, StopCapture), go + Iteration(true, quiet) + Iteration(false, quiet), s')
    ensures |s'.log.frames| == 2
  {
    s := CallStarted(start);
    var stopped := DoStep(s, StopCapture);
    NobodyElse(stopped);
    s' := TwoQuietFrames(stopped, go, quiet);
  }

  lemma TwoQuietFrames(s: State, go: seq<Step>, quiet: nat) returns (s': State)
    requires NoSurfaces(s) && s.local.pc == SetRun && s.local.first && s.device.open && AllQueued(s.device.queue)
    requires go == [Proceed(Silent)] && quiet == 7
    ensures Leads(s, go + Iteration(true, quiet) + Iteration(false, quiet), s') && |s'.log.frames| == |s.log.frames| + 2
  {
    var s1 := Assign(s, go);
    var s2 := QuietIteration(s1, quiet);
    Chain(s, go, s1, Iteration(true, quiet), s2);
    s' := QuietIteration(s2, quiet);
    Chain(s, go + Iteration(true, quiet), s2, Iteration(false, quiet), s');
  }

  lemma Assign(s: State, go: seq<Step>) returns (s': State)
    requires NoSurfaces(s) && s.local.pc == SetRun && s.device.open && AllQueued(s.device.queue) && go == [Proceed(Silent)]
    ensures Leads(s, go, s') && Rolling(s') && NoSurfaces(s') && s'.local.first == s.local.first && s'.log == s.log
  {
    AloneKept(s, Silent);
    Stays(s);
    OneStep(s, [], s, Proceed(Silent));
    assert [] + [Proceed(Silent)] == go;
    s' := Proceeded(s, Silent);
  }

  /** A call on a freshly opened device, without control threads, at `pc`. */
  function FirstCall(pc: Pc, before: bool): State {
    State(Device(true, [0, 1, 2, 3]), Shared(false, None, [], Nobody, Nobody), Local(pc, true, NewFrame(0, false), false, false),
          [], Log([], true, before, [], []))
  }

  lemma CallStarted(start: seq<Step>) returns (s: State)
    requires start == [Open(true), Start, Proceed(Silent)]
    ensures Run(Boot(0), start) && s == Reached(Boot(0), start) && s == FirstCall(SetRun, true)
    ensures NoSurfaces(s)
  {
    s := FirstCall(SetRun, true);
    assert Boot(0).control == [];
    assert DoStep(Boot(0), Open(true)) == FirstCall(Idle, false);
    assert DoStep(FirstCall(Idle, false), Start) == FirstCall(Entry, true);
    assert DoStep(FirstCall(Entry, true), Proceed(Silent)) == s;
    ThreeSteps(start, [], FirstCall(Idle, false), FirstCall(Entry, true));
    NobodyElse(s);
  }

  lemma NobodyElse(s: State)
    requires s.control == [] && s.shared.previewLock == Nobody && s.shared.encoderLock == Nobody && s.local.pc == SetRun
    requires s.shared.preview.None? && s.shared.encoders == []
    ensures NoSurfaces(s)
  {
  }

  lemma ThreeSteps(start: seq<Step>, none: seq<Step>, one: State, two: State)
    requires start == [Open(true), Start, Proceed(Silent)] && none == []
    requires one == DoStep(Boot(0), Open(true)) && CanStep(one, Start) && two == DoStep(one, Start) && CanStep(two, Proceed(Silent))
    ensures Run(Boot(0), start) && Reached(Boot(0), start) == DoStep(two, Proceed(Silent))
  {
    RunOn(Boot(0), none, Boot(0), Open(true));
    RunOn(Boot(0), none + [Open(true)], one, Start);
    RunOn(Boot(0), none + [Open(true)] + [Start], two, Proceed(Silent));
    assert start == none + [Open(true)] + [Start] + [Proceed(Silent)];
  }
}
