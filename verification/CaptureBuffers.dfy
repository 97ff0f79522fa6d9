/**
 The four driver buffers of the capture protocol, over every run: none is lost while the loop goes
 on, and without dequeue errors they are drawn in turn.
 */
module CaptureBuffers {
  import opened Sequences
  import opened Capture

  /** Distinct buffers of the four. */
  predicate Buffers(q: seq<nat>) {
    && (forall i | 0 <= i < |q| :: q[i] < BUFFER_NR)
    && (forall i, j | 0 <= i < j < |q| :: q[i] != q[j])
  }

  /** All four buffers, each once. */
  predicate AllQueued(q: seq<nat>) {
    Buffers(q) && |q| == BUFFER_NR
  }

  lemma AllFour(q: seq<nat>, b: nat)
    requires AllQueued(q) && b < BUFFER_NR
    ensures b in q
  {
    assert q[0] != q[1] && q[0] != q[2] && q[0] != q[3] && q[1] != q[2] && q[1] != q[3] && q[2] != q[3];
  }

  /** While a frame is drawn, one buffer is out if the driver handed it out, and at most one otherwise. */
  predicate OneOut(q: seq<nat>, f: Frame) {
    && Buffers(q) && f.buffer < BUFFER_NR
    && BUFFER_NR - 1 <= |q|
    && (f.dequeued ==> |q| == BUFFER_NR - 1 && f.buffer !in q)
  }

  datatype Phase = Outside | Waiting | Framed | Failing | Ended

  function PhaseOf(pc: Pc): Phase {
    match pc
    case Idle | Entry => Outside
    case Closing => Failing
    case NotifyError => Ended
    case _ => if InFrame(pc) then Framed else Waiting
  }

  predicate QueueInv(d: Device, pc: Pc, f: Frame) {
    match PhaseOf(pc)
    case Outside => if d.open then AllQueued(d.queue) else d.queue == []
    case Waiting => d.open && AllQueued(d.queue)
    case Framed => d.open && OneOut(d.queue, f)
    case Failing => d.open
    case Ended => d == Device(false, [])
  }

  /** The draw functions leave the buffer of the frame as it is, and end before the queueing. */
  lemma DrawStays(shared: Shared, l: Local, log: Log, a: Answer)
    requires Drawing(l.pc) && AnswerFits(shared, l.pc, a)
    ensures var l' := Draw(shared, l, log, a).1;
            InFrame(l'.pc) && l'.frame.buffer == l.frame.buffer && l'.frame.dequeued == l.frame.dequeued
  {
  }

  /** A dequeue takes the first buffer, a failed one at most the one that is lost; the others stay in order. */
  lemma DequeueTakes(s: State, a: Answer)
    requires s.local.pc == Dequeue && CanProceed(s, a)
    ensures var q, q' := s.device.queue, Loop(s, a).device.queue;
            && (a.Dequeued? ==> q != [] && q' == q[1..] && Loop(s, a).local.frame.buffer == q[0])
            && (a.DequeueFailed? && a.lost.Some? ==>
                  && a.lost.value < |q| && |q'| == |q| - 1
                  && forall k | 0 <= k < |q'| :: q'[k] == q[if k < a.lost.value then k else k + 1])
            && (a == Again || (a.DequeueFailed? && a.lost.None?) ==> q' == q)
  {
  }

  lemma DequeueKeepsQueue(s: State, a: Answer)
    requires s.local.pc == Dequeue && QueueInv(s.device, s.local.pc, s.local.frame) && CanProceed(s, a)
    ensures var s' := Loop(s, a); QueueInv(s'.device, s'.local.pc, s'.local.frame)
  {
    Taken(s.device.queue, a);
  }

  lemma RequeueKeepsQueue(s: State, a: Answer)
    requires s.local.pc == Requeue && QueueInv(s.device, s.local.pc, s.local.frame) && CanProceed(s, a)
    ensures var s' := Loop(s, a); QueueInv(s'.device, s'.local.pc, s'.local.frame)
  {
    if a.ok {
      Refilled(s.device.queue, s.local.frame.buffer);
    }
  }

  /** Every other instruction leaves the device as it is, or closes it. */
  lemma LoopPhases(s: State, a: Answer)
    requires CanProceed(s, a) && !InFrame(s.local.pc) && s.local.pc != Dequeue
    ensures var s' := Loop(s, a);
            && s'.local.frame == s.local.frame
            && s'.device == (if s.local.pc == Closing then Device(false, []) else s.device)
            && match PhaseOf(s.local.pc) {
                 case Outside => s'.local.pc == if s.device.open then SetRun else Idle
                 case Waiting => PhaseOf(s'.local.pc) != Framed && PhaseOf(s'.local.pc) != Ended
                 case Failing => s'.local.pc == NotifyError
                 case Ended => s'.local.pc == Idle
                 case Framed => true
               }
  {
  }

  lemma ProceedKeepsQueue(s: State, a: Answer)
    requires QueueInv(s.device, s.local.pc, s.local.frame) && CanProceed(s, a)
    ensures var s' := Proceeded(s, a); QueueInv(s'.device, s'.local.pc, s'.local.frame)
  {
    if Drawing(s.local.pc) {
      DrawStays(s.shared, s.local, s.log, a);
    } else if s.local.pc == Dequeue {
      DequeueKeepsQueue(s, a);
    } else if s.local.pc == Requeue {
      RequeueKeepsQueue(s, a);
    } else {
      LoopPhases(s, a);
    }
  }

  lemma QueueKept(s: State, e: Step)
    requires QueueInv(s.device, s.local.pc, s.local.frame) && CanStep(s, e)
    ensures var s' := DoStep(s, e); QueueInv(s'.device, s'.local.pc, s'.local.frame)
  {
    match e
    case Open(_) =>
    case Start =>
    case Proceed(a) => ProceedKeepsQueue(s, a);
    case _ => ControlLeaves(s, e);
  }

  lemma Taken(q: seq<nat>, a: Answer)
    requires AllQueued(q)
    ensures a.Dequeued? ==> OneOut(q[1..], NewFrame(q[0], true))
    ensures a.DequeueFailed? && a.index < BUFFER_NR && (a.lost.Some? ==> a.lost.value < |q|) ==> OneOut(Drop(q, a.lost), NewFrame(a.index, false))
  {
  }

  /** A queue that takes one more buffer held three: with four it would hold that one already. */
  lemma Refilled(q: seq<nat>, b: nat)
    requires Buffers(q) && |q| >= BUFFER_NR - 1 && b < BUFFER_NR && b !in q
    ensures AllQueued(q + [b])
  {
    TooMany(q, b);
  }

  lemma TooMany(q: seq<nat>, b: nat)
    requires Buffers(q) && |q| >= BUFFER_NR - 1 && b < BUFFER_NR && b !in q
    ensures |q| == BUFFER_NR - 1
  {
    if |q| == BUFFER_NR {
      AllFour(q, b);
    } else if |q| > BUFFER_NR {
      AllFour(q[..BUFFER_NR], q[BUFFER_NR]);
    }
  }

  lemma {:induction false} QueueAlways(n: nat, es: seq<Step>)
    requires Run(Boot(n), es)
    ensures var s := Reached(Boot(n), es); QueueInv(s.device, s.local.pc, s.local.frame)
  {
    if es != [] {
      QueueAlways(n, Front(es));
      QueueKept(Reached(Boot(n), Front(es)), Last(es));
    }
  }

  /** Every arrival at the loop head finds all four buffers in the driver, whatever it answered before. */
  lemma HeadFindsAllBuffers(n: nat, es: seq<Step>, b: nat)
    requires Run(Boot(n), es) && Reached(Boot(n), es).local.pc == Head
    ensures var d := Reached(Boot(n), es).device; d.open && |d.queue| == BUFFER_NR && (b in d.queue <==> b < BUFFER_NR)
  {
    QueueAlways(n, es);
    if b < BUFFER_NR {
      AllFour(Reached(Boot(n), es).device.queue, b);
    }
  }

  /** Between a successful dequeue and its queueing exactly the buffer of the frame is out. */
  lemma OneBufferOut(n: nat, es: seq<Step>, b: nat)
    requires Run(Boot(n), es) && InFrame(Reached(Boot(n), es).local.pc) && Reached(Boot(n), es).local.frame.dequeued
    ensures var s := Reached(Boot(n), es);
            && |s.device.queue| == BUFFER_NR - 1 && s.local.frame.buffer < BUFFER_NR
            && (b in s.device.queue <==> b < BUFFER_NR && b != s.local.frame.buffer)
  {
    QueueAlways(n, es);
    var s := Reached(Boot(n), es);
    if b < BUFFER_NR {
      AllFour(s.device.queue + [s.local.frame.buffer], b);
    }
  }

  /**
   Also after a failed dequeue, the loop goes on only if the queueing makes the queue complete, which
   the driver can do exactly when the buffer is the one it lacks; otherwise the call ends in the error exit.
   */
  lemma LoopsOnlyWhenRestored(n: nat, es: seq<Step>, a: Answer)
    requires Run(Boot(n), es) && Reached(Boot(n), es).local.pc == Requeue && CanProceed(Reached(Boot(n), es), a)
    ensures var s := Reached(Boot(n), es); var s' := DoStep(s, Proceed(a));
            && (CanProceed(s, Requeued(true)) <==> AllQueued(s.device.queue + [s.local.frame.buffer]))
            && (if a.ok then s'.local.pc == Head && AllQueued(s'.device.queue) else s'.local.pc == Closing)
  {
    QueueAlways(n, es);
    var s := Reached(Boot(n), es);
    var q, b := s.device.queue, s.local.frame.buffer;
    if b !in q {
      Refilled(q, b);
    } else {
      var i :| 0 <= i < |q| && q[i] == b;
      assert (q + [b])[i] == (q + [b])[|q|];
    }
  }

  // ---- The order of the buffers when no dequeue fails.

  function Rotation(n: nat): (q: seq<nat>)
    ensures |q| == BUFFER_NR
  {
    [n % BUFFER_NR, (n + 1) % BUFFER_NR, (n + 2) % BUFFER_NR, (n + 3) % BUFFER_NR]
  }

  lemma RotationNext(n: nat)
    ensures Rotation(n)[1..] + [n % BUFFER_NR] == Rotation(n + 1)
  {
  }

  /** The frames so far were drawn from the buffers in turn. */
  predicate InTurn(frames: seq<Frame>) {
    forall k | 0 <= k < |frames| :: frames[k].dequeued && frames[k].buffer == k % BUFFER_NR
  }

  /** After `n` completed iterations the queue has been rotated `n` times. */
  predicate TurnInv(d: Device, pc: Pc, f: Frame, frames: seq<Frame>) {
    && InTurn(frames)
    && match PhaseOf(pc)
       case Outside | Waiting => d.open ==> d.queue == Rotation(|frames|)
       case Framed =>
         if pc == Requeue then frames != [] && f == Last(frames) && d.queue == Rotation(|frames| - 1)[1..]
         else f.dequeued && f.buffer == |frames| % BUFFER_NR && d.queue == Rotation(|frames|)[1..]
       case _ => true
  }

  /** A frame is recorded as drawn exactly on the way to its queueing. */
  lemma DrawLogs(shared: Shared, l: Local, log: Log, a: Answer)
    requires Drawing(l.pc) && AnswerFits(shared, l.pc, a)
    ensures var (_, l', log') := Draw(shared, l, log, a);
            && log'.clean == log.clean
            && (l'.pc == Requeue ==> l'.frame == l.frame)
            && log'.frames == log.frames + (if l'.pc == Requeue then [l'.frame] else [])
  {
  }

  /** Drawing keeps the turn: the frame stays, and is counted when it has been drawn. */
  lemma DrawKeepsTurn(d: Device, pc: Pc, pc': Pc, f: Frame, f': Frame, frames: seq<Frame>)
    requires Drawing(pc) && InFrame(pc') && f'.buffer == f.buffer && f'.dequeued == f.dequeued
    requires TurnInv(d, pc, f, frames)
    ensures TurnInv(d, pc', f', frames + (if pc' == Requeue then [f'] else []))
  {
  }

  predicate TurnsOf(s: State) {
    s.log.clean ==> TurnInv(s.device, s.local.pc, s.local.frame, s.log.frames)
  }

  lemma DequeueKeepsTurn(s: State, a: Answer)
    requires TurnsOf(s) && CanProceed(s, a) && s.local.pc == Dequeue
    requires QueueInv(s.device, s.local.pc, s.local.frame)
    ensures TurnsOf(Loop(s, a))
  {
  }

  lemma RequeueKeepsTurn(s: State, a: Answer)
    requires TurnsOf(s) && CanProceed(s, a) && s.local.pc == Requeue
    ensures TurnsOf(Loop(s, a))
  {
    if s.log.frames != [] {
      RotationNext(|s.log.frames| - 1);
    }
  }

  lemma LoopLogs(s: State, a: Answer)
    requires CanProceed(s, a) && !Drawing(s.local.pc) && s.local.pc != Dequeue
    ensures Loop(s, a).log.frames == s.log.frames && Loop(s, a).log.clean == s.log.clean
  {
  }

  lemma ProceedKeepsTurn(s: State, a: Answer)
    requires TurnsOf(s) && CanProceed(s, a)
    requires QueueInv(s.device, s.local.pc, s.local.frame)
    ensures TurnsOf(Proceeded(s, a))
  {
    if Drawing(s.local.pc) {
      DrawStays(s.shared, s.local, s.log, a);
      DrawLogs(s.shared, s.local, s.log, a);
      if s.log.clean {
        var l' := Proceeded(s, a).local;
        DrawKeepsTurn(s.device, s.local.pc, l'.pc, s.local.frame, l'.frame, s.log.frames);
      }
    } else if s.local.pc == Dequeue {
      DequeueKeepsTurn(s, a);
    } else if s.local.pc == Requeue {
      RequeueKeepsTurn(s, a);
    } else {
      LoopPhases(s, a);
      LoopLogs(s, a);
    }
  }

  lemma TurnKept(s: State, e: Step)
    requires TurnsOf(s) && CanStep(s, e)
    requires QueueInv(s.device, s.local.pc, s.local.frame)
    ensures TurnsOf(DoStep(s, e))
  {
    match e
    case Open(_) =>
    case Start =>
    case Proceed(a) => ProceedKeepsTurn(s, a);
    case _ => ControlLeaves(s, e);
  }

  lemma {:induction false} TurnAlways(n: nat, es: seq<Step>)
    requires Run(Boot(n), es)
    ensures TurnsOf(Reached(Boot(n), es))
  {
    if es != [] {
      TurnAlways(n, Front(es));
      QueueAlways(n, Front(es));
      TurnKept(Reached(Boot(n), Front(es)), Last(es));
    }
  }

  /**
   If no dequeue has failed since the device was opened, frame `k` was drawn from buffer `k` mod 4,
   and at the loop head the queue is [0, 1, 2, 3] rotated by the number of completed iterations,
   over any number of stopped and started calls.
   */
  lemma BuffersTakeTurns(n: nat, es: seq<Step>, k: nat)
    requires Run(Boot(n), es) && Reached(Boot(n), es).log.clean
    ensures var s := Reached(Boot(n), es);
            && (k < |s.log.frames| ==> s.log.frames[k].buffer == k % BUFFER_NR)
            && (s.local.pc == Head ==> s.device.queue == Rotation(|s.log.frames|))
            && (s.local.pc == Idle && s.device.open ==> s.device.queue == Rotation(|s.log.frames|))
  {
    TurnAlways(n, es);
    QueueAlways(n, es);
  }
}
