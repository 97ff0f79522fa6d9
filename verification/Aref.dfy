/**
 The reference count of aref.h on top of the atomic operations: any number of threads get, put,
 use and hand over references to one object. A thread gets only while it holds a reference; a put
 gives one up, and the put whose decrement finds 1 calls release.
 */
module Aref {
  import opened AtomicSpec
  import opened Sequences

  const INC := Add(1)
  const DEC := Add(0xffff_ffff)  // the increment -1
  const LIMIT := 0x8000_0000

  /**
   `atomic` is the count and the progress of every atomic operation on it, `held` the references
   that each thread holds, `ending` marks the threads whose put has found 1 and not yet called
   release, and `released` counts the calls of release.
   */
  datatype State = State(atomic: System, held: seq<nat>, ending: seq<bool>, released: nat)

  datatype Step =
    | Get(t: nat)            // call android_atomic_inc
    | Put(t: nat)            // call android_atomic_dec
    | Operate(t: nat)        // the atomic operation takes effect
    | GetReturn(t: nat)
    | PutReturn(t: nat)      // compare the previous count with 1
    | Release(t: nat)
    | HandOver(t: nat, u: nat)
    | Use(t: nat)            // work on the object

  predicate WellFormed(s: State) {
    |s.atomic.threads| == |s.held| == |s.ending|
  }

  predicate Outside(s: State, t: nat)
    requires WellFormed(s) && t < |s.held|
  {
    s.atomic.threads[t] == Idle && !s.ending[t]
  }

  predicate CanStep(s: State, e: Step) {
    && WellFormed(s) && e.t < |s.held|
    && var l := s.atomic.threads[e.t];
       match e
       case Get(t) => Outside(s, t) && s.held[t] >= 1
       case Put(t) => Outside(s, t) && s.held[t] >= 1
       case Operate(t) => l.Pending?
       case GetReturn(t) => l.Done? && l.op == INC
       case PutReturn(t) => l.Done? && l.op == DEC
       case Release(t) => s.ending[t]
       case HandOver(t, u) => Outside(s, t) && s.held[t] >= 1 && u < |s.held| && u != t
       case Use(t) => Outside(s, t) && s.held[t] >= 1
  }

  function DoStep(s: State, e: Step): State
    requires CanStep(s, e)
  {
    var l := s.atomic.threads[e.t];
    match e
    case Get(t) => s.(atomic := Next(s.atomic, Call(t, INC)))
    case Put(t) => s.(atomic := Next(s.atomic, Call(t, DEC)), held := s.held[t := s.held[t] - 1])
    case Operate(t) => s.(atomic := Next(s.atomic, Take(t)))
    case GetReturn(t) => s.(atomic := Next(s.atomic, Return(t, INC, l.answer)), held := s.held[t := s.held[t] + 1])
    case PutReturn(t) => s.(atomic := Next(s.atomic, Return(t, DEC, l.answer)), ending := s.ending[t := l.answer == 1])
    case Release(t) => s.(ending := s.ending[t := false], released := s.released + 1)
    case HandOver(t, u) => s.(held := s.held[t := s.held[t] - 1][u := s.held[u] + 1])
    case Use(_) => s
  }

  /** The steps that read or write the object or its count. */
  predicate Touches(e: Step) {
    e.Operate? || e.Release? || e.Use?
  }

  /** The references that a thread accounts for: held, acquired by a get, or not yet dropped by a put. */
  function Refs(held: nat, l: Local): nat {
    held + (if (l.Done? && l.op == INC) || (l.Pending? && l.op == DEC) then 1 else 0)
  }

  function RefsOf(s: State): (refs: seq<nat>)
    requires WellFormed(s)
    ensures |refs| == |s.held|
  {
    seq(|s.held|, t requires 0 <= t < |s.held| => Refs(s.held[t], s.atomic.threads[t]))
  }

  /** Whether the thread is the one that must release: its decrement found 1. */
  function Ends(l: Local, ending: bool): nat {
    if ending || (l.Done? && l.op == DEC && l.answer == 1) then 1 else 0
  }

  function EndsOf(s: State): (ends: seq<nat>)
    requires WellFormed(s)
    ensures |ends| == |s.held|
  {
    seq(|s.held|, t requires 0 <= t < |s.held| => Ends(s.atomic.threads[t], s.ending[t]))
  }

  function Total(s: seq<nat>): nat {
    if s == [] then 0 else Total(Front(s)) + Last(s)
  }

  lemma {:induction false} TotalUpdate(s: seq<nat>, i: nat, x: nat)
    requires i < |s|
    ensures Total(s[i := x]) == Total(s) - s[i] + x
    ensures s[i] <= Total(s)
  {
    if i < |s| - 1 {
      TotalUpdate(Front(s), i, x);
      assert Front(s[i := x]) == Front(s)[i := x];
    } else {
      assert Front(s[i := x]) == Front(s);
    }
  }

  lemma {:induction false} TotalZero(n: nat)
    ensures Total(seq(n, i => 0)) == 0
  {
    if n > 0 {
      assert Front(seq(n, i => 0)) == seq(n - 1, i => 0);
      TotalZero(n - 1);
    }
  }

  /** The references to the object that are outstanding. */
  function Outstanding(s: State): nat
    requires WellFormed(s)
  {
    Total(RefsOf(s))
  }

  /** Threads that must still release, and releases done. */
  function Endings(s: State): nat
    requires WellFormed(s)
  {
    Total(EndsOf(s)) + s.released
  }

  predicate ThreadInv(held: nat, l: Local, ending: bool) {
    && (l == Idle || l.op == INC || l.op == DEC)
    && (l != Idle && l.op == INC ==> held >= 1)
    && (ending ==> l == Idle)
  }

  predicate ThreadsInv(s: State) {
    && WellFormed(s)
    && forall t | 0 <= t < |s.held| :: ThreadInv(s.held[t], s.atomic.threads[t], s.ending[t])
  }

  /**
   The count is the number of outstanding references, and as long as there are any, nobody has
   released or is about to; after that exactly one thread has or is.
   */
  predicate Inv(s: State) {
    && ThreadsInv(s)
    && s.atomic.cell == Outstanding(s)
    && Endings(s) == (if Outstanding(s) == 0 then 1 else 0)
  }

  /** What a step changes for thread `t`. */
  lemma Changed(s: State, e: Step)
    requires CanStep(s, e)
    ensures WellFormed(DoStep(s, e)) && |DoStep(s, e).held| == |s.held|
    ensures !e.HandOver? ==>
              var s', t := DoStep(s, e), e.t;
              && RefsOf(s') == RefsOf(s)[t := Refs(s'.held[t], s'.atomic.threads[t])]
              && EndsOf(s') == EndsOf(s)[t := Ends(s'.atomic.threads[t], s'.ending[t])]
    ensures e.HandOver? ==>
              var s' := DoStep(s, e);
              && RefsOf(s') == RefsOf(s)[e.t := RefsOf(s)[e.t] - 1][e.u := RefsOf(s)[e.u] + 1]
              && EndsOf(s') == EndsOf(s)
  {
  }

  lemma ThreadsKept(s: State, e: Step)
    requires ThreadsInv(s) && CanStep(s, e)
    ensures ThreadsInv(DoStep(s, e))
  {
  }

  /** The effect of the two operations on a count that is neither 0 nor near 2^31. */
  lemma CountEffect(c: Word)
    ensures c < LIMIT ==> Effect(INC, c) == c + 1
    ensures c > 0 ==> Effect(DEC, c) == c - 1
    ensures Answer(DEC, c) == c
  {
  }

  lemma HandOverKeeps(s: State, e: Step)
    requires Inv(s) && CanStep(s, e) && e.HandOver?
    ensures Inv(DoStep(s, e))
  {
    ThreadsKept(s, e);
    Changed(s, e);
    MoveOne(RefsOf(s), e.t, e.u);
  }

  lemma MoveOne(s: seq<nat>, i: nat, j: nat)
    requires i < |s| && j < |s| && i != j && s[i] >= 1
    ensures Total(s[i := s[i] - 1][j := s[j] + 1]) == Total(s)
  {
    TotalUpdate(s, i, s[i] - 1);
    TotalUpdate(s[i := s[i] - 1], j, s[j] + 1);
  }

  /** A step of one thread keeps the invariant if its own accounts and the count move together. */
  lemma AccountsKept(s: State, s': State, t: nat)
    requires Inv(s) && ThreadsInv(s') && |s'.held| == |s.held| && t < |s.held|
    requires RefsOf(s') == RefsOf(s)[t := RefsOf(s')[t]] && EndsOf(s') == EndsOf(s)[t := EndsOf(s')[t]]
    requires s'.atomic.cell + RefsOf(s)[t] == s.atomic.cell + RefsOf(s')[t]
    requires EndsOf(s')[t] + s'.released + (if s.atomic.cell == 0 then 1 else 0)
             == EndsOf(s)[t] + s.released + (if s'.atomic.cell == 0 then 1 else 0)
    ensures Inv(s')
  {
    TotalUpdate(RefsOf(s), t, RefsOf(s')[t]);
    TotalUpdate(EndsOf(s), t, EndsOf(s')[t]);
  }

  /** What the atomic operation of thread `t` finds: a get is covered by a held reference, a put by the one it drops. */
  lemma Counted(s: State, t: nat)
    requires Inv(s) && t < |s.held| && s.atomic.threads[t].Pending?
    ensures s.atomic.cell >= 1
  {
    TotalUpdate(RefsOf(s), t, 0);
  }

  lemma InvKept(s: State, e: Step)
    requires Inv(s) && CanStep(s, e) && Outstanding(s) < LIMIT
    ensures Inv(DoStep(s, e))
  {
    if e.HandOver? {
      HandOverKeeps(s, e);
    } else {
      ThreadsKept(s, e);
      Changed(s, e);
      if e.Operate? {
        Counted(s, e.t);
        CountEffect(s.atomic.cell);
      }
      AccountsKept(s, DoStep(s, e), e.t);
    }
  }

  function Reached(s: State, es: seq<Step>): State {
    if es == [] then s
    else
      var before := Reached(s, Front(es));
      if CanStep(before, Last(es)) then DoStep(before, Last(es)) else before
  }

  /** A run in which fewer than 2^31 references are outstanding at any time. */
  predicate Run(s: State, es: seq<Step>) {
    es == [] ||
    var before := Reached(s, Front(es));
    Run(s, Front(es)) && CanStep(before, Last(es)) && Outstanding(before) < LIMIT
  }

  /** aref_init: the count is 1, and the creating thread holds the reference. */
  function Created(n: nat, creator: nat): State
    requires creator < n
  {
    State(Start(1, n), seq(n, i => 0)[creator := 1], seq(n, i => false), 0)
  }

  lemma CreatedInv(n: nat, creator: nat)
    requires creator < n
    ensures Inv(Created(n, creator))
  {
    var s := Created(n, creator);
    var zeros := seq(n, i => 0);
    TotalZero(n);
    TotalUpdate(zeros, creator, 1);
    assert RefsOf(s) == zeros[creator := 1];
    assert EndsOf(s) == zeros;
  }

  /** In every run the count is the number of outstanding references. */
  lemma {:induction false} CountsReferences(n: nat, creator: nat, es: seq<Step>)
    requires creator < n && Run(Created(n, creator), es)
    ensures Inv(Reached(Created(n, creator), es))
  {
    if es == [] {
      CreatedInv(n, creator);
    } else {
      CountsReferences(n, creator, Front(es));
      InvKept(Reached(Created(n, creator), Front(es)), Last(es));
    }
  }

  function Releases(es: seq<Step>): nat {
    if es == [] then 0 else Releases(Front(es)) + (if Last(es).Release? then 1 else 0)
  }

  /** No thread is inside an operation. */
  predicate Quiet(s: State)
    requires WellFormed(s)
  {
    forall t | 0 <= t < |s.held| :: Outside(s, t)
  }

  lemma NobodyEnds(s: State)
    requires WellFormed(s) && Quiet(s)
    ensures Total(EndsOf(s)) == 0
  {
    forall t | 0 <= t < |s.held|
      ensures EndsOf(s)[t] == 0
    {
      assert Outside(s, t);
    }
    assert EndsOf(s) == seq(|s.held|, i => 0);
    TotalZero(|s.held|);
  }

  /**
   `release` is called at most once, only when no reference is outstanding; and once none is
   outstanding and no thread is inside an operation, it has been called.
   */
  lemma {:induction false} ReleasedOnce(n: nat, creator: nat, es: seq<Step>)
    requires creator < n && Run(Created(n, creator), es)
    ensures WellFormed(Reached(Created(n, creator), es))
    ensures var s := Reached(Created(n, creator), es);
            && Releases(es) == s.released <= 1
            && (Releases(es) == 1 ==> Outstanding(s) == 0)
            && (Outstanding(s) == 0 && Quiet(s) ==> Releases(es) == 1)
  {
    CountsReferences(n, creator, es);
    var s := Reached(Created(n, creator), es);
    if Quiet(s) {
      NobodyEnds(s);
    }
    if es != [] {
      ReleasedOnce(n, creator, Front(es));
    }
  }

  /** The decrement that leaves no reference is the one that finds 1, and its thread is the one to release. */
  lemma LastPutReleases(s: State, e: Step)
    requires Inv(s) && CanStep(s, e) && 0 < Outstanding(s) < LIMIT && WellFormed(DoStep(s, e))
    requires Outstanding(DoStep(s, e)) == 0
    ensures e.Operate? && DoStep(s, e).atomic.threads[e.t] == Done(DEC, 1)
  {
    InvKept(s, e);
    if e.Operate? {
      Counted(s, e.t);
      CountEffect(s.atomic.cell);
    }
  }

  /** With no reference left and release called, no step can touch the object. */
  lemma NothingTouches(s: State, e: Step)
    requires Inv(s) && s.released == 1 && CanStep(s, e)
    ensures !Touches(e) && DoStep(s, e).released == 1
  {
    TotalUpdate(RefsOf(s), e.t, 0);
    TotalUpdate(EndsOf(s), e.t, 0);
  }

  /** Nothing touches the object after its release. */
  lemma {:induction false} NoTouchAfterRelease(n: nat, creator: nat, es: seq<Step>, i: nat, j: nat)
    requires creator < n && Run(Created(n, creator), es) && i < j < |es| && es[i].Release?
    ensures !Touches(es[j])
    decreases |es|
  {
    if j < |es| - 1 {
      NoTouchAfterRelease(n, creator, Front(es), i, j);
    } else {
      ReleasesCount(Front(es), i);
      ReleasedOnce(n, creator, Front(es));
      CountsReferences(n, creator, Front(es));
      NothingTouches(Reached(Created(n, creator), Front(es)), es[j]);
    }
  }

  lemma {:induction false} ReleasesCount(es: seq<Step>, i: nat)
    requires i < |es| && es[i].Release?
    ensures Releases(es) >= 1
  {
    if i < |es| - 1 {
      ReleasesCount(Front(es), i);
    }
  }
}
