/**
 The reference count on the machines: its atomic operations are runs of x86 or ARM instructions, with
 all instructions of all threads interleaved with the steps of the clients.
 */
module ArefMachines {
  import opened Sequences
  import opened Machines
  import Aref

  datatype State = State(cpu: Cpu, held: seq<nat>, ending: seq<bool>, released: nat)

  function Abs(s: State): Aref.State {
    Aref.State(Calls(s.cpu), s.held, s.ending, s.released)
  }

  /** A step of a client, or an instruction inside an operation. */
  datatype Step = Client(e: Aref.Step) | Execute(i: Instruction)

  predicate CanStep(s: State, e: Step) {
    && Sound(s.cpu) && Aref.WellFormed(Abs(s))
    && match e
       case Client(c) => !c.Operate? && Aref.CanStep(Abs(s), c)
       case Execute(i) => Inner(i) && CanExecute(s.cpu, i)
  }

  /** The call or return that a step of a client makes. */
  function Called(s: State, e: Aref.Step): (cpu: Cpu)
    requires Sound(s.cpu) && !e.Operate? && Aref.CanStep(Abs(s), e)
    ensures Sound(cpu) && Calls(cpu) == Aref.DoStep(Abs(s), e).atomic
  {
    match e
    case Get(t) =>
      EnterRefines(s.cpu, t, Aref.INC);
      Executed(s.cpu, Entering(s.cpu, t, Aref.INC))
    case Put(t) =>
      EnterRefines(s.cpu, t, Aref.DEC);
      Executed(s.cpu, Entering(s.cpu, t, Aref.DEC))
    case GetReturn(t) =>
      LeaveRefines(s.cpu, t, Aref.INC, Calls(s.cpu).threads[t].answer);
      Executed(s.cpu, Leaving(s.cpu, t, Aref.INC, Calls(s.cpu).threads[t].answer))
    case PutReturn(t) =>
      LeaveRefines(s.cpu, t, Aref.DEC, Calls(s.cpu).threads[t].answer);
      Executed(s.cpu, Leaving(s.cpu, t, Aref.DEC, Calls(s.cpu).threads[t].answer))
    case _ => s.cpu
  }

  function DoStep(s: State, e: Step): State
    requires CanStep(s, e)
  {
    match e
    case Client(c) =>
      var d := Aref.DoStep(Abs(s), c);
      State(Called(s, c), d.held, d.ending, d.released)
    case Execute(i) => s.(cpu := Executed(s.cpu, i))
  }

  function Reached(s: State, es: seq<Step>): State {
    if es == [] then s
    else
      var before := Reached(s, Front(es));
      if CanStep(before, Last(es)) then DoStep(before, Last(es)) else before
  }

  /** A run in which fewer than 2^31 references are outstanding at any time. */
  predicate Run(s: State, es: seq<Step>) {
    es == [] ||
    var before := Reached(s, Front(es));
    Run(s, Front(es)) && CanStep(before, Last(es)) && Aref.Outstanding(Abs(before)) < Aref.LIMIT
  }

  /** aref_init on either machine, with `n` threads. */
  function Created(arm: bool, n: nat, creator: nat): State
    requires creator < n
  {
    var a := Aref.Created(n, creator);
    State(Boot(arm, 1, n), a.held, a.ending, a.released)
  }

  lemma CreatedIs(arm: bool, n: nat, creator: nat)
    requires creator < n
    ensures Abs(Created(arm, n, creator)) == Aref.Created(n, creator) && Sound(Created(arm, n, creator).cpu)
  {
  }

  lemma StepKeeps(s: State, e: Step)
    requires Sound(s.cpu) && Aref.Inv(Abs(s)) && CanStep(s, e) && Aref.Outstanding(Abs(s)) < Aref.LIMIT
    ensures Sound(DoStep(s, e).cpu) && Aref.Inv(Abs(DoStep(s, e)))
  {
    match e
    case Client(c) =>
      Aref.InvKept(Abs(s), c);
      assert Abs(DoStep(s, e)) == Aref.DoStep(Abs(s), c);
    case Execute(i) =>
      Refines(s.cpu, i);
      InnerRefines(s.cpu, i);
      if Visible(s.cpu, i) != [] {
        Aref.InvKept(Abs(s), Aref.Operate(ThreadOf(i)));
        assert Abs(DoStep(s, e)) == Aref.DoStep(Abs(s), Aref.Operate(ThreadOf(i)));
      }
  }

  /** In every run on either machine the cell is the number of outstanding references, and release is called at most once. */
  lemma {:induction false} CountsOnMachines(arm: bool, n: nat, creator: nat, es: seq<Step>)
    requires creator < n && Run(Created(arm, n, creator), es)
    ensures var s := Reached(Created(arm, n, creator), es);
            Sound(s.cpu) && Aref.Inv(Abs(s)) && Calls(s.cpu).cell == Aref.Outstanding(Abs(s)) && s.released <= 1
  {
    if es == [] {
      CreatedIs(arm, n, creator);
      Aref.CreatedInv(n, creator);
    } else {
      CountsOnMachines(arm, n, creator, Front(es));
      StepKeeps(Reached(Created(arm, n, creator), Front(es)), Last(es));
    }
  }

  /** Once release has been called, no thread is inside an operation that has yet to take effect. */
  lemma NobodyPending(s: Aref.State, t: nat)
    requires Aref.Inv(s) && s.released == 1 && t < |s.held|
    ensures !s.atomic.threads[t].Pending?
  {
    if s.atomic.threads[t].Pending? {
      Aref.NothingTouches(s, Aref.Operate(t));
    }
  }

  lemma {:induction false} ReleasedStays(s: State, es: seq<Step>, i: nat)
    requires Run(s, es) && i < |es| && es[i].Client? && es[i].e.Release?
    ensures Reached(s, es).released >= 1
  {
    if i < |es| - 1 {
      ReleasedStays(s, Front(es), i);
    }
  }

  /** On either machine no instruction reads or writes the count, and no client the object, after its release. */
  lemma {:induction false} NoAccessAfterRelease(arm: bool, n: nat, creator: nat, es: seq<Step>, i: nat, j: nat)
    requires creator < n && Run(Created(arm, n, creator), es)
    requires i < j < |es| && es[i].Client? && es[i].e.Release?
    ensures match es[j] {
              case Client(c) => !Aref.Touches(c)
              case Execute(instruction) => !Accesses(instruction)
            }
    decreases |es|
  {
    if j < |es| - 1 {
      NoAccessAfterRelease(arm, n, creator, Front(es), i, j);
    } else {
      var s := Created(arm, n, creator);
      var before := Reached(s, Front(es));
      CountsOnMachines(arm, n, creator, Front(es));
      ReleasedStays(s, Front(es), i);
      match es[j]
      case Client(c) => Aref.NothingTouches(Abs(before), c);
      case Execute(instruction) =>
        InnerRefines(before.cpu, instruction);
        if Accesses(instruction) {
          NobodyPending(Abs(before), ThreadOf(instruction));
        }
    }
  }

  lemma {:induction false} CountsReleases(s: State, es: seq<Step>)
    requires Run(s, es)
    ensures Reached(s, es).released == s.released + Releases(es)
  {
    if es != [] {
      CountsReleases(s, Front(es));
    }
  }

  function Releases(es: seq<Step>): nat {
    if es == [] then 0 else Releases(Front(es)) + (if Last(es).Client? && Last(es).e.Release? then 1 else 0)
  }

  /**
   On either machine release is called at most once, only when no reference is outstanding, and it has
   been called once none is and no thread is inside an operation.
   */
  lemma ReleasedOnMachines(arm: bool, n: nat, creator: nat, es: seq<Step>)
    requires creator < n && Run(Created(arm, n, creator), es)
    ensures var s := Abs(Reached(Created(arm, n, creator), es));
            && Aref.WellFormed(s)
            && Releases(es) == s.released <= 1
            && (Releases(es) == 1 ==> Aref.Outstanding(s) == 0)
            && (Aref.Outstanding(s) == 0 && Aref.Quiet(s) ==> Releases(es) == 1)
  {
    CountsOnMachines(arm, n, creator, es);
    CountsReleases(Created(arm, n, creator), es);
    var s := Abs(Reached(Created(arm, n, creator), es));
    if Aref.Quiet(s) {
      Aref.NobodyEnds(s);
    }
  }
}
