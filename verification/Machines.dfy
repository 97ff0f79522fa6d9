/**
 Both processors, and their runs: every run of either, whatever the interleaving, is a run of the
 atomic system as far as its callers can see.
 */
module Machines {
  import opened AtomicSpec
  import opened Sequences
  import AtomicX86
  import AtomicArm

  datatype Cpu = X86(x: AtomicX86.Machine) | Arm(a: AtomicArm.Machine)

  datatype Instruction = OnX86(x: AtomicX86.Step) | OnArm(a: AtomicArm.Step)

  predicate Sound(c: Cpu) {
    c.Arm? ==> AtomicArm.Reservations(c.a)
  }

  predicate CanExecute(c: Cpu, i: Instruction) {
    match c
    case X86(x) => i.OnX86? && AtomicX86.CanStep(x, i.x)
    case Arm(a) => i.OnArm? && AtomicArm.CanStep(a, i.a)
  }

  function Executed(c: Cpu, i: Instruction): Cpu
    requires CanExecute(c, i)
  {
    match c
    case X86(x) => X86(AtomicX86.DoStep(x, i.x))
    case Arm(a) => Arm(AtomicArm.DoStep(a, i.a))
  }

  /** The cell and the calls as the atomic system has them. */
  function Calls(c: Cpu): System {
    match c
    case X86(x) => AtomicX86.Abs(x)
    case Arm(a) => AtomicArm.Abs(a)
  }

  function Visible(c: Cpu, i: Instruction): seq<Event>
    requires CanExecute(c, i)
  {
    match c
    case X86(x) => AtomicX86.Visible(x, i.x)
    case Arm(a) => AtomicArm.Visible(a, i.a)
  }

  function Entering(c: Cpu, t: nat, op: Op): Instruction {
    if c.X86? then OnX86(AtomicX86.Enter(t, op)) else OnArm(AtomicArm.Enter(t, op))
  }

  function Leaving(c: Cpu, t: nat, op: Op, answer: Word): Instruction {
    if c.X86? then OnX86(AtomicX86.Leave(t, op, answer)) else OnArm(AtomicArm.Leave(t, op, answer))
  }

  /** An instruction inside an operation, and not its call or return. */
  predicate Inner(i: Instruction) {
    if i.OnX86? then !i.x.Enter? && !i.x.Leave? else !i.a.Enter? && !i.a.Leave?
  }

  /** An instruction that reads or writes the count. */
  predicate Accesses(i: Instruction) {
    Inner(i) && (i.OnArm? ==> !i.a.Disturb?)
  }

  /** Every instruction of either machine is one atomic event, or none. */
  lemma Refines(c: Cpu, i: Instruction)
    requires Sound(c) && CanExecute(c, i)
    ensures Sound(Executed(c, i))
    ensures Visible(c, i) == [] ==> Calls(Executed(c, i)) == Calls(c)
    ensures Visible(c, i) != [] ==>
              && Visible(c, i) == [Visible(c, i)[0]]
              && Enabled(Calls(c), Visible(c, i)[0])
              && Next(Calls(c), Visible(c, i)[0]) == Calls(Executed(c, i))
  {
    match c
    case X86(x) => AtomicX86.StepRefines(x, i.x);
    case Arm(a) =>
      AtomicArm.ReservationsKept(a, i.a);
      AtomicArm.StepRefines(a, i.a);
  }

  lemma EnterRefines(c: Cpu, t: nat, op: Op)
    requires Sound(c) && Enabled(Calls(c), Call(t, op))
    ensures CanExecute(c, Entering(c, t, op)) && Sound(Executed(c, Entering(c, t, op)))
    ensures Calls(Executed(c, Entering(c, t, op))) == Next(Calls(c), Call(t, op))
  {
    assert CanExecute(c, Entering(c, t, op));
    Refines(c, Entering(c, t, op));
  }

  lemma LeaveRefines(c: Cpu, t: nat, op: Op, answer: Word)
    requires Sound(c) && Enabled(Calls(c), Return(t, op, answer))
    ensures CanExecute(c, Leaving(c, t, op, answer)) && Sound(Executed(c, Leaving(c, t, op, answer)))
    ensures Calls(Executed(c, Leaving(c, t, op, answer))) == Next(Calls(c), Return(t, op, answer))
  {
    assert CanExecute(c, Leaving(c, t, op, answer));
    Refines(c, Leaving(c, t, op, answer));
  }

  function ThreadOf(i: Instruction): nat {
    if i.OnX86? then i.x.t else i.a.t
  }

  /** An inner instruction is invisible or the one at which the operation takes effect; if it accesses the count, its call is under way. */
  lemma InnerRefines(c: Cpu, i: Instruction)
    requires Sound(c) && CanExecute(c, i) && Inner(i)
    ensures Visible(c, i) == [] || Visible(c, i) == [Take(ThreadOf(i))]
    ensures Accesses(i) ==> ThreadOf(i) < |Calls(c).threads| && Calls(c).threads[ThreadOf(i)].Pending?
  {
  }

  // ---- Runs.

  function Reached(c: Cpu, es: seq<Instruction>): Cpu {
    if es == [] then c
    else
      var before := Reached(c, Front(es));
      if CanExecute(before, Last(es)) then Executed(before, Last(es)) else before
  }

  predicate Run(c: Cpu, es: seq<Instruction>) {
    es == [] || (Run(c, Front(es)) && CanExecute(Reached(c, Front(es)), Last(es)))
  }

  /** A processor on which `n` threads have not yet called. */
  function Boot(arm: bool, cell: Word, n: nat): Cpu {
    if arm then Arm(AtomicArm.Boot(cell, n)) else X86(AtomicX86.Boot(cell, n))
  }

  lemma BootIs(arm: bool, cell: Word, n: nat)
    ensures Sound(Boot(arm, cell, n)) && Calls(Boot(arm, cell, n)) == Start(cell, n)
  {
  }

  function VisibleRun(c: Cpu, es: seq<Instruction>): seq<Event>
    requires Run(c, es)
  {
    if es == [] then [] else VisibleRun(c, Front(es)) + Visible(Reached(c, Front(es)), Last(es))
  }

  /** Every run of a processor is a run of the atomic system, as far as callers can see. */
  lemma {:induction false} RunRefines(c: Cpu, es: seq<Instruction>)
    requires Sound(c) && Run(c, es)
    ensures Sound(Reached(c, es))
    ensures Valid(Calls(c), VisibleRun(c, es))
    ensures After(Calls(c), VisibleRun(c, es)) == Calls(Reached(c, es))
  {
    if es != [] {
      RunRefines(c, Front(es));
      var before, seen := Reached(c, Front(es)), VisibleRun(c, Front(es));
      Refines(before, Last(es));
      if Visible(before, Last(es)) == [] {
        assert seen + [] == seen;
      } else {
        Append(seen, Visible(before, Last(es))[0]);
      }
    }
  }

  /** The effect of an instruction, in the machine's own terms. */
  function EffectOf(c: Cpu, i: Instruction): seq<Entry>
    requires CanExecute(c, i)
  {
    match c
    case X86(x) => AtomicX86.EffectOf(x, i.x)
    case Arm(a) => AtomicArm.EffectOf(a, i.a)
  }

  function Effects(c: Cpu, es: seq<Instruction>): seq<Entry>
    requires Run(c, es)
  {
    if es == [] then [] else Effects(c, Front(es)) + EffectOf(Reached(c, Front(es)), Last(es))
  }

  /** The call that an instruction begins, and the answer with which one returns. */
  function BegunBy(i: Instruction): seq<Op> {
    match i
    case OnX86(x) => if x.Enter? then [x.op] else []
    case OnArm(a) => if a.Enter? then [a.op] else []
  }

  function LeftBy(i: Instruction): seq<Entry> {
    match i
    case OnX86(x) => if x.Leave? then [Entry(x.t, x.op, x.result)] else []
    case OnArm(a) => if a.Leave? then [Entry(a.t, a.op, a.result)] else []
  }

  /** What thread `t` has returned from, and what it has called. */
  function Left(es: seq<Instruction>, t: nat): seq<Entry> {
    if es == [] then [] else Left(Front(es), t) + (if ThreadOf(Last(es)) == t then LeftBy(Last(es)) else [])
  }

  function Begun(es: seq<Instruction>, t: nat): seq<Op> {
    if es == [] then [] else Begun(Front(es), t) + (if ThreadOf(Last(es)) == t then BegunBy(Last(es)) else [])
  }

  lemma EffectIsEntry(c: Cpu, i: Instruction)
    requires Sound(c) && CanExecute(c, i)
    requires Visible(c, i) != [] ==> Enabled(Calls(c), Visible(c, i)[0])
    ensures EffectOf(c, i) == if Visible(c, i) == [] then [] else EntryOf(Calls(c), Visible(c, i)[0])
  {
    if Visible(c, i) != [] {
      match c
      case X86(x) => AtomicX86.EffectIsEntry(x, i.x);
      case Arm(a) => AtomicArm.EffectIsEntry(a, i.a);
    }
  }

  /** The machine's effects are those of the atomic run. */
  lemma {:induction false} SameHistory(c: Cpu, es: seq<Instruction>)
    requires Sound(c) && Run(c, es) && Valid(Calls(c), VisibleRun(c, es))
    ensures Effects(c, es) == History(Calls(c), VisibleRun(c, es))
  {
    if es != [] {
      var before, seen, i := Reached(c, Front(es)), VisibleRun(c, Front(es)), Last(es);
      RunRefines(c, Front(es));
      SameHistory(c, Front(es));
      Refines(before, i);
      EffectIsEntry(before, i);
      var v := Visible(before, i);
      if v == [] {
        assert seen + [] == seen;
      } else {
        Append(seen, v[0]);
        assert seen + v == seen + [v[0]];
      }
    }
  }

  /** What an instruction shows of calls and returns. */
  predicate Shows(v: seq<Event>, thread: nat, begun: seq<Op>, left: seq<Entry>) {
    if v == [] then begun == [] && left == []
    else
      && |v| == 1 && v[0].t == thread
      && begun == (if v[0].Call? then [v[0].op] else [])
      && left == (if v[0].Return? then [Entry(v[0].t, v[0].op, v[0].answer)] else [])
  }

  lemma VisibleCalls(c: Cpu, i: Instruction)
    requires CanExecute(c, i)
    ensures Shows(Visible(c, i), ThreadOf(i), BegunBy(i), LeftBy(i))
  {
  }

  lemma CallsAppend(seen: seq<Event>, v: seq<Event>, thread: nat, begun: seq<Op>, left: seq<Entry>, t: nat)
    requires Shows(v, thread, begun, left)
    ensures Returned(seen + v, t) == Returned(seen, t) + (if thread == t then left else [])
    ensures Called(seen + v, t) == Called(seen, t) + (if thread == t then begun else [])
  {
    if v == [] {
      assert seen + v == seen;
    } else {
      Append(seen, v[0]);
      assert seen + v == seen + [v[0]];
    }
  }

  /** Its calls and returns are those of the atomic run. */
  lemma {:induction false} SameCalls(c: Cpu, es: seq<Instruction>, t: nat)
    requires Run(c, es)
    ensures Left(es, t) == Returned(VisibleRun(c, es), t)
    ensures Begun(es, t) == Called(VisibleRun(c, es), t)
  {
    if es != [] {
      var before, i := Reached(c, Front(es)), Last(es);
      SameCalls(c, Front(es), t);
      VisibleCalls(before, i);
      CallsAppend(VisibleRun(c, Front(es)), Visible(before, i), ThreadOf(i), BegunBy(i), LeftBy(i), t);
    }
  }

  lemma CellAndHistory(arm: bool, cell: Word, n: nat, es: seq<Instruction>)
    requires Run(Boot(arm, cell, n), es)
    ensures Calls(Reached(Boot(arm, cell, n), es)).cell == Replay(cell, Effects(Boot(arm, cell, n), es))
    ensures Legal(cell, Effects(Boot(arm, cell, n), es))
  {
    var c := Boot(arm, cell, n);
    BootIs(arm, cell, n);
    RunRefines(c, es);
    SameHistory(c, es);
    HistoryExplainsCell(Start(cell, n), VisibleRun(c, es));
  }

  /**
   On either processor, for any number of threads, any interleaving and any number of failing strex
   instructions: the cell is the result of the effects one after the other, each answering what the
   cell held just before it, and every completed call had exactly one effect, whose answer it returned,
   whatever happened to the cell in between.
   */
  lemma Linearizable(arm: bool, cell: Word, n: nat, es: seq<Instruction>, t: nat)
    requires Run(Boot(arm, cell, n), es) && t < n
    ensures Calls(Reached(Boot(arm, cell, n), es)).cell == Replay(cell, Effects(Boot(arm, cell, n), es))
    ensures Legal(cell, Effects(Boot(arm, cell, n), es))
    ensures |Calls(Reached(Boot(arm, cell, n), es)).threads| == n
    ensures Accounted(Calls(Reached(Boot(arm, cell, n), es)).threads[t], Effects(Boot(arm, cell, n), es), Left(es, t), Begun(es, t), t)
  {
    var c := Boot(arm, cell, n);
    CellAndHistory(arm, cell, n, es);
    BootIs(arm, cell, n);
    RunRefines(c, es);
    SameHistory(c, es);
    SameCalls(c, es, t);
    EffectsAreCalls(cell, n, VisibleRun(c, es), t);
  }

  /** Every call so far is an addition. */
  predicate AllAdd(s: System) {
    forall t | 0 <= t < |s.threads| :: s.threads[t] != Idle ==> s.threads[t].op.Add?
  }

  predicate BeginsAdd(i: Instruction) {
    forall op | op in BegunBy(i) :: op.Add?
  }

  lemma StaysAdd(s: System, e: Event)
    requires AllAdd(s) && Enabled(s, e) && (e.Call? ==> e.op.Add?)
    ensures AllAdd(Next(s, e)) && forall x | x in EntryOf(s, e) :: x.op.Add?
  {
  }

  lemma {:induction false} OnlyAdditions(c: Cpu, es: seq<Instruction>)
    requires Sound(c) && Run(c, es) && AllAdd(Calls(c))
    requires forall i | 0 <= i < |es| :: BeginsAdd(es[i])
    ensures AllAdd(Calls(Reached(c, es)))
    ensures forall i | 0 <= i < |Effects(c, es)| :: Effects(c, es)[i].op.Add?
  {
    if es != [] {
      OnlyAdditions(c, Front(es));
      var before, i := Reached(c, Front(es)), Last(es);
      RunRefines(c, Front(es));
      Refines(before, i);
      EffectIsEntry(before, i);
      VisibleCalls(before, i);
      assert BeginsAdd(es[|es| - 1]);
      if Visible(before, i) != [] {
        StaysAdd(Calls(before), Visible(before, i)[0]);
      }
    }
  }

  /**
   When all calls are additions, the cell always holds the initial value plus all increments that
   have taken effect, modulo 2^32, and the answers are the running sums in the order of the effects.
   */
  lemma AdditionsAddUp(arm: bool, cell: Word, n: nat, es: seq<Instruction>)
    requires Run(Boot(arm, cell, n), es)
    requires forall i | 0 <= i < |es| :: BeginsAdd(es[i])
    ensures AddedUp(cell, Calls(Reached(Boot(arm, cell, n), es)).cell, Effects(Boot(arm, cell, n), es))
    ensures RunningSums(cell, Effects(Boot(arm, cell, n), es))
  {
    CellAndHistory(arm, cell, n, es);
    BootIs(arm, cell, n);
    OnlyAdditions(Boot(arm, cell, n), es);
    AddsLeave(cell, Calls(Reached(Boot(arm, cell, n), es)).cell, Effects(Boot(arm, cell, n), es));
    AddsAnswerRunningSums(cell, Effects(Boot(arm, cell, n), es));
  }
}
