/**
 What is particular to one processor: the retry loops of x86 end when the other threads leave the cell
 alone, and a compare-and-swap on ARM answers whether it has stored.
 */
module MachineCalls {
  import opened AtomicSpec
  import opened Sequences
  import opened Machines

  // ---- Progress of the retry loops on x86.

  /** An exchange of thread `t` that finds a changed cell. */
  predicate Fails(m: AtomicX86.Machine, e: AtomicX86.Step, t: nat)
    requires AtomicX86.CanStep(m, e)
  {
    e == AtomicX86.Exchange(t) && m.cell != m.threads[t].prev
  }

  /** A step of another thread that changes the value of the cell. */
  predicate ChangesCell(m: AtomicX86.Machine, e: AtomicX86.Step, t: nat)
    requires AtomicX86.CanStep(m, e)
  {
    e.t != t && AtomicX86.DoStep(m, e).cell != m.cell
  }

  /** The exchanges of thread `t` that failed. */
  function Failures(c: Cpu, es: seq<Instruction>, t: nat): nat
    requires c.X86? && Run(c, es)
  {
    if es == [] then 0
    else
      StaysX86(c, Front(es));
      Failures(c, Front(es), t) + (if Fails(Reached(c, Front(es)).x, Last(es).x, t) then 1 else 0)
  }

  /** The changes made by other threads. */
  function ChangesByOthers(c: Cpu, es: seq<Instruction>, t: nat): nat
    requires c.X86? && Run(c, es)
  {
    if es == [] then 0
    else
      StaysX86(c, Front(es));
      ChangesByOthers(c, Front(es), t) + (if ChangesCell(Reached(c, Front(es)).x, Last(es).x, t) then 1 else 0)
  }

  lemma {:induction false} StaysX86(c: Cpu, es: seq<Instruction>)
    requires c.X86?
    ensures Reached(c, es).X86? && |Reached(c, es).x.threads| == |c.x.threads|
  {
    if es != [] {
      StaysX86(c, Front(es));
    }
  }

  /** The thread has read a value that is no longer in the cell. */
  predicate Outdated(m: AtomicX86.Machine, t: nat)
    requires t < |m.threads|
  {
    m.threads[t].Loaded? && m.threads[t].prev != m.cell
  }

  /** What one step adds to failures, changes by others, and an outdated read. */
  lemma OutdatedStep(m: AtomicX86.Machine, e: AtomicX86.Step, t: nat)
    requires AtomicX86.CanStep(m, e) && t < |m.threads|
    ensures |AtomicX86.DoStep(m, e).threads| == |m.threads|
    ensures (if Fails(m, e, t) then 1 else 0) + (if Outdated(AtomicX86.DoStep(m, e), t) then 1 else 0)
            <= (if Outdated(m, t) then 1 else 0) + (if ChangesCell(m, e, t) then 1 else 0)
  {
  }

  /** Every failed exchange is paid for by a change that another thread made, a different one each time. */
  lemma {:induction false} FailuresAreCharged(c: Cpu, es: seq<Instruction>, t: nat)
    requires c.X86? && Run(c, es) && t < |c.x.threads| && c.x.threads[t] == AtomicX86.Outside
    ensures Reached(c, es).X86? && t < |Reached(c, es).x.threads|
    ensures Failures(c, es, t) + (if Outdated(Reached(c, es).x, t) then 1 else 0) <= ChangesByOthers(c, es, t)
  {
    StaysX86(c, es);
    if es != [] {
      FailuresAreCharged(c, Front(es), t);
      OutdatedStep(Reached(c, Front(es)).x, Last(es).x, t);
    }
  }

  function StepsOf(es: seq<Instruction>, t: nat): nat {
    if es == [] then 0 else StepsOf(Front(es), t) + (if ThreadOf(Last(es)) == t then 1 else 0)
  }

  /** How many steps of its call a thread may have taken, failed rounds aside. */
  function Rank(pc: AtomicX86.Pc): nat {
    match pc
    case Outside => 0
    case Entered(_) => 1
    case Loaded(_, _) => 2
    case Leaving(_, _) => 3
  }

  /** What one step of the thread adds. */
  lemma RankStep(m: AtomicX86.Machine, e: AtomicX86.Step, t: nat)
    requires AtomicX86.CanStep(m, e) && t < |m.threads|
    ensures var m' := AtomicX86.DoStep(m, e);
            && |m'.threads| == |m.threads|
            && Rank(m.threads[t]) + (if e.t == t then 1 else 0)
               <= Rank(m'.threads[t]) + 4 * (if e.t == t && e.Leave? then 1 else 0) + 2 * (if Fails(m, e, t) then 1 else 0)
            && (e.t == t && e.Enter? ==> m.threads[t] == AtomicX86.Outside && m'.threads[t] != AtomicX86.Outside)
            && (e.t == t && e.Leave? ==> m.threads[t] != AtomicX86.Outside && m'.threads[t] == AtomicX86.Outside)
            && (!(e.t == t && (e.Enter? || e.Leave?)) ==>
                  (m'.threads[t] == AtomicX86.Outside <==> m.threads[t] == AtomicX86.Outside))
  {
  }

  /**
   A thread takes at most four steps a call and two more for every change by another thread: when
   the others change the cell finitely often, every call returns.
   */
  lemma {:induction false} CallsReturn(c: Cpu, es: seq<Instruction>, t: nat)
    requires c.X86? && Run(c, es) && t < |c.x.threads| && c.x.threads[t] == AtomicX86.Outside
    ensures Reached(c, es).X86? && t < |Reached(c, es).x.threads|
    ensures StepsOf(es, t) <= 4 * |Left(es, t)| + 2 * Failures(c, es, t) + Rank(Reached(c, es).x.threads[t])
    ensures |Begun(es, t)| == |Left(es, t)| + (if Reached(c, es).x.threads[t] == AtomicX86.Outside then 0 else 1)
    ensures StepsOf(es, t) <= 4 * |Begun(es, t)| + 2 * ChangesByOthers(c, es, t)
  {
    FailuresAreCharged(c, es, t);
    StaysX86(c, es);
    if es != [] {
      CallsReturn(c, Front(es), t);
      RankStep(Reached(c, Front(es)).x, Last(es).x, t);
    }
  }

  // ---- A CAS on ARM returns 0 exactly when it stored.

  predicate Stores(i: Instruction, t: nat) {
    i == OnArm(AtomicArm.Strex(t, true))
  }

  predicate Enters(i: Instruction, t: nat) {
    i.OnArm? && i.a.Enter? && i.a.t == t
  }

  /** The stores that thread `t` has made since it entered its current or last call. */
  function StoresOfCall(es: seq<Instruction>, t: nat): nat {
    if es == [] || Enters(Last(es), t) then 0
    else StoresOfCall(Front(es), t) + (if Stores(Last(es), t) then 1 else 0)
  }

  /** What a CAS call has stored by the time it is at `pc`. */
  predicate StoredSoFar(pc: AtomicArm.Pc, stores: nat) {
    pc != AtomicArm.Outside && pc.op.Cas? ==>
      && stores == (if pc.Leaving? && pc.result == 0 then 1 else 0)
      && (pc.Leaving? ==> pc.result == 0 || pc.result == 1)
  }

  lemma StoresStep(m: AtomicArm.Machine, e: AtomicArm.Step, t: nat, stores: nat, stores': nat)
    requires AtomicArm.Reservations(m) && AtomicArm.CanStep(m, e) && t < |m.threads| && StoredSoFar(m.threads[t], stores)
    requires stores' == if e.Enter? && e.t == t then 0 else stores + (if e == AtomicArm.Strex(t, true) then 1 else 0)
    ensures |AtomicArm.DoStep(m, e).threads| == |m.threads| && StoredSoFar(AtomicArm.DoStep(m, e).threads[t], stores')
  {
  }

  lemma {:induction false} CasStores(c: Cpu, es: seq<Instruction>, t: nat)
    requires c.Arm? && Sound(c) && Run(c, es) && t < |c.a.threads| && c.a.threads[t] == AtomicArm.Outside
    ensures Reached(c, es).Arm? && |Reached(c, es).a.threads| == |c.a.threads|
    ensures StoredSoFar(Reached(c, es).a.threads[t], StoresOfCall(es, t))
  {
    if es != [] {
      CasStores(c, Front(es), t);
      RunRefines(c, Front(es));
      StoresStep(Reached(c, Front(es)).a, Last(es).a, t, StoresOfCall(Front(es), t), StoresOfCall(es, t));
    }
  }

  /** Each CAS call that returns 0 has stored once since it was entered, and each that returns 1 never. */
  lemma CasZeroIffStored(cell: Word, n: nat, es: seq<Instruction>, t: nat, op: Op, result: Word)
    requires Run(Boot(true, cell, n), es) && es != [] && t < n
    requires Last(es) == OnArm(AtomicArm.Leave(t, op, result)) && op.Cas?
    ensures StoresOfCall(Front(es), t) == (if result == 0 then 1 else 0)
    ensures result == 0 || result == 1
  {
    BootIs(true, cell, n);
    CasStores(Boot(true, cell, n), Front(es), t);
  }
}
