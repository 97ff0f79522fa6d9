/**
 The atomic operations on ARM: every one is a loop of ldrex, which reads the cell and reserves it,
 and strex, which stores only while the reservation lasts. Any store to the cell ends all
 reservations, and a reservation may also end, or a strex fail, for no visible reason.
 */
module AtomicArm {
  import opened AtomicSpec
  import Bits

  datatype Pc = Outside | Entered(op: Op) | Linked(op: Op, prev: Word) | Leaving(op: Op, result: Word)

  datatype Machine = Machine(cell: Word, threads: seq<Pc>, reserved: seq<bool>)

  datatype Step =
    | Enter(t: nat, op: Op)
    | Ldrex(t: nat)
    | Strex(t: nat, stored: bool)
    | PlainStore(t: nat)
    | Disturb(t: nat)
    | Leave(t: nat, op: Op, result: Word)

  predicate CanStep(m: Machine, e: Step) {
    && e.t < |m.threads| == |m.reserved|
    && match e
       case Enter(t, op) => m.threads[t] == Outside
       case Ldrex(t) => m.threads[t].Entered? && !m.threads[t].op.Store?
       case Strex(t, stored) => m.threads[t].Linked? && !m.threads[t].op.Store? && (stored ==> m.reserved[t])
       case PlainStore(t) => m.threads[t].Entered? && m.threads[t].op.Store?
       case Disturb(t) => true
       case Leave(t, op, r) => m.threads[t] == Leaving(op, r)
  }

  /** The value that strex stores after ldrex has read `prev`; a CAS comes here only with the value it expects. */
  function NewValue(op: Op, prev: Word): Word
    requires !op.Store?
  {
    match op
    case Add(increment) => (prev + increment) % 0x1_0000_0000
    case And(value) => AndBits(prev, value)
    case Or(value) => OrBits(prev, value)
    case Cas(_, new_) => new_
  }

  /** What the call returns after reading `prev`. */
  function Result(op: Op, prev: Word): Word
    requires !op.Store?
  {
    match op
    case Cas(old_, _) => if prev != old_ then 1 else 0
    case _ => prev
  }

  function NoneReserved(n: nat): seq<bool> {
    seq(n, i => false)
  }

  function DoStep(m: Machine, e: Step): Machine
    requires CanStep(m, e)
  {
    var pc := m.threads[e.t];
    match e
    case Enter(t, op) => m.(threads := m.threads[t := Entered(op)])
    case Ldrex(t) =>
      var next := if pc.op.Cas? && m.cell != pc.op.expected then Leaving(pc.op, Result(pc.op, m.cell)) else Linked(pc.op, m.cell);
      m.(threads := m.threads[t := next], reserved := m.reserved[t := true])
    case Strex(t, stored) =>
      if stored then
        Machine(NewValue(pc.op, pc.prev), m.threads[t := Leaving(pc.op, Result(pc.op, pc.prev))], NoneReserved(|m.threads|))
      else
        m.(threads := m.threads[t := Entered(pc.op)], reserved := m.reserved[t := false])
    case PlainStore(t) => Machine(pc.op.value, m.threads[t := Leaving(pc.op, 0)], NoneReserved(|m.threads|))
    case Disturb(t) => m.(reserved := m.reserved[t := false])
    case Leave(t, op, r) => m.(threads := m.threads[t := Outside])
  }

  function Boot(cell: Word, n: nat): Machine {
    Machine(cell, seq(n, i => Outside), NoneReserved(n))
  }

  /** While a thread's reservation lasts, the cell still holds what its ldrex read. */
  predicate Reservations(m: Machine) {
    && |m.threads| == |m.reserved|
    && forall t | 0 <= t < |m.threads| ::
         m.threads[t].Linked? ==>
           && !m.threads[t].op.Store?
           && (m.threads[t].op.Cas? ==> m.threads[t].prev == m.threads[t].op.expected)
           && (m.reserved[t] ==> m.threads[t].prev == m.cell)
  }

  lemma ReservationsKept(m: Machine, e: Step)
    requires Reservations(m) && CanStep(m, e)
    ensures Reservations(DoStep(m, e)) && |DoStep(m, e).threads| == |m.threads|
  {
  }

  // ---- The machine refines the atomic system.

  function AbsPc(pc: Pc): Local {
    match pc
    case Outside => Idle
    case Entered(op) => Pending(op)
    case Linked(op, _) => Pending(op)
    case Leaving(op, r) => Done(op, r)
  }

  function Abs(m: Machine): (s: System)
    ensures |s.threads| == |m.threads|
  {
    System(m.cell, seq(|m.threads|, i requires 0 <= i < |m.threads| => AbsPc(m.threads[i])))
  }

  /** What callers see of a step: a call takes effect at its successful strex, or at the ldrex that ends a CAS. */
  function Visible(m: Machine, e: Step): seq<Event>
    requires CanStep(m, e)
  {
    match e
    case Enter(t, op) => [Call(t, op)]
    case Ldrex(t) => if m.threads[t].op.Cas? && m.cell != m.threads[t].op.expected then [Take(t)] else []
    case Strex(t, stored) => if stored then [Take(t)] else []
    case PlainStore(t) => [Take(t)]
    case Disturb(_) => []
    case Leave(t, op, r) => [Return(t, op, r)]
  }

  lemma AbsUpdate(m: Machine, t: nat, pc: Pc, cell: Word, reserved: seq<bool>)
    requires t < |m.threads|
    ensures Abs(Machine(cell, m.threads[t := pc], reserved)) == System(cell, Abs(m).threads[t := AbsPc(pc)])
  {
  }

  lemma StoredIsEffect(op: Op, cell: Word)
    requires !op.Store? && (op.Cas? ==> cell == op.expected)
    ensures NewValue(op, cell) == Effect(op, cell) && Result(op, cell) == Answer(op, cell)
  {
  }

  /** Every step is one atomic event, or none. */
  lemma StepRefines(m: Machine, e: Step)
    requires Reservations(m) && CanStep(m, e)
    ensures Visible(m, e) == [] ==> Abs(DoStep(m, e)) == Abs(m)
    ensures Visible(m, e) != [] ==>
              && Visible(m, e) == [Visible(m, e)[0]]
              && Enabled(Abs(m), Visible(m, e)[0])
              && Next(Abs(m), Visible(m, e)[0]) == Abs(DoStep(m, e))
  {
    var pc, m' := m.threads[e.t], DoStep(m, e);
    AbsUpdate(m, e.t, m'.threads[e.t], m'.cell, m'.reserved);
    assert m'.threads == m.threads[e.t := m'.threads[e.t]];
    assert Abs(m).threads[e.t := AbsPc(pc)] == Abs(m).threads;
    if e.Strex? && e.stored {
      StoredIsEffect(pc.op, m.cell);
    }
  }

  /** The steps in which a call takes effect, with what it will return. */
  function EffectOf(m: Machine, e: Step): seq<Entry>
    requires CanStep(m, e)
  {
    var pc := m.threads[e.t];
    match e
    case Ldrex(t) => if pc.op.Cas? && m.cell != pc.op.expected then [Entry(t, pc.op, 1)] else []
    case Strex(t, stored) => if stored then [Entry(t, pc.op, Result(pc.op, pc.prev))] else []
    case PlainStore(t) => [Entry(t, pc.op, 0)]
    case _ => []
  }

  lemma EffectIsEntry(m: Machine, e: Step)
    requires Reservations(m) && CanStep(m, e) && Visible(m, e) != [] && Enabled(Abs(m), Visible(m, e)[0])
    ensures EffectOf(m, e) == EntryOf(Abs(m), Visible(m, e)[0])
  {
    if e.Strex? {
      StoredIsEffect(m.threads[e.t].op, m.cell);
    }
  }

  // ---- The loop itself, with everything that may end its reservation supplied from outside.

  /** What happens between ldrex and strex: nothing, a loss of the reservation, or a store of another thread. */
  datatype Meanwhile = Nothing | Lost | Stored(value: Word)

  /** What the cell holds when round `k` reads it. */
  function ReadInRound(start: Word, events: seq<Meanwhile>, k: nat): Word
    requires k <= |events|
  {
    if k == 0 then start
    else if events[k - 1].Stored? then events[k - 1].value
    else ReadInRound(start, events, k - 1)
  }

  /** A compare-and-swap that reads something else gives up without a store. */
  predicate GivesUp(op: Op, prev: Word) {
    op.Cas? && prev != op.expected
  }

  /**
   Any of the operations. The loop ends in the first round that nothing disturbs, or in which a
   compare-and-swap gives up; that round's value is the one that the operation found.
   */
  method RetryLoop(cell: Cell, op: Op, events: seq<Meanwhile>) returns (result: Word, ghost round: nat, ghost found: Word)
    requires !op.Store?
    modifies cell
    ensures round <= |events| && found == ReadInRound(old(cell.value), events, round)
    ensures result == Answer(op, found)
    ensures op.And? ==> forall i: nat :: Bits.Bit(cell.value, i) <==> Bits.Bit(found, i) && Bits.Bit(op.mask, i)
    ensures op.Or? ==> forall i: nat :: Bits.Bit(cell.value, i) <==> Bits.Bit(found, i) || Bits.Bit(op.bits, i)
    ensures op.Add? ==> cell.value == (found + op.increment) % 0x1_0000_0000
    ensures op.Cas? && found == op.expected ==> cell.value == op.desired && result == 0
    ensures op.Cas? && found != op.expected ==> result == 1
    ensures !op.Cas? ==> result == found
    ensures !GivesUp(op, found) ==> cell.value == Effect(op, found) && (round < |events| ==> events[round] == Nothing)
    ensures GivesUp(op, found) ==> cell.value == if round < |events| && events[round].Stored? then events[round].value else found
    ensures forall k | 0 <= k < round :: events[k] != Nothing && !GivesUp(op, ReadInRound(old(cell.value), events, k))
  {
    var i := 0;
    while true
      invariant i <= |events| && cell.value == ReadInRound(old(cell.value), events, i)
      invariant forall k | 0 <= k < i :: events[k] != Nothing && !GivesUp(op, ReadInRound(old(cell.value), events, k))
      decreases |events| - i
    {
      var prev := cell.value;
      var reserved := true;
      if i < |events| && events[i] != Nothing {
        reserved := false;
        if events[i].Stored? {
          cell.value := events[i].value;
        }
      }
      result, round, found := Result(op, prev), i, prev;
      if GivesUp(op, prev) {
        return;
      }
      StoredIsEffect(op, prev);
      EffectIs(op, prev);
      if reserved {
        cell.value := NewValue(op, prev);
        return;
      }
      i := i + 1;
    }
  }
}
