/**
 The atomic operations on x86, one machine step at a time: android_atomic_add and _cas are one
 locked instruction, android_atomic_and and _or read the cell, try to replace what they read by
 a locked compare-and-exchange, and start again when another thread was faster.
 */
module AtomicX86 {
  import opened AtomicSpec
  import Bits

  /** Where a thread is: outside, at the first instruction of a call, between read and exchange, or before returning. */
  datatype Pc = Outside | Entered(op: Op) | Loaded(op: Op, prev: Word) | Leaving(op: Op, result: Word)

  datatype Machine = Machine(cell: Word, threads: seq<Pc>)

  datatype Step = Enter(t: nat, op: Op) | Load(t: nat) | Exchange(t: nat) | Locked(t: nat) | Leave(t: nat, op: Op, result: Word)

  predicate Loops(op: Op) {
    op.And? || op.Or?
  }

  predicate CanStep(m: Machine, e: Step) {
    && e.t < |m.threads|
    && match e
       case Enter(t, op) => m.threads[t] == Outside
       case Load(t) => m.threads[t].Entered? && Loops(m.threads[t].op)
       case Exchange(t) => m.threads[t].Loaded? && Loops(m.threads[t].op)
       case Locked(t) => m.threads[t].Entered? && !Loops(m.threads[t].op)
       case Leave(t, op, r) => m.threads[t] == Leaving(op, r)
  }

  /** The value that a retry loop wants to store after reading `prev`. */
  function Wanted(op: Op, prev: Word): Word
    requires Loops(op)
  {
    match op
    case And(value) => AndBits(prev, value)
    case Or(value) => OrBits(prev, value)
  }

  /** The cell after one locked instruction, and the value it leaves in the result register. */
  function LockedCell(op: Op, cell: Word): Word
    requires !Loops(op)
  {
    match op
    case Add(increment) => (cell + increment) % 0x1_0000_0000
    case Cas(old_, new_) => if cell == old_ then new_ else cell
    case Store(value) => value
  }

  function LockedResult(op: Op, cell: Word): Word
    requires !Loops(op)
  {
    match op
    case Add(_) => cell
    case Cas(old_, _) => if cell != old_ then 1 else 0
    case Store(_) => 0
  }

  function DoStep(m: Machine, e: Step): Machine
    requires CanStep(m, e)
  {
    var pc := m.threads[e.t];
    match e
    case Enter(t, op) => m.(threads := m.threads[t := Entered(op)])
    case Load(t) => m.(threads := m.threads[t := Loaded(pc.op, m.cell)])
    case Exchange(t) =>
      if m.cell == pc.prev then
        Machine(Wanted(pc.op, pc.prev), m.threads[t := Leaving(pc.op, pc.prev)])
      else
        m.(threads := m.threads[t := Entered(pc.op)])
    case Locked(t) =>
      Machine(LockedCell(pc.op, m.cell), m.threads[t := Leaving(pc.op, LockedResult(pc.op, m.cell))])
    case Leave(t, op, r) => m.(threads := m.threads[t := Outside])
  }

  function Boot(cell: Word, n: nat): Machine {
    Machine(cell, seq(n, i => Outside))
  }

  // ---- The machine refines the atomic system.

  function AbsPc(pc: Pc): Local {
    match pc
    case Outside => Idle
    case Entered(op) => Pending(op)
    case Loaded(op, _) => Pending(op)
    case Leaving(op, r) => Done(op, r)
  }

  function Abs(m: Machine): (s: System)
    ensures |s.threads| == |m.threads|
  {
    System(m.cell, seq(|m.threads|, i requires 0 <= i < |m.threads| => AbsPc(m.threads[i])))
  }

  /** What callers see of a step: reads and failed exchanges are invisible. */
  function Visible(m: Machine, e: Step): seq<Event>
    requires CanStep(m, e)
  {
    match e
    case Enter(t, op) => [Call(t, op)]
    case Load(_) => []
    case Exchange(t) => if m.cell == m.threads[t].prev then [Take(t)] else []
    case Locked(t) => [Take(t)]
    case Leave(t, op, r) => [Return(t, op, r)]
  }

  lemma AbsUpdate(m: Machine, t: nat, pc: Pc, cell: Word)
    requires t < |m.threads|
    ensures Abs(Machine(cell, m.threads[t := pc])) == System(cell, Abs(m).threads[t := AbsPc(pc)])
  {
  }

  /** A successful exchange does to the cell what the atomic operation does. */
  lemma WantedIsEffect(op: Op, cell: Word)
    requires Loops(op)
    ensures Wanted(op, cell) == Effect(op, cell) && Answer(op, cell) == cell
  {
  }

  lemma LockedIsEffect(op: Op, cell: Word)
    requires !Loops(op)
    ensures LockedCell(op, cell) == Effect(op, cell) && LockedResult(op, cell) == Answer(op, cell)
  {
  }

  /** Every step is one atomic event, or none. */
  lemma StepRefines(m: Machine, e: Step)
    requires CanStep(m, e)
    ensures Visible(m, e) == [] ==> Abs(DoStep(m, e)) == Abs(m)
    ensures Visible(m, e) != [] ==>
              && Visible(m, e) == [Visible(m, e)[0]]
              && Enabled(Abs(m), Visible(m, e)[0])
              && Next(Abs(m), Visible(m, e)[0]) == Abs(DoStep(m, e))
  {
    var pc := m.threads[e.t];
    match e {
      case Enter(t, op) =>
        AbsUpdate(m, t, Entered(op), m.cell);
      case Load(t) =>
        AbsUpdate(m, t, Loaded(pc.op, m.cell), m.cell);
        assert Abs(m).threads[t := Pending(pc.op)] == Abs(m).threads;
      case Exchange(t) =>
        WantedIsEffect(pc.op, pc.prev);
        AbsUpdate(m, t, Leaving(pc.op, pc.prev), Wanted(pc.op, pc.prev));
        AbsUpdate(m, t, Entered(pc.op), m.cell);
        assert Abs(m).threads[t := Pending(pc.op)] == Abs(m).threads;
      case Locked(t) =>
        LockedIsEffect(pc.op, m.cell);
        AbsUpdate(m, t, Leaving(pc.op, LockedResult(pc.op, m.cell)), LockedCell(pc.op, m.cell));
      case Leave(t, op, r) =>
        AbsUpdate(m, t, Outside, m.cell);
    }
  }

  /** The steps that change the cell for a call: its successful exchange, or its one locked instruction. */
  function EffectOf(m: Machine, e: Step): seq<Entry>
    requires CanStep(m, e)
  {
    var pc := m.threads[e.t];
    match e
    case Exchange(t) => if m.cell == pc.prev then [Entry(t, pc.op, pc.prev)] else []
    case Locked(t) => [Entry(t, pc.op, LockedResult(pc.op, m.cell))]
    case _ => []
  }

  lemma EffectIsEntry(m: Machine, e: Step)
    requires CanStep(m, e) && Visible(m, e) != [] && Enabled(Abs(m), Visible(m, e)[0])
    ensures EffectOf(m, e) == EntryOf(Abs(m), Visible(m, e)[0])
  {
    match e {
      case Exchange(t) => WantedIsEffect(m.threads[t].op, m.cell);
      case Locked(t) => LockedIsEffect(m.threads[t].op, m.cell);
      case _ =>
    }
  }

  // ---- The loop itself, with the stores of other threads supplied from outside.

  /** What the cell holds when round `k` reads it, if another thread stores `others[k]` in round `k`. */
  function ReadInRound(start: Word, others: seq<Word>, k: nat): Word
    requires k <= |others|
  {
    if k == 0 then start else others[k - 1]
  }

  /** android_atomic_cas. */
  method CompareExchange(cell: Cell, oldValue: Word, newValue: Word) returns (status: Word)
    modifies cell
    ensures status == if old(cell.value) == oldValue then 0 else 1
    ensures cell.value == if old(cell.value) == oldValue then newValue else old(cell.value)
  {
    var prev := cell.value;
    if prev == oldValue {
      cell.value := newValue;
    }
    status := if prev != oldValue then 1 else 0;
  }

  /**
   android_atomic_and and _or. Between the read and the exchange of round `k` another thread stores
   `others[k]`. The loop ends in the first round whose exchange finds what the round has read, be it
   that the other thread stored the same value, and the operation is applied to that value once.
   */
  method RetryLoop(cell: Cell, op: Op, others: seq<Word>) returns (prev: Word, ghost round: nat)
    requires Loops(op)
    modifies cell
    ensures round <= |others| && prev == ReadInRound(old(cell.value), others, round)
    ensures op.And? ==> forall i: nat :: Bits.Bit(cell.value, i) <==> Bits.Bit(prev, i) && Bits.Bit(op.mask, i)
    ensures op.Or? ==> forall i: nat :: Bits.Bit(cell.value, i) <==> Bits.Bit(prev, i) || Bits.Bit(op.bits, i)
    ensures cell.value == Effect(op, prev) && prev == Answer(op, prev)
    ensures round < |others| ==> others[round] == prev
    ensures forall k | 0 <= k < round :: others[k] != ReadInRound(old(cell.value), others, k)
  {
    var i := 0;
    var status: Word := 1;
    prev := cell.value;
    while status != 0
      invariant i <= |others| + 1
      invariant status != 0 ==> i <= |others| && cell.value == ReadInRound(old(cell.value), others, i)
      invariant status != 0 ==> forall k | 0 <= k < i :: others[k] != ReadInRound(old(cell.value), others, k)
      invariant status == 0 ==>
                  && 0 < i && prev == ReadInRound(old(cell.value), others, i - 1) && cell.value == Effect(op, prev)
                  && (i <= |others| ==> others[i - 1] == prev)
                  && forall k | 0 <= k < i - 1 :: others[k] != ReadInRound(old(cell.value), others, k)
      decreases |others| + 1 - i
    {
      prev := cell.value;
      if i < |others| {
        cell.value := others[i];
      }
      WantedIsEffect(op, prev);
      status := CompareExchange(cell, prev, Wanted(op, prev));
      i := i + 1;
    }
    round := i - 1;
    EffectIs(op, prev);
  }
}
