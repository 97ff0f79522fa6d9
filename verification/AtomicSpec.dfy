/**
 The atomic operations on one 32-bit cell, as their callers see them: any number of threads call,
 every call takes effect in one indivisible step between its call and its return, and returns
 what that step found. Both processor versions are proved to refine this system.
 */
module AtomicSpec {
  import opened Bits
  import opened Sequences

  type Word = Bits.Word

  function AndBits(a: Word, b: Word): Word {
    Pow2Of32();
    BitwiseBounds(a, b, 32);
    Bits.And(a, b)
  }

  function OrBits(a: Word, b: Word): Word {
    Pow2Of32();
    BitwiseBounds(a, b, 32);
    Bits.Or(a, b)
  }

  /** The calls: android_atomic_add (and inc, dec), _and, _or, _cas, and a plain store. */
  datatype Op = Add(increment: Word) | And(mask: Word) | Or(bits: Word) | Cas(expected: Word, desired: Word) | Store(value: Word)

  /** The cell after the operation. */
  function Effect(op: Op, m: Word): Word {
    match op
    case Add(i) => (m + i) % 0x1_0000_0000
    case And(v) => AndBits(m, v)
    case Or(v) => OrBits(m, v)
    case Cas(e, d) => if m == e then d else m
    case Store(v) => v
  }

  /** What the call returns when its step finds `m`: the previous value, or for a CAS whether it failed. */
  function Answer(op: Op, m: Word): Word {
    match op
    case Add(_) | And(_) | Or(_) => m
    case Cas(e, _) => if m == e then 0 else 1
    case Store(_) => 0
  }

  /** What each operation does to the cell, bit by bit where it works on bits, and what it answers. */
  lemma EffectIs(op: Op, m: Word)
    ensures op.And? ==> forall i: nat :: Bit(Effect(op, m), i) <==> Bit(m, i) && Bit(op.mask, i)
    ensures op.Or? ==> forall i: nat :: Bit(Effect(op, m), i) <==> Bit(m, i) || Bit(op.bits, i)
    ensures op.Add? ==> Effect(op, m) == (m + op.increment) % 0x1_0000_0000
    ensures op.Cas? ==> Effect(op, m) == if m == op.expected then op.desired else m
    ensures op.Store? ==> Effect(op, m) == op.value
    ensures op.Add? || op.And? || op.Or? ==> Answer(op, m) == m
    ensures op.Cas? ==> Answer(op, m) == if m == op.expected then 0 else 1
  {
    match op
    case And(v) =>
      forall i: nat
        ensures Bit(Effect(op, m), i) <==> Bit(m, i) && Bit(v, i)
      {
        AndIsBitwise(m, v, i);
      }
    case Or(v) =>
      forall i: nat
        ensures Bit(Effect(op, m), i) <==> Bit(m, i) || Bit(v, i)
      {
        OrIsBitwise(m, v, i);
      }
    case _ =>
  }

  datatype Local = Idle | Pending(op: Op) | Done(op: Op, answer: Word)

  datatype System = System(cell: Word, threads: seq<Local>)

  datatype Event = Call(t: nat, op: Op) | Take(t: nat) | Return(t: nat, op: Op, answer: Word)

  predicate Enabled(s: System, e: Event) {
    && e.t < |s.threads|
    && match e
       case Call(t, op) => s.threads[t] == Idle
       case Take(t) => s.threads[t].Pending?
       case Return(t, op, a) => s.threads[t] == Done(op, a)
  }

  function Next(s: System, e: Event): System
    requires Enabled(s, e)
  {
    match e
    case Call(t, op) => s.(threads := s.threads[t := Pending(op)])
    case Take(t) =>
      var op := s.threads[t].op;
      System(Effect(op, s.cell), s.threads[t := Done(op, Answer(op, s.cell))])
    case Return(t, op, a) => s.(threads := s.threads[t := Idle])
  }

  /** The system after a sequence of events; an event that is not enabled changes nothing. */
  function After(s: System, es: seq<Event>): System {
    if es == [] then s
    else
      var before := After(s, Front(es));
      if Enabled(before, Last(es)) then Next(before, Last(es)) else before
  }

  /** A run: every event is enabled where it happens. */
  predicate Valid(s: System, es: seq<Event>) {
    es == [] || (Valid(s, Front(es)) && Enabled(After(s, Front(es)), Last(es)))
  }

  function Start(cell: Word, n: nat): System {
    System(cell, seq(n, i => Idle))
  }

  /** An entry for every step that took effect: whose, which operation, and what it answered. */
  datatype Entry = Entry(t: nat, op: Op, answer: Word)

  /** The entry of an event, if it is the step in which a call takes effect. */
  function EntryOf(s: System, e: Event): seq<Entry>
    requires Enabled(s, e)
  {
    if e.Take? then [Entry(e.t, s.threads[e.t].op, Answer(s.threads[e.t].op, s.cell))] else []
  }

  function History(s: System, es: seq<Event>): (h: seq<Entry>)
    requires Valid(s, es)
  {
    if es == [] then [] else History(s, Front(es)) + EntryOf(After(s, Front(es)), Last(es))
  }

  /** The cell after the operations of a history, one by one. */
  function Replay(cell: Word, h: seq<Entry>): Word {
    if h == [] then cell else Effect(Last(h).op, Replay(cell, Front(h)))
  }

  /** Every entry answered what its place in the sequential history demands. */
  ghost predicate Legal(cell: Word, h: seq<Entry>) {
    forall i | 0 <= i < |h| :: h[i].answer == Answer(h[i].op, Replay(cell, h[..i]))
  }

  /** A thread's own entries, in order. */
  function Mine(h: seq<Entry>, t: nat): seq<Entry> {
    if h == [] then [] else Mine(Front(h), t) + (if Last(h).t == t then [Last(h)] else [])
  }

  /** A thread's completed calls, in order, with what they returned. */
  function Returned(es: seq<Event>, t: nat): seq<Entry> {
    if es == [] then []
    else
      var e := Last(es);
      Returned(Front(es), t) + (if e.Return? && e.t == t then [Entry(t, e.op, e.answer)] else [])
  }

  /** A thread's calls, in order. */
  function Called(es: seq<Event>, t: nat): seq<Op> {
    if es == [] then []
    else
      var e := Last(es);
      Called(Front(es), t) + (if e.Call? && e.t == t then [e.op] else [])
  }

  function Ops(entries: seq<Entry>): (ops: seq<Op>)
    ensures |ops| == |entries|
  {
    seq(|entries|, i requires 0 <= i < |entries| => entries[i].op)
  }

  /** The call that a thread is in. */
  function Current(l: Local): seq<Op> {
    if l == Idle then [] else [l.op]
  }

  /** The effect that a thread's current call has already had. */
  function Taken(l: Local, t: nat): seq<Entry> {
    if l.Done? then [Entry(t, l.op, l.answer)] else []
  }

  lemma LegalStep(cell: Word, h: seq<Entry>, x: Entry)
    requires Legal(cell, h) && x.answer == Answer(x.op, Replay(cell, h))
    ensures Legal(cell, h + [x]) && Replay(cell, h + [x]) == Effect(x.op, Replay(cell, h))
  {
    var h' := h + [x];
    assert Front(h') == h;
    forall i | 0 <= i < |h'|
      ensures h'[i].answer == Answer(h'[i].op, Replay(cell, h'[..i]))
    {
      assert h'[..i] == h[..i];
      assert h[..|h|] == h;
    }
  }

  /** The cell holds the replay of the history, and the history is legal. */
  lemma {:induction false} HistoryExplainsCell(s: System, es: seq<Event>)
    requires Valid(s, es)
    ensures After(s, es).cell == Replay(s.cell, History(s, es))
    ensures Legal(s.cell, History(s, es))
  {
    if es != [] {
      HistoryExplainsCell(s, Front(es));
      var before, e := After(s, Front(es)), Last(es);
      var h := History(s, Front(es));
      if e.Take? {
        LegalStep(s.cell, h, EntryOf(before, e)[0]);
      } else {
        assert h + [] == h;
      }
    }
  }

  /** The thread count never changes. */
  lemma {:induction false} SameThreads(s: System, es: seq<Event>)
    ensures |After(s, es).threads| == |s.threads|
  {
    if es != [] {
      SameThreads(s, Front(es));
    }
  }

  lemma MineStep(h: seq<Entry>, x: Entry, t: nat)
    ensures Mine(h + [x], t) == Mine(h, t) + (if x.t == t then [x] else [])
  {
    assert Front(h + [x]) == h;
  }

  lemma OpsStep(entries: seq<Entry>, x: Entry)
    ensures Ops(entries + [x]) == Ops(entries) + [x.op]
  {
  }

  /** The account of one thread: its effects are its returned calls and the one it is in, likewise its calls. */
  ghost predicate Accounted(l: Local, h: seq<Entry>, returned: seq<Entry>, called: seq<Op>, t: nat) {
    && Mine(h, t) == returned + Taken(l, t)
    && called == Ops(returned) + Current(l)
  }

  /**
   Every thread's effects are its returned calls and, at most, the current one: a completed call
   took effect once, with the answer it returned, and a call not yet completed at most once.
   */
  lemma {:induction false} EffectsAreCalls(cell: Word, n: nat, es: seq<Event>, t: nat)
    requires Valid(Start(cell, n), es) && t < n
    ensures |After(Start(cell, n), es).threads| == n
    ensures Accounted(After(Start(cell, n), es).threads[t], History(Start(cell, n), es), Returned(es, t), Called(es, t), t)
  {
    var s := Start(cell, n);
    SameThreads(s, es);
    if es != [] {
      EffectsAreCalls(cell, n, Front(es), t);
      var before, e := After(s, Front(es)), Last(es);
      OneEvent(before.threads[t], After(s, es).threads[t], e, History(s, Front(es)), EntryOf(before, e),
               Returned(Front(es), t), Called(Front(es), t), t);
    }
  }

  /** What an event does to the thread `t`, and which entry it adds. */
  ghost predicate LocalStep(l: Local, l': Local, e: Event, x: seq<Entry>, t: nat) {
    match e
    case Call(u, op) => x == [] && (if u == t then l == Idle && l' == Pending(op) else l' == l)
    case Take(u) =>
      && |x| == 1 && x[0].t == u
      && (if u == t then l == Pending(x[0].op) && l' == Done(x[0].op, x[0].answer) else l' == l)
    case Return(u, op, a) => x == [] && (if u == t then l == Done(op, a) && l' == Idle else l' == l)
  }

  /** One event keeps the account of one thread. */
  lemma OneEvent(l: Local, l': Local, e: Event, h: seq<Entry>, x: seq<Entry>, returned: seq<Entry>, called: seq<Op>, t: nat)
    requires LocalStep(l, l', e, x, t) && Accounted(l, h, returned, called, t)
    ensures Accounted(l', h + x, returned + (if e.Return? && e.t == t then [Entry(t, e.op, e.answer)] else []),
                      called + (if e.Call? && e.t == t then [e.op] else []), t)
  {
    NothingAdded(h, returned, called);
    if e.Take? {
      assert x == [x[0]];
      MineStep(h, x[0], t);
    } else if e.t == t && e.Return? {
      OpsStep(returned, Entry(t, e.op, e.answer));
    }
  }

  lemma NothingAdded(h: seq<Entry>, returned: seq<Entry>, called: seq<Op>)
    ensures h + [] == h && returned + [] == returned && called + [] == called
  {
  }

  /** The sum of the increments of a history of additions. */
  function Sum(h: seq<Entry>): nat {
    if h == [] then 0 else Sum(Front(h)) + (if Last(h).op.Add? then Last(h).op.increment else 0)
  }

  /** A history of additions only leaves the initial value plus all increments, modulo 2^32. */
  lemma {:induction false} AddsAddUp(cell: Word, h: seq<Entry>)
    requires forall i | 0 <= i < |h| :: h[i].op.Add?
    ensures Replay(cell, h) == (cell + Sum(h)) % 0x1_0000_0000
  {
    if h != [] {
      AddsAddUp(cell, Front(h));
      ModSum(cell + Sum(Front(h)), Last(h).op.increment, 0x1_0000_0000);
    }
  }

  lemma ModSum(a: nat, b: nat, m: nat)
    requires m > 0
    ensures (a % m + b) % m == (a + b) % m
  {
    var q, q' := a / m, (a % m + b) / m;
    var r := (a % m + b) % m;
    assert a + b == q * m + (q' * m + r);
    Distribute(q, q', m);
    DivUnique(a + b, m, q + q', r);
  }

  lemma Distribute(a: int, b: int, m: int)
    ensures (a + b) * m == a * m + b * m
  {
  }

  /** The cell holds its initial value plus all increments of the history. */
  ghost predicate AddedUp(cell: Word, final: Word, h: seq<Entry>) {
    final == (cell + Sum(h)) % 0x1_0000_0000
  }

  lemma AddsLeave(cell: Word, final: Word, h: seq<Entry>)
    requires forall i | 0 <= i < |h| :: h[i].op.Add?
    requires final == Replay(cell, h)
    ensures AddedUp(cell, final, h)
  {
    AddsAddUp(cell, h);
  }

  /** Every entry answers the running sum before it. */
  ghost predicate RunningSums(cell: Word, h: seq<Entry>) {
    forall i | 0 <= i < |h| :: h[i].answer == (cell + Sum(h[..i])) % 0x1_0000_0000
  }

  /** So does a legal history of additions. */
  lemma AddsAnswerRunningSums(cell: Word, h: seq<Entry>)
    requires Legal(cell, h) && forall j | 0 <= j < |h| :: h[j].op.Add?
    ensures RunningSums(cell, h)
  {
    forall i | 0 <= i < |h|
      ensures h[i].answer == (cell + Sum(h[..i])) % 0x1_0000_0000
    {
      AddsAddUp(cell, h[..i]);
      assert h[i].answer == Answer(h[i].op, Replay(cell, h[..i]));
    }
  }

  /** The cell as the code of one call sees it: a variable that others may write between its instructions. */
  class Cell {
    var value: Word

    constructor (value: Word)
      ensures this.value == value
    {
      this.value := value;
    }
  }
}
