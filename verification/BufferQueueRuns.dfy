/**
 The buffer queue over every run of its calls: who owns each slot, what each client may rely on, and
 what becomes of every frame.
 */
module BufferQueueRuns {
  import opened Sequences
  import opened BufferQueue
  import opened BufferQueueSlots

  /**
   Kept from the answers alone: the slots that the producer has, the frames that the consumer has,
   the buffer that the consumer last received for each slot, and the items queued, acquired, dropped.
   */
  datatype History = History(producer: set<nat>, held: set<(nat, nat)>, cache: map<nat, nat>,
                             sent: seq<Item>, acquired: seq<Item>, dropped: seq<Item>, freedAt: nat)

  function Recorded(q: State, h: History, op: Op, a: Answer): History {
    match op
    case DequeueBuffer => if a.Got? then h.(producer := h.producer + {a.slot}) else h
    case QueueBuffer(i, async) =>
      if a.Sent? then
        h.(producer := h.producer - {i}, sent := h.sent + [a.item],
           dropped := if Replaces(q, async) then h.dropped + [Last(q.items)] else h.dropped)
      else h
    case CancelBuffer(i) => if a == Done then h.(producer := h.producer - {i}) else h
    case AcquireBuffer =>
      if a.Given? then
        h.(held := h.held + {(a.item.slot, a.item.frame)}, acquired := h.acquired + [a.item],
           cache := if a.buffer == 0 then h.cache else h.cache[a.item.slot := a.buffer])
      else h
    case ReleaseBuffer(i, frame) => if a == Refused then h else h.(held := h.held - {(i, frame)})
    case SetBufferCount(_) => if a == Done then h.(freedAt := q.counter) else h
    case ConsumerDisconnect => if a == Done then h.(producer := {}, freedAt := q.counter) else h
    case _ => h
  }

  datatype World = World(q: State, h: History)

  function Start(): World {
    World(Created(), History({}, {}, map[], [], [], [], 0))
  }

  function Next(w: World, op: Op): (w': World)
    requires WellFormed(w.q)
    ensures WellFormed(w'.q)
  {
    var (q', a) := Step(w.q, op);
    World(q', Recorded(w.q, w.h, op, a))
  }

  // ---- What a call does to each slot.

  predicate Replaced(q: State, op: Op, a: Answer, i: nat) {
    op.QueueBuffer? && a.Sent? && Replaces(q, op.async) && Last(q.items).slot == i && StillTracking(q.slots, Last(q.items))
  }

  /** The slot after a call that returned `a`, along the documented transitions. */
  function SlotAfter(q: State, op: Op, a: Answer, i: nat): Slot
    requires i < |q.slots|
  {
    var s := q.slots[i];
    match op
    case DequeueBuffer => if a.Got? && a.slot == i then s.(state := Dequeued) else s
    case RequestBuffer(j) =>
      if a == Done && j == i && s.buffer == 0 then s.(buffer := q.counter + 1, acquireCalled := false) else s
    case QueueBuffer(j, _) =>
      if a.Sent? && j == i then s.(state := Queued, frame := a.item.frame)
      else if Replaced(q, op, a, i) then s.(state := Free)
      else s
    case CancelBuffer(j) => if a == Done && j == i then s.(state := Free) else s
    case AcquireBuffer => if a.Given? && a.item.slot == i then s.(state := Acquired, acquireCalled := true) else s
    case ReleaseBuffer(j, frame) =>
      if j != i || s.frame != frame then s
      else if s.state == Acquired then s.(state := Free)
      else s.(needsCleanup := false)
    case SetBufferCount(_) => if a == Done then Freed(s) else s
    case ConsumerDisconnect => if a == Done then Freed(s) else s
    case _ => s
  }

  /** The state in which a call found the slot that it moved. */
  predicate FoundIn(q: State, op: Op, a: Answer, i: nat)
    requires i < |q.slots|
  {
    var s := q.slots[i];
    match op
    case DequeueBuffer => a.Got? && a.slot == i ==> s.state == Free && a.needsReallocation == (s.buffer == 0)
    case RequestBuffer(j) => a == Done && j == i ==> s.state == Dequeued
    case QueueBuffer(j, _) =>
      && (a.Sent? && j == i ==> s.state == Dequeued && s.buffer != 0 && a.item.slot == i && a.item.buffer == s.buffer)
      && (Replaced(q, op, a, i) ==> s.state == Queued && Last(q.items).droppable && s.frame == Last(q.items).frame)
    case CancelBuffer(j) => a == Done && j == i ==> s.state == Dequeued
    case AcquireBuffer =>
      a.Given? && a.item.slot == i ==>
        s.state == Queued && s.buffer == a.item.buffer && s.frame == a.item.frame && a.buffer == (if s.acquireCalled then 0 else s.buffer)
    case ReleaseBuffer(j, frame) =>
      j == i ==> a == if s.frame != frame then Stale else if s.state == Acquired then Done else if s.needsCleanup then Stale else Refused
    case SetBufferCount(_) => a == Done ==> s.state != Dequeued
    case _ => true
  }

  lemma QueueSlots(q: State, freedAt: nat, op: Op, i: nat)
    requires Inv(q, freedAt) && i < |q.slots| && op.QueueBuffer?
    ensures var (q', a) := Step(q, op); q'.slots[i] == SlotAfter(q, op, a, i) && FoundIn(q, op, a, i)
  {
    if q.items != [] {
      TrackedIsQueued(q, freedAt, Last(q.items));
    }
  }

  lemma AcquireSlots(q: State, freedAt: nat, i: nat)
    requires Inv(q, freedAt) && i < |q.slots|
    ensures var (q', a) := Step(q, AcquireBuffer); q'.slots[i] == SlotAfter(q, AcquireBuffer, a, i) && FoundIn(q, AcquireBuffer, a, i)
  {
    var j := PendingSkips(q.slots, q.items);
    if j < |q.items| {
      TrackedIsQueued(q, freedAt, q.items[j]);
    }
  }

  /** Every slot changes along the documented transitions only. */
  lemma Transitions(q: State, freedAt: nat, op: Op, i: nat)
    requires Inv(q, freedAt) && i < |q.slots|
    ensures var (q', a) := Step(q, op); |q'.slots| == |q.slots| && q'.slots[i] == SlotAfter(q, op, a, i) && FoundIn(q, op, a, i)
  {
    if op.QueueBuffer? {
      QueueSlots(q, freedAt, op, i);
    } else if op.AcquireBuffer? {
      AcquireSlots(q, freedAt, i);
    }
  }

  // The producer has exactly the dequeued slots.

  ghost predicate ProducerInv(w: World) {
    forall i: nat :: i in w.h.producer <==> i < |w.q.slots| && w.q.slots[i].state == Dequeued
  }

  lemma ProducerKept(w: World, op: Op)
    requires Inv(w.q, w.h.freedAt) && ProducerInv(w)
    ensures ProducerInv(Next(w, op))
  {
    StepKeeps(w.q, w.h.freedAt, op);
    forall i: nat
      ensures i in Next(w, op).h.producer <==> i < |w.q.slots| && Next(w, op).q.slots[i].state == Dequeued
    {
      if i < |w.q.slots| {
        Transitions(w.q, w.h.freedAt, op, i);
      }
    }
  }

  // The consumer holds what it acquired and has not released, as long as it has not been freed.

  predicate HeldOk(s: Slot, frame: nat, counter: nat, freedAt: nat) {
    && frame <= counter
    && if frame > freedAt then s.state == Acquired && s.frame == frame
       else s.frame == frame ==> s.state != Acquired && s.needsCleanup
  }

  ghost predicate ConsumerInv(w: World) {
    && (forall p :: p in w.h.held ==> p.0 < |w.q.slots|)
    && forall i: nat | i < |w.q.slots| :: ConsumerSlot(w.q.slots[i], i, w.h.held, w.q.counter, w.h.freedAt)
  }

  /** What one slot means for the consumer: an acquired one is held, a held frame is in it or was freed. */
  ghost predicate ConsumerSlot(s: Slot, i: nat, held: set<(nat, nat)>, counter: nat, freedAt: nat) {
    && (s.state == Acquired ==> (i, s.frame) in held)
    && forall f: nat :: (i, f) in held ==> HeldOk(s, f, counter, freedAt)
  }

  lemma SlotHeld(q: State, freedAt: nat, h: History, op: Op, a: Answer, i: nat)
    requires i < |q.slots| && FoundIn(q, op, a, i) && SlotOk(q.slots[i], q.counter, freedAt) && h.freedAt == freedAt <= q.counter
    requires a.Sent? ==> a.item.frame == q.counter + 1
    requires ConsumerSlot(q.slots[i], i, h.held, q.counter, freedAt)
    ensures ConsumerSlot(SlotAfter(q, op, a, i), i, Recorded(q, h, op, a).held, q.counter + (if a.Sent? then 1 else 0), FreedAtNext(q, op, a, freedAt))
  {
  }

  lemma ConsumerKept(w: World, op: Op)
    requires Inv(w.q, w.h.freedAt) && ConsumerInv(w)
    ensures ConsumerInv(Next(w, op))
  {
    var (q', a) := Step(w.q, op);
    CounterGrows(w.q, w.h.freedAt, op);
    forall i: nat | i < |q'.slots|
      ensures ConsumerSlot(q'.slots[i], i, Next(w, op).h.held, q'.counter, Next(w, op).h.freedAt)
    {
      Transitions(w.q, w.h.freedAt, op, i);
      assert SlotOk(w.q.slots[i], w.q.counter, w.h.freedAt);
      SlotHeld(w.q, w.h.freedAt, w.h, op, a, i);
    }
    HeldInRange(w, op);
  }

  lemma CounterGrows(q: State, freedAt: nat, op: Op)
    requires Inv(q, freedAt)
    ensures var (q', a) := Step(q, op);
            && |q'.slots| == |q.slots|
            && q'.counter >= q.counter + (if a.Sent? then 1 else 0)
            && (a.Sent? ==> op.QueueBuffer? && a.item.frame == q.counter + 1 == q'.counter)
  {
  }

  lemma HeldInRange(w: World, op: Op)
    requires Inv(w.q, w.h.freedAt) && forall p :: p in w.h.held ==> p.0 < |w.q.slots|
    ensures forall p :: p in Next(w, op).h.held ==> p.0 < |w.q.slots|
  {
    if op.AcquireBuffer? {
      var j := PendingSkips(w.q.slots, w.q.items);
    }
  }

  // The consumer knows the buffer of every item that comes without one.

  predicate Cached(s: Slot, i: nat, cache: map<nat, nat>) {
    s.acquireCalled ==> s.buffer != 0 && i in cache && cache[i] == s.buffer
  }

  predicate CacheInv(w: World) {
    forall i | 0 <= i < |w.q.slots| :: Cached(w.q.slots[i], i, w.h.cache)
  }

  lemma CacheKept(w: World, op: Op)
    requires Inv(w.q, w.h.freedAt) && CacheInv(w)
    ensures CacheInv(Next(w, op))
    ensures Step(w.q, op).1.Given? ==>
              var x := Step(w.q, op).1.item; x.slot in Next(w, op).h.cache && Next(w, op).h.cache[x.slot] == x.buffer
  {
    var (q', a) := Step(w.q, op);
    StepKeeps(w.q, w.h.freedAt, op);
    GivenInRange(w.q, w.h.freedAt, op);
    forall i | 0 <= i < |q'.slots|
      ensures Cached(q'.slots[i], i, Next(w, op).h.cache)
      ensures a.Given? && a.item.slot == i ==> q'.slots[i].buffer == a.item.buffer && q'.slots[i].acquireCalled
    {
      Transitions(w.q, w.h.freedAt, op, i);
      assert SlotOk(w.q.slots[i], w.q.counter, w.h.freedAt);
      CachedAfter(w.q, w.h, op, a, i);
    }
  }

  lemma GivenInRange(q: State, freedAt: nat, op: Op)
    requires Inv(q, freedAt)
    ensures Step(q, op).1.Given? ==> op.AcquireBuffer? && Step(q, op).1.item.slot < |q.slots|
  {
  }

  lemma CachedAfter(q: State, h: History, op: Op, a: Answer, i: nat)
    requires i < |q.slots| && FoundIn(q, op, a, i) && Cached(q.slots[i], i, h.cache)
    requires q.slots[i].state == Queued ==> q.slots[i].buffer != 0
    ensures Cached(SlotAfter(q, op, a, i), i, Recorded(q, h, op, a).cache)
  {
  }

  // ---- The frames.

  /** `before` was queued before everything in `items`. */
  predicate Precedes(before: seq<Item>, items: seq<Item>) {
    forall j, k | 0 <= j < |before| && 0 <= k < |items| :: before[j].frame < items[k].frame
  }

  /** A frame queued after the last freeing waits, or has been acquired, or was droppable and has been dropped. */
  predicate Accounted(x: Item, items: seq<Item>, h: History) {
    x.frame > h.freedAt ==> x in items || x in h.acquired || (x in h.dropped && x.droppable)
  }

  predicate FramesInv(w: World) {
    && Increasing(w.h.acquired) && Precedes(w.h.acquired, w.q.items)
    && (forall x | x in w.h.acquired :: x in w.h.sent)
    && (forall x | x in w.q.items :: x in w.h.sent)
    && (forall x | x in w.h.sent :: x.frame <= w.q.counter && Accounted(x, w.q.items, w.h))
  }

  /** How a call changes the FIFO. */
  lemma ItemsAfter(q: State, freedAt: nat, op: Op) returns (j: nat)
    requires Inv(q, freedAt)
    ensures j <= |q.items| && forall k | 0 <= k < j :: q.items[k].frame <= freedAt
    ensures var (q', a) := Step(q, op);
            if op.QueueBuffer? && a.Sent? then
              && q'.items == (if Replaces(q, op.async) then Front(q.items) else q.items) + [a.item]
              && a.item.frame == q.counter + 1 && a.item.droppable == op.async
            else if op.AcquireBuffer? then
              if j < |q.items| then a.Given? && a.item == q.items[j] && q'.items == q.items[j + 1..] else a == Refused && q'.items == []
            else q'.items == q.items
  {
    if op.AcquireBuffer? {
      j := PendingSkips(q.slots, q.items);
      forall k | 0 <= k < j
        ensures q.items[k].frame <= freedAt
      {
        TrackedIsQueued(q, freedAt, q.items[k]);
      }
    } else {
      return 0;
    }
  }

  lemma QueueFrames(q: State, q': State, h: History, x: Item, drop: bool)
    requires FramesInv(World(q, h)) && x.frame == q.counter + 1 == q'.counter
    requires drop ==> q.items != [] && Last(q.items).droppable
    requires q'.items == (if drop then Front(q.items) else q.items) + [x]
    ensures FramesInv(World(q', h.(sent := h.sent + [x], dropped := if drop then h.dropped + [Last(q.items)] else h.dropped)))
  {
    var h' := h.(sent := h.sent + [x], dropped := if drop then h.dropped + [Last(q.items)] else h.dropped);
    forall y | y in h'.sent
      ensures y.frame <= q'.counter && Accounted(y, q'.items, h')
    {
      if y in h.sent {
        StaysAccounted(y, q.items, q'.items, h, h', drop);
      } else {
        assert y == Last(q'.items);
      }
    }
    forall j, k | 0 <= j < |h.acquired| && 0 <= k < |q'.items|
      ensures h.acquired[j].frame < q'.items[k].frame
    {
      if k < |q'.items| - 1 {
        assert q'.items[k] == q.items[k];
      } else {
        assert h.acquired[j] in h.sent;
      }
    }
  }

  lemma StaysAccounted(y: Item, items: seq<Item>, items': seq<Item>, h: History, h': History, drop: bool)
    requires Accounted(y, items, h) && h'.freedAt == h.freedAt && h'.acquired == h.acquired
    requires drop ==> items != [] && Last(items).droppable && items' != [] && Front(items') == Front(items)
    requires !drop ==> items' != [] && Front(items') == items
    requires h'.dropped == if drop then h.dropped + [Last(items)] else h.dropped
    ensures Accounted(y, items', h')
  {
    if y in items {
      var k :| 0 <= k < |items| && items[k] == y;
      if k < |items| - 1 || !drop {
        assert items'[k] == Front(items')[k] == y;
      } else {
        assert y == Last(items);
      }
    }
  }

  lemma AcquireFrames(w: World, items': seq<Item>, j: nat)
    requires FramesInv(w) && Increasing(w.q.items) && j <= |w.q.items|
    requires forall k | 0 <= k < j :: w.q.items[k].frame <= w.h.freedAt
    requires items' == if j < |w.q.items| then w.q.items[j + 1..] else []
    ensures FramesInv(World(w.q.(items := items'), if j < |w.q.items| then w.h.(acquired := w.h.acquired + [w.q.items[j]]) else w.h))
  {
    var h' := if j < |w.q.items| then w.h.(acquired := w.h.acquired + [w.q.items[j]]) else w.h;
    forall y | y in w.h.sent
      ensures Accounted(y, items', h')
    {
      if y in w.q.items {
        var k :| 0 <= k < |w.q.items| && w.q.items[k] == y;
        if k == j {
          assert y == Last(h'.acquired);
        } else if k > j {
          assert items'[k - j - 1] == y;
        }
      }
    }
  }

  lemma FramesKept(w: World, op: Op)
    requires Inv(w.q, w.h.freedAt) && FramesInv(w)
    ensures FramesInv(Next(w, op))
  {
    var (q', a) := Step(w.q, op);
    var j := ItemsAfter(w.q, w.h.freedAt, op);
    CounterGrows(w.q, w.h.freedAt, op);
    if op.QueueBuffer? && a.Sent? {
      QueueFrames(w.q, q', w.h, a.item, Replaces(w.q, op.async));
    } else if op.AcquireBuffer? {
      AcquireFrames(w, q'.items, j);
    } else {
      OtherFrames(w, op);
    }
  }

  lemma OtherFrames(w: World, op: Op)
    requires Inv(w.q, w.h.freedAt) && FramesInv(w)
    requires !op.AcquireBuffer? && !Step(w.q, op).1.Sent?
    ensures FramesInv(Next(w, op))
  {
    var (q', a) := Step(w.q, op);
    var j := ItemsAfter(w.q, w.h.freedAt, op);
    CounterGrows(w.q, w.h.freedAt, op);
    SameFrames(w, World(q', Recorded(w.q, w.h, op, a)));
  }

  lemma SameFrames(w: World, w': World)
    requires FramesInv(w) && w'.q.items == w.q.items && w'.q.counter >= w.q.counter && w'.h.freedAt >= w.h.freedAt
    requires w'.h.sent == w.h.sent && w'.h.acquired == w.h.acquired && w'.h.dropped == w.h.dropped
    ensures FramesInv(w')
  {
  }

  // ---- Runs.

  ghost predicate WorldInv(w: World) {
    Inv(w.q, w.h.freedAt) && ProducerInv(w) && ConsumerInv(w) && CacheInv(w) && FramesInv(w)
  }

  function After(ops: seq<Op>): (w: World)
    ensures WellFormed(w.q)
  {
    if ops == [] then Start() else Next(After(Front(ops)), Last(ops))
  }

  lemma WorldKept(w: World, op: Op)
    requires WorldInv(w)
    ensures WorldInv(Next(w, op))
  {
    StepKeeps(w.q, w.h.freedAt, op);
    ProducerKept(w, op);
    ConsumerKept(w, op);
    CacheKept(w, op);
    FramesKept(w, op);
  }

  lemma {:induction false} Always(ops: seq<Op>)
    ensures WorldInv(After(ops))
  {
    if ops != [] {
      var w, op := After(Front(ops)), Last(ops);
      Always(Front(ops));
      WorldKept(w, op);
    }
  }

  /** A frame that the consumer holds and that has not been freed. */
  predicate Holds(h: History, i: nat, frame: nat) {
    (i, frame) in h.held && frame > h.freedAt
  }

  /** Each slot has one owner: the producer has it, or the consumer has one frame in it, or the queue itself. */
  lemma OneOwner(ops: seq<Op>, i: nat, frame: nat)
    requires i < |After(ops).q.slots|
    ensures var w := After(ops); var s := w.q.slots[i];
            && (i in w.h.producer <==> s.state == Dequeued)
            && (Holds(w.h, i, frame) <==> s.state == Acquired && s.frame == frame)
  {
    Always(ops);
    var w := After(ops);
    assert ConsumerSlot(w.q.slots[i], i, w.h.held, w.q.counter, w.h.freedAt);
    assert SlotOk(w.q.slots[i], w.q.counter, w.h.freedAt);
  }

  /** The consumer's release of a frame it holds succeeds, and is stale exactly if the frame was freed in the meantime. */
  lemma StaleIffFreed(ops: seq<Op>, i: nat, frame: nat)
    requires (i, frame) in After(ops).h.held
    ensures Step(After(ops).q, ReleaseBuffer(i, frame)).1 == if frame > After(ops).h.freedAt then Done else Stale
  {
    Always(ops);
    var w := After(ops);
    assert ConsumerSlot(w.q.slots[i], i, w.h.held, w.q.counter, w.h.freedAt);
  }

  /** Queued slots and items still tracked are one-to-one. */
  lemma TrackedOneToOne(ops: seq<Op>, i: nat)
    requires i < |After(ops).q.slots|
    ensures var q := After(ops).q;
            && (q.slots[i].state == Queued <==> exists k :: 0 <= k < |q.items| && q.items[k].slot == i && StillTracking(q.slots, q.items[k]))
            && (forall j, k | 0 <= j < k < |q.items| && q.items[j].slot == i && q.items[k].slot == i ::
                  !(StillTracking(q.slots, q.items[j]) && StillTracking(q.slots, q.items[k])))
  {
    Always(ops);
    var w := After(ops);
    var q := w.q;
    forall k | 0 <= k < |q.items|
      ensures StillTracking(q.slots, q.items[k]) <==> q.items[k].frame > w.h.freedAt
      ensures StillTracking(q.slots, q.items[k]) ==> InSlot(q.slots, q.items[k])
    {
      TrackedIsQueued(q, w.h.freedAt, q.items[k]);
    }
    if q.slots[i].state == Queued {
      assert SlotOk(q.slots[i], q.counter, w.h.freedAt);
      var k :| 0 <= k < |q.items| && q.items[k].slot == i && q.items[k].frame == q.slots[i].frame;
    }
  }

  /** Frames are acquired in the order of their numbers, none twice, and only frames that were queued. */
  lemma AcquiredInOrder(ops: seq<Op>)
    ensures Increasing(After(ops).h.acquired)
    ensures forall x | x in After(ops).h.acquired :: x in After(ops).h.sent
  {
    Always(ops);
  }

  /** No frame is lost, unless it was droppable or all buffers have been freed since. */
  lemma NothingLost(ops: seq<Op>, x: Item)
    requires x in After(ops).h.sent && x.frame > After(ops).h.freedAt
    ensures var w := After(ops);
            (x in w.q.items && InSlot(w.q.slots, x)) || x in w.h.acquired || (x in w.h.dropped && x.droppable)
  {
    Always(ops);
    var w := After(ops);
    assert Accounted(x, w.q.items, w.h);
    if x in w.q.items {
      TrackedIsQueued(w.q, w.h.freedAt, x);
    }
  }

  /** After an acquisition the consumer knows the buffer of the item, whether it came along or not. */
  lemma ConsumerKnowsBuffer(ops: seq<Op>)
    requires Step(After(ops).q, AcquireBuffer).1.Given?
    ensures var x := Step(After(ops).q, AcquireBuffer).1.item; var cache := After(ops + [AcquireBuffer]).h.cache;
            x.slot in cache && cache[x.slot] == x.buffer
  {
    Always(ops);
    CacheKept(After(ops), AcquireBuffer);
    Append(ops, AcquireBuffer);
  }

  predicate ProducerCall(op: Op) {
    op.DequeueBuffer? || op.RequestBuffer? || op.QueueBuffer? || op.CancelBuffer? || op.SetBufferCount? || op.Connect? || op.Disconnect?
  }

  predicate Abandoned(q: State) {
    q.abandoned && forall i | 0 <= i < |q.slots| :: q.slots[i].state == Free
  }

  lemma AfterAppend(ops: seq<Op>, op: Op)
    ensures After(ops + [op]) == Next(After(ops), op)
  {
    Append(ops, op);
  }

  lemma StaysAbandoned(w: World, op: Op)
    requires WorldInv(w) && Abandoned(w.q)
    ensures Abandoned(Next(w, op).q)
    ensures ProducerCall(op) ==> Step(w.q, op).1 == Refused
  {
    forall i | 0 <= i < |w.q.slots|
      ensures Step(w.q, op).0.slots[i].state == Free
    {
      Transitions(w.q, w.h.freedAt, op, i);
    }
    CounterGrows(w.q, w.h.freedAt, op);
  }

  /** Once the consumer has disconnected, all slots stay free and every call of the producer fails, for good. */
  lemma {:induction false} AbandonedForGood(ops: seq<Op>, later: seq<Op>, op: Op)
    requires After(ops).q.consumer
    ensures var w := After(ops + [ConsumerDisconnect] + later);
            Abandoned(w.q) && (ProducerCall(op) ==> Step(w.q, op).1 == Refused)
    decreases |later|
  {
    var all := ops + [ConsumerDisconnect] + later;
    if later == [] {
      AfterAppend(ops, ConsumerDisconnect);
      assert all == ops + [ConsumerDisconnect];
    } else {
      var before := ops + [ConsumerDisconnect] + Front(later);
      AbandonedForGood(ops, Front(later), op);
      Always(before);
      StaysAbandoned(After(before), Last(later));
      AfterAppend(before, Last(later));
      assert all == before + [Last(later)];
    }
    Always(all);
    StaysAbandoned(After(all), op);
  }

  // ---- The documented edges.

  /** The transitions that the comments on the states of a slot allow for slot `i`. */
  predicate Edge(op: Op, i: nat, from: BufferState, to: BufferState) {
    match (from, to)
    case (Free, Dequeued) => op.DequeueBuffer?                          // BufferQueue.h:386-387
    case (Dequeued, Queued) => op.QueueBuffer? && op.slot == i          // 395-396
    case (Dequeued, Free) => op == CancelBuffer(i) || op.ConsumerDisconnect?  // 396; 255-256
    case (Queued, Acquired) => op.AcquireBuffer?                        // 405-406
    case (Queued, Free) => (op.QueueBuffer? && op.async && op.slot != i) || FreesAll(op)  // 406-407; 99-101, 255-256
    case (Acquired, Free) => (op.ReleaseBuffer? && op.slot == i) || FreesAll(op)  // 414-415; 99-101, 255-256
    case _ => false
  }

  /**
   In every run a call leaves the state of a slot as it is or moves it along a documented edge, and
   an edge of a call that names no slot is taken by the slot that the answer names.
   */
  lemma OnlyDocumentedEdges(ops: seq<Op>, op: Op, i: nat)
    requires i < NUM_BUFFER_SLOTS
    ensures var (before, after) := (After(ops).q.slots[i].state, After(ops + [op]).q.slots[i].state);
            var a := Step(After(ops).q, op).1;
            && (after == before || Edge(op, i, before, after))
            && (after == Dequeued != before ==> a.Got? && a.slot == i)
            && (after == Acquired != before ==> a.Given? && a.item.slot == i)
            && (after != before ==> a != Refused)
  {
    Always(ops);
    AfterAppend(ops, op);
    var w := After(ops);
    Transitions(w.q, w.h.freedAt, op, i);
    EdgeOfTransition(w.q, op, Step(w.q, op).1, i);
    RefusedChangesNothing(w.q, op, i);
  }

  lemma EdgeOfTransition(q: State, op: Op, a: Answer, i: nat)
    requires i < |q.slots| && FoundIn(q, op, a, i)
    ensures var (before, after) := (q.slots[i].state, SlotAfter(q, op, a, i).state);
            && (after == before || Edge(op, i, before, after))
            && (after == Dequeued != before ==> a.Got? && a.slot == i)
            && (after == Acquired != before ==> a.Given? && a.item.slot == i)
  {
  }

  lemma RefusedChangesNothing(q: State, op: Op, i: nat)
    requires WellFormed(q) && i < |q.slots|
    ensures Step(q, op).1 == Refused ==> Step(q, op).0.slots == q.slots
  {
  }
}
