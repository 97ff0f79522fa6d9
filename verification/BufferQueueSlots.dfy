/** What every call of the buffer queue keeps: the items still tracked and the queued slots are one-to-one. */
module BufferQueueSlots {
  import opened Sequences
  import opened BufferQueue

  // ---- Slots and items.

  /** `freedAt` is the counter when all buffers were last freed. */
  predicate SlotOk(s: Slot, counter: nat, freedAt: nat) {
    && s.frame <= counter && s.buffer <= counter
    && (s.buffer != 0 ==> s.buffer > freedAt)
    && (s.state == Queued || s.state == Acquired ==> s.buffer != 0 && s.frame > freedAt)
  }

  predicate SlotsInv(q: State, freedAt: nat) {
    && WellFormed(q) && freedAt <= q.counter
    && forall i | 0 <= i < |q.slots| :: SlotOk(q.slots[i], q.counter, freedAt)
  }

  /** A queued slot holds the buffer and the number of the item. */
  predicate InSlot(slots: seq<Slot>, x: Item) {
    x.slot < |slots| && slots[x.slot].state == Queued && slots[x.slot].buffer == x.buffer && slots[x.slot].frame == x.frame
  }

  predicate ItemOk(slots: seq<Slot>, x: Item, counter: nat, freedAt: nat) {
    && x.slot < NUM_BUFFER_SLOTS && 0 < x.buffer < x.frame <= counter
    && (x.frame > freedAt ==> InSlot(slots, x))
  }

  predicate Increasing(items: seq<Item>) {
    forall j, k | 0 <= j < k < |items| :: items[j].frame < items[k].frame
  }

  predicate ItemsInv(q: State, freedAt: nat) {
    && Increasing(q.items)
    && forall k | 0 <= k < |q.items| :: ItemOk(q.slots, q.items[k], q.counter, freedAt)
  }

  ghost predicate Represented(items: seq<Item>, i: nat, frame: nat) {
    exists k :: 0 <= k < |items| && items[k].slot == i && items[k].frame == frame
  }

  ghost predicate QueuedInv(q: State) {
    forall i | 0 <= i < |q.slots| :: q.slots[i].state == Queued ==> Represented(q.items, i, q.slots[i].frame)
  }

  ghost predicate Inv(q: State, freedAt: nat) {
    SlotsInv(q, freedAt) && ItemsInv(q, freedAt) && QueuedInv(q)
  }

  /** A slot that is not queued may change to another state that is not queued; its clean-up mark may change anyway. */
  lemma OtherSlot(q: State, freedAt: nat, i: nat, s: Slot, counter: nat)
    requires Inv(q, freedAt) && i < |q.slots| && counter >= q.counter
    requires (q.slots[i].state != Queued && s.state != Queued) || s == q.slots[i].(needsCleanup := s.needsCleanup)
    requires SlotOk(s, counter, freedAt)
    ensures Inv(q.(slots := q.slots[i := s], counter := counter), freedAt)
  {
    var q' := q.(slots := q.slots[i := s], counter := counter);
    forall k | 0 <= k < |q.items|
      ensures ItemOk(q'.slots, q.items[k], counter, freedAt)
    {
      assert ItemOk(q.slots, q.items[k], q.counter, freedAt);
    }
  }

  lemma AppendKeeps(q: State, freedAt: nat, x: Item)
    requires Inv(q, freedAt) && x.slot < |q.slots| && q.slots[x.slot].state == Dequeued
    requires x.buffer == q.slots[x.slot].buffer != 0 && x.frame == q.counter + 1
    ensures Inv(Appended(q, x), freedAt)
  {
    var q' := Appended(q, x);
    forall k | 0 <= k < |q'.items|
      ensures ItemOk(q'.slots, q'.items[k], q'.counter, freedAt)
    {
      if k < |q.items| {
        assert ItemOk(q.slots, q.items[k], q.counter, freedAt);
      }
    }
    forall i | 0 <= i < |q'.slots| && q'.slots[i].state == Queued
      ensures Represented(q'.items, i, q'.slots[i].frame)
    {
      if i == x.slot {
        assert q'.items[|q.items|] == x;
      } else {
        var k :| 0 <= k < |q.items| && q.items[k].slot == i && q.items[k].frame == q.slots[i].frame;
        assert q'.items[k] == q.items[k];
      }
    }
  }

  /** An item is still tracked exactly if it was queued after the last freeing, and then its slot is queued. */
  lemma TrackedIsQueued(q: State, freedAt: nat, x: Item)
    requires Inv(q, freedAt) && x in q.items
    ensures StillTracking(q.slots, x) <==> x.frame > freedAt
    ensures StillTracking(q.slots, x) ==> InSlot(q.slots, x)
  {
    var k :| 0 <= k < |q.items| && q.items[k] == x;
    assert ItemOk(q.slots, q.items[k], q.counter, freedAt);
    assert SlotOk(q.slots[x.slot], q.counter, freedAt);
  }

  lemma DropKeeps(q: State, freedAt: nat)
    requires Inv(q, freedAt) && q.items != []
    ensures Inv(Dropped(q), freedAt)
  {
    var q', x := Dropped(q), Last(q.items);
    TrackedIsQueued(q, freedAt, x);
    forall k | 0 <= k < |q'.items|
      ensures ItemOk(q'.slots, q'.items[k], q'.counter, freedAt)
    {
      assert ItemOk(q.slots, q.items[k], q.counter, freedAt);
      assert q.items[k].frame < x.frame;
    }
    forall i | 0 <= i < |q'.slots| && q'.slots[i].state == Queued
      ensures Represented(q'.items, i, q'.slots[i].frame)
    {
      var k :| 0 <= k < |q.items| && q.items[k].slot == i && q.items[k].frame == q.slots[i].frame;
      assert SlotOk(q.slots[i], q.counter, freedAt);
      assert q'.items[k] == q.items[k];
    }
  }

  /** What an acquisition passes over is not tracked any more. */
  lemma {:induction false} PendingSkips(slots: seq<Slot>, items: seq<Item>) returns (j: nat)
    ensures j <= |items| && Pending(slots, items) == items[j..]
    ensures forall k | 0 <= k < j :: !StillTracking(slots, items[k])
  {
    if items == [] || StillTracking(slots, items[0]) {
      return 0;
    }
    var i := PendingSkips(slots, items[1..]);
    j := i + 1;
    forall k | 0 <= k < j
      ensures !StillTracking(slots, items[k])
    {
      if k > 0 {
        assert items[k] == items[1..][k - 1];
      }
    }
  }

  lemma SkipKeeps(q: State, freedAt: nat, j: nat)
    requires Inv(q, freedAt) && j <= |q.items|
    requires forall k | 0 <= k < j :: !StillTracking(q.slots, q.items[k])
    ensures Inv(q.(items := q.items[j..]), freedAt)
  {
    var q' := q.(items := q.items[j..]);
    forall k | 0 <= k < |q'.items|
      ensures ItemOk(q'.slots, q'.items[k], q'.counter, freedAt)
    {
      assert ItemOk(q.slots, q.items[k + j], q.counter, freedAt);
    }
    forall i | 0 <= i < |q'.slots| && q'.slots[i].state == Queued
      ensures Represented(q'.items, i, q'.slots[i].frame)
    {
      var k :| 0 <= k < |q.items| && q.items[k].slot == i && q.items[k].frame == q.slots[i].frame;
      assert SlotOk(q.slots[i], q.counter, freedAt);
      TrackedIsQueued(q, freedAt, q.items[k]);
      assert q'.items[k - j] == q.items[k];
    }
  }

  lemma TakeKeeps(q: State, freedAt: nat)
    requires Inv(q, freedAt) && q.items != [] && StillTracking(q.slots, q.items[0])
    ensures Inv(Taken(q, q.items), freedAt)
  {
    var q', x := Taken(q, q.items), q.items[0];
    TrackedIsQueued(q, freedAt, x);
    forall k | 0 <= k < |q'.items|
      ensures ItemOk(q'.slots, q'.items[k], q'.counter, freedAt)
    {
      assert ItemOk(q.slots, q.items[k + 1], q.counter, freedAt);
      assert x.frame < q.items[k + 1].frame;
    }
    forall i | 0 <= i < |q'.slots|
      ensures SlotOk(q'.slots[i], q'.counter, freedAt)
      ensures q'.slots[i].state == Queued ==> Represented(q'.items, i, q'.slots[i].frame)
    {
      assert SlotOk(q.slots[i], q.counter, freedAt);
      if q'.slots[i].state == Queued {
        var k :| 0 <= k < |q.items| && q.items[k].slot == i && q.items[k].frame == q.slots[i].frame;
        assert q'.items[k - 1] == q.items[k];
      }
    }
  }

  lemma AcquireKeeps(q: State, freedAt: nat)
    requires Inv(q, freedAt)
    ensures Inv(Step(q, AcquireBuffer).0, freedAt)
  {
    var j := PendingSkips(q.slots, q.items);
    SkipKeeps(q, freedAt, j);
    if j < |q.items| {
      TakeKeeps(q.(items := q.items[j..]), freedAt);
    }
  }

  lemma FreeAllKeeps(q: State, freedAt: nat, q': State)
    requires Inv(q, freedAt) && q' == q.(slots := FreedAll(q.slots), count := q'.count, consumer := q'.consumer, abandoned := q'.abandoned)
    requires ValidCount(q'.count)
    ensures Inv(q', q.counter)
  {
    forall i | 0 <= i < |q'.slots|
      ensures SlotOk(q'.slots[i], q'.counter, q.counter) && q'.slots[i].state == Free
    {
      assert SlotOk(q.slots[i], q.counter, freedAt);
    }
    forall k | 0 <= k < |q'.items|
      ensures ItemOk(q'.slots, q'.items[k], q'.counter, q.counter)
    {
      assert ItemOk(q.slots, q.items[k], q.counter, freedAt);
    }
  }

  predicate FreesAll(op: Op) {
    op.SetBufferCount? || op.ConsumerDisconnect?
  }

  /** The counter at the last freeing of all buffers, after a call. */
  function FreedAtNext(q: State, op: Op, a: Answer, freedAt: nat): nat {
    if FreesAll(op) && a == Done then q.counter else freedAt
  }

  lemma QueueKeeps(q: State, freedAt: nat, i: nat, async: bool)
    requires Inv(q, freedAt)
    ensures Inv(Step(q, QueueBuffer(i, async)).0, freedAt)
  {
    if Usable(q) && InState(q, i, Dequeued) && q.slots[i].buffer != 0 {
      var x := NewItem(q, i, async);
      if Replaces(q, async) {
        DropKeeps(q, freedAt);
        TrackedIsQueued(q, freedAt, Last(q.items));
        AppendKeeps(Dropped(q), freedAt, x);
      } else {
        AppendKeeps(q, freedAt, x);
      }
    }
  }

  /** The calls that touch one slot which is not queued. */
  lemma SlotCallKeeps(q: State, freedAt: nat, op: Op)
    requires Inv(q, freedAt)
    requires op.DequeueBuffer? || op.RequestBuffer? || op.CancelBuffer? || op.ReleaseBuffer?
    ensures Inv(Step(q, op).0, freedAt)
  {
    var q' := Step(q, op).0;
    if q' != q {
      var i: nat := if op.DequeueBuffer? then LeastRecent(q.slots, Limit(q)) else op.slot;
      assert SlotOk(q.slots[i], q.counter, freedAt);
      OtherSlot(q, freedAt, i, q'.slots[i], q'.counter);
    }
  }

  lemma StepKeeps(q: State, freedAt: nat, op: Op)
    requires Inv(q, freedAt)
    ensures Inv(Step(q, op).0, FreedAtNext(q, op, Step(q, op).1, freedAt))
  {
    var (q', a) := Step(q, op);
    match op
    case QueueBuffer(i, async) => QueueKeeps(q, freedAt, i, async);
    case AcquireBuffer => AcquireKeeps(q, freedAt);
    case SetBufferCount(_) =>
      if a == Done {
        FreeAllKeeps(q, freedAt, q');
      }
    case ConsumerDisconnect =>
      if a == Done {
        FreeAllKeeps(q, freedAt, q');
      }
    case Connect =>
    case Disconnect =>
    case ConsumerConnect =>
    case _ => SlotCallKeeps(q, freedAt, op);
  }
}
