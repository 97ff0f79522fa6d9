/**
 What each call of the buffer queue demands and what it leaves, spelled out field by field, and what a
 consumer is given in every run.
 */
module BufferQueueCalls {
  import opened Sequences
  import opened BufferQueue
  import opened BufferQueueSlots
  import opened BufferQueueRuns

  /** dequeueBuffer succeeds exactly if a slot below the count (2 by default) is free, and takes the one queued the longest time ago. */
  lemma DequeueExactly(q: State)
    requires WellFormed(q)
    ensures var (q', a) := Step(q, DequeueBuffer); var n := if q.count == 0 then 2 else q.count;
            && (a.Got? <==> q.connected && !q.abandoned && exists i :: 0 <= i < n && q.slots[i].state == Free)
            && (a.Got? ==>
                  && a.slot < n && q.slots[a.slot].state == Free
                  && (forall i | 0 <= i < n && q.slots[i].state == Free :: q.slots[a.slot].frame <= q.slots[i].frame)
                  && (a.needsReallocation <==> q.slots[a.slot].buffer == 0)
                  && q' == q.(slots := q.slots[a.slot := q.slots[a.slot].(state := Dequeued)]))
            && (!a.Got? ==> a == Refused && q' == q)
  {
    var i := LeastRecent(q.slots, Limit(q));
    assert i >= 0 ==> q.slots[i].state == Free;
  }

  /** requestBuffer gives a dequeued slot a buffer, a new one if it has none. */
  lemma RequestExactly(q: State, i: nat)
    requires WellFormed(q)
    ensures var (q', a) := Step(q, RequestBuffer(i));
            && (a == Done <==> q.connected && !q.abandoned && i < NUM_BUFFER_SLOTS && q.slots[i].state == Dequeued)
            && (a == Done && q.slots[i].buffer != 0 ==> q' == q)
            && (a == Done && q.slots[i].buffer == 0 ==>
                  && q'.counter == q.counter + 1 && q'.slots[i].buffer == q'.counter && !q'.slots[i].acquireCalled
                  && q' == q.(slots := q.slots[i := q.slots[i].(buffer := q'.counter, acquireCalled := false)], counter := q'.counter))
            && (a != Done ==> a == Refused && q' == q)
  {
  }

  /** queueBuffer numbers the frame, and puts it behind all others, or in the place of a droppable last one. */
  lemma QueueExactly(q: State, i: nat, async: bool)
    requires WellFormed(q)
    ensures var (q', a) := Step(q, QueueBuffer(i, async));
            && (a.Sent? <==> q.connected && !q.abandoned && i < NUM_BUFFER_SLOTS && q.slots[i].state == Dequeued && q.slots[i].buffer != 0)
            && (a.Sent? ==>
                  && a.item == Item(i, q.slots[i].buffer, q.counter + 1, async) && q'.counter == q.counter + 1
                  && q'.slots[i].state == Queued && q'.slots[i].frame == q.counter + 1 && q'.slots[i].buffer == q.slots[i].buffer
                  && q'.items == (if async && q.items != [] && q.items[|q.items| - 1].droppable then q.items[..|q.items| - 1] else q.items) + [a.item])
            && (!a.Sent? ==> a == Refused && q' == q)
  {
  }

  lemma CancelExactly(q: State, i: nat)
    requires WellFormed(q)
    ensures var (q', a) := Step(q, CancelBuffer(i));
            && (a == Done <==> q.connected && !q.abandoned && i < NUM_BUFFER_SLOTS && q.slots[i].state == Dequeued)
            && (a == Done ==> q' == q.(slots := q.slots[i := q.slots[i].(state := Free)]))
            && (a != Done ==> a == Refused && q' == q)
  {
  }

  /** The slot of the item still has its buffer. */
  predicate Alive(q: State, x: Item) {
    x.slot < |q.slots| && x.buffer != 0 && q.slots[x.slot].buffer == x.buffer
  }

  lemma AliveIsTracked(q: State, x: Item)
    ensures Alive(q, x) <==> StillTracking(q.slots, x)
  {
  }

  /** acquireBuffer takes the first item whose slot still has its buffer, and passes over those before it. */
  lemma AcquireExactly(q: State) returns (j: nat)
    requires WellFormed(q)
    ensures j <= |q.items| && forall k | 0 <= k < j :: !Alive(q, q.items[k])
    ensures var (q', a) := Step(q, AcquireBuffer);
            if j < |q.items| then
              var x := q.items[j];
              && Alive(q, x) && a == Given(x, if q.slots[x.slot].acquireCalled then 0 else x.buffer)
              && q' == q.(slots := q.slots[x.slot := q.slots[x.slot].(state := Acquired, acquireCalled := true)], items := q.items[j + 1..])
            else a == Refused && q' == q.(items := [])
  {
    j := PendingSkips(q.slots, q.items);
    forall k | 0 <= k < j
      ensures !Alive(q, q.items[k])
    {
      AliveIsTracked(q, q.items[k]);
    }
  }

  lemma ReleaseExactly(q: State, i: nat, frame: nat)
    requires WellFormed(q)
    ensures var (q', a) := Step(q, ReleaseBuffer(i, frame));
            if i >= NUM_BUFFER_SLOTS then a == Refused && q' == q
            else if q.slots[i].frame != frame then a == Stale && q' == q
            else if q.slots[i].state == Acquired then a == Done && q' == q.(slots := q.slots[i := q.slots[i].(state := Free)])
            else if q.slots[i].needsCleanup then a == Stale && q' == q.(slots := q.slots[i := q.slots[i].(needsCleanup := false)])
            else a == Refused && q' == q
  {
  }

  /** setBufferCount succeeds exactly for 0 and 2 to 32 with no slot dequeued, and frees every buffer. */
  lemma SetBufferCountExactly(q: State, n: nat)
    requires WellFormed(q)
    ensures var (q', a) := Step(q, SetBufferCount(n));
            && (a == Done <==>
                  && q.connected && !q.abandoned && (n == 0 || 2 <= n <= 32)
                  && forall i | 0 <= i < NUM_BUFFER_SLOTS :: q.slots[i].state != Dequeued)
            && (a == Done ==> q'.count == n && AllFree(q') && q' == q.(slots := q'.slots, count := n))
            && (a != Done ==> a == Refused && q' == q)
  {
  }

  /** All slots are free and without a buffer. */
  predicate AllFree(q: State) {
    forall i | 0 <= i < |q.slots| :: q.slots[i].state == Free && q.slots[i].buffer == 0
  }

  /** Who may connect and disconnect when. */
  lemma ConnectionsExactly(q: State)
    requires WellFormed(q)
    ensures var (q', a) := Step(q, Connect);
            (a == Done <==> !q.connected && !q.abandoned && q.consumer) && q' == q.(connected := q.connected || a == Done)
    ensures var (q', a) := Step(q, Disconnect);
            (a == Done <==> q.connected && !q.abandoned) && q' == q.(connected := q.connected && a != Done)
    ensures var (q', a) := Step(q, ConsumerConnect);
            (a == Done <==> !q.consumer && !q.abandoned) && q' == q.(consumer := q.consumer || a == Done)
    ensures var (q', a) := Step(q, ConsumerDisconnect);
            && (a == Done <==> q.consumer)
            && (a == Done ==> q'.abandoned && !q'.consumer && AllFree(q') && q' == q.(slots := q'.slots, consumer := false, abandoned := true))
            && (a != Done ==> q' == q)
  {
  }

  // ---- A buffer comes along with its first acquisition, and with no other.

  ghost predicate Seen(acquired: seq<Item>, b: nat) {
    exists k :: 0 <= k < |acquired| && acquired[k].buffer == b
  }

  /** A slot is marked as acquired exactly if its buffer has been. */
  ghost predicate MarkOk(s: Slot, acquired: seq<Item>, counter: nat) {
    s.buffer <= counter && (s.buffer != 0 ==> (s.acquireCalled <==> Seen(acquired, s.buffer)))
  }

  predicate Distinct(slots: seq<Slot>) {
    forall i, j | 0 <= i < j < |slots| && slots[i].buffer != 0 :: slots[i].buffer != slots[j].buffer
  }

  ghost predicate SeenInv(w: World) {
    && Distinct(w.q.slots)
    && (forall k | 0 <= k < |w.h.acquired| :: w.h.acquired[k].buffer <= w.q.counter)
    && forall i | 0 <= i < |w.q.slots| :: MarkOk(w.q.slots[i], w.h.acquired, w.q.counter)
  }

  lemma SeenMore(acquired: seq<Item>, x: Item, b: nat)
    ensures Seen(acquired + [x], b) <==> Seen(acquired, b) || x.buffer == b
  {
    if Seen(acquired, b) {
      var k :| 0 <= k < |acquired| && acquired[k].buffer == b;
      assert (acquired + [x])[k].buffer == b;
    }
    assert (acquired + [x])[|acquired|] == x;
  }

  lemma AcquireSeen(w: World)
    requires WorldInv(w) && SeenInv(w)
    ensures SeenInv(Next(w, AcquireBuffer))
    ensures var a := Step(w.q, AcquireBuffer).1; a.Given? ==> (a.buffer == 0 <==> Seen(w.h.acquired, a.item.buffer))
  {
    var j := AcquireExactly(w.q);
    if j < |w.q.items| {
      var x := w.q.items[j];
      assert MarkOk(w.q.slots[x.slot], w.h.acquired, w.q.counter);
      forall i | 0 <= i < |w.q.slots|
        ensures MarkOk(Next(w, AcquireBuffer).q.slots[i], w.h.acquired + [x], w.q.counter)
      {
        assert MarkOk(w.q.slots[i], w.h.acquired, w.q.counter);
        SeenMore(w.h.acquired, x, w.q.slots[i].buffer);
        assert i != x.slot && w.q.slots[i].buffer != 0 ==> w.q.slots[i].buffer != x.buffer;
      }
    }
  }

  lemma RequestSeen(w: World, i: nat)
    requires WorldInv(w) && SeenInv(w)
    ensures SeenInv(Next(w, RequestBuffer(i)))
  {
    RequestExactly(w.q, i);
    assert !Seen(w.h.acquired, w.q.counter + 1);
    var q' := Next(w, RequestBuffer(i)).q;
    forall j | 0 <= j < |q'.slots|
      ensures MarkOk(q'.slots[j], w.h.acquired, q'.counter)
    {
      assert MarkOk(w.q.slots[j], w.h.acquired, w.q.counter);
    }
  }

  /** No other call gives a slot a buffer or marks it. */
  lemma OtherSeen(w: World, op: Op)
    requires WorldInv(w) && SeenInv(w) && !op.AcquireBuffer? && !op.RequestBuffer?
    ensures SeenInv(Next(w, op))
  {
    var (q', a) := Step(w.q, op);
    CounterGrows(w.q, w.h.freedAt, op);
    forall i | 0 <= i < |q'.slots|
      ensures q'.slots[i].buffer == 0 || (q'.slots[i].buffer == w.q.slots[i].buffer && q'.slots[i].acquireCalled == w.q.slots[i].acquireCalled)
      ensures MarkOk(q'.slots[i], w.h.acquired, q'.counter)
    {
      Transitions(w.q, w.h.freedAt, op, i);
      assert MarkOk(w.q.slots[i], w.h.acquired, w.q.counter);
    }
    assert Next(w, op).h.acquired == w.h.acquired;
  }

  lemma {:induction false} SeenAlways(ops: seq<Op>)
    ensures SeenInv(After(ops))
  {
    if ops != [] {
      var w, op := After(Front(ops)), Last(ops);
      SeenAlways(Front(ops));
      Always(Front(ops));
      if op.AcquireBuffer? {
        AcquireSeen(w);
      } else if op.RequestBuffer? {
        RequestSeen(w, op.slot);
      } else {
        OtherSeen(w, op);
      }
    }
  }

  /** An acquisition comes without the buffer exactly if that buffer has been acquired before. */
  lemma BufferComesOnce(ops: seq<Op>)
    ensures var a := Step(After(ops).q, AcquireBuffer).1;
            a.Given? ==> (a.buffer == 0 <==> exists k :: 0 <= k < |After(ops).h.acquired| && After(ops).h.acquired[k].buffer == a.item.buffer)
  {
    Always(ops);
    SeenAlways(ops);
    AcquireSeen(After(ops));
  }
}
