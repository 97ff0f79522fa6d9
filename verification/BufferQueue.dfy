/**
 The buffer queue between a producer and a consumer, as BufferQueue.h documents it: 32 slots, each
 free, dequeued, queued or acquired, and a FIFO of the frames queued for the consumer.
 */
module BufferQueue {
  import opened Sequences

  const NUM_BUFFER_SLOTS: nat := 32
  const MIN_UNDEQUEUED_BUFFERS: nat := 2

  datatype BufferState = Free | Dequeued | Queued | Acquired

  /** A buffer is named by the value of the counter at its allocation; 0 stands for no buffer. */
  datatype Slot = Slot(state: BufferState, buffer: nat, frame: nat, acquireCalled: bool, needsCleanup: bool)

  datatype Item = Item(slot: nat, buffer: nat, frame: nat, droppable: bool)

  /** `count` is the producer's limit on the slots in use (mOverrideMaxBufferCount, 0 for the default of 2). */
  datatype State = State(slots: seq<Slot>, items: seq<Item>, counter: nat, count: nat, abandoned: bool, connected: bool, consumer: bool)

  datatype Op =
    | DequeueBuffer
    | RequestBuffer(slot: nat)
    | QueueBuffer(slot: nat, async: bool)
    | CancelBuffer(slot: nat)
    | AcquireBuffer
    | ReleaseBuffer(slot: nat, frame: nat)
    | SetBufferCount(count: nat)
    | Connect
    | Disconnect
    | ConsumerConnect
    | ConsumerDisconnect

  datatype Answer =
    | Done
    | Got(slot: nat, needsReallocation: bool)   // dequeueBuffer
    | Sent(item: Item)                          // queueBuffer
    | Given(item: Item, buffer: nat)            // acquireBuffer; buffer 0 when the consumer has it already
    | Stale                                     // STALE_BUFFER_SLOT
    | Refused                                   // NO_INIT, -EBUSY, -EINVAL or BAD_VALUE

  function Created(): State {
    State(seq(NUM_BUFFER_SLOTS, i => Slot(Free, 0, 0, false, false)), [], 0, 0, false, false, false)
  }

  /** Producer calls fail before connect, after disconnect, and once the queue has been abandoned. */
  predicate Usable(q: State) {
    q.connected && !q.abandoned
  }

  function Limit(q: State): nat {
    if q.count == 0 then 2 else q.count
  }

  /** The free slot below `n` that was queued the longest time ago, -1 if there is none. */
  function LeastRecent(slots: seq<Slot>, n: nat): (i: int)
    requires n <= |slots|
    ensures -1 <= i < n
    ensures i >= 0 ==> slots[i].state == Free && forall j | 0 <= j < n && slots[j].state == Free :: slots[i].frame <= slots[j].frame
    ensures i == -1 ==> forall j | 0 <= j < n :: slots[j].state != Free
  {
    if n == 0 then -1
    else
      var i := LeastRecent(slots, n - 1);
      if slots[n - 1].state == Free && (i == -1 || slots[n - 1].frame < slots[i].frame) then n - 1 else i
  }

  /** stillTracking: the buffer of the item is still the one of its slot. */
  predicate StillTracking(slots: seq<Slot>, item: Item) {
    item.slot < |slots| && slots[item.slot].buffer == item.buffer != 0
  }

  /** freeBufferLocked: an acquired buffer is left for its consumer to clean up. */
  function Freed(s: Slot): Slot {
    Slot(Free, 0, s.frame, false, s.needsCleanup || s.state == Acquired)
  }

  function FreedAll(slots: seq<Slot>): (freed: seq<Slot>)
    ensures |freed| == |slots|
    ensures forall i | 0 <= i < |slots| :: freed[i] == Freed(slots[i])
  {
    seq(|slots|, i requires 0 <= i < |slots| => Freed(slots[i]))
  }

  predicate InState(q: State, i: nat, s: BufferState) {
    i < |q.slots| && q.slots[i].state == s
  }

  function Requested(q: State, i: nat): State
    requires i < |q.slots|
  {
    if q.slots[i].buffer != 0 then q
    else q.(slots := q.slots[i := q.slots[i].(buffer := q.counter + 1, acquireCalled := false)], counter := q.counter + 1)
  }

  /** The last item, if an asynchronous call may replace it. */
  predicate Replaces(q: State, async: bool) {
    async && q.items != [] && Last(q.items).droppable
  }

  /** The last item is dropped, and its slot is free again. */
  function Dropped(q: State): State
    requires q.items != []
  {
    var item := Last(q.items);
    q.(slots := if StillTracking(q.slots, item) then q.slots[item.slot := q.slots[item.slot].(state := Free)] else q.slots,
       items := Front(q.items))
  }

  function Appended(q: State, item: Item): State
    requires item.slot < |q.slots|
  {
    q.(slots := q.slots[item.slot := q.slots[item.slot].(state := Queued, frame := item.frame)],
       items := q.items + [item], counter := item.frame)
  }

  function Enqueued(q: State, item: Item): State
    requires item.slot < |q.slots|
  {
    Appended(if Replaces(q, item.droppable) then Dropped(q) else q, item)
  }

  function NewItem(q: State, i: nat, async: bool): Item
    requires i < |q.slots|
  {
    Item(i, q.slots[i].buffer, q.counter + 1, async)
  }

  /** The items from the first one that is still tracked. */
  function Pending(slots: seq<Slot>, items: seq<Item>): (rest: seq<Item>)
    ensures rest != [] ==> StillTracking(slots, rest[0])
  {
    if items == [] || StillTracking(slots, items[0]) then items else Pending(slots, items[1..])
  }

  function Taken(q: State, pending: seq<Item>): State
    requires pending != [] && StillTracking(q.slots, pending[0])
  {
    var i := pending[0].slot;
    q.(slots := q.slots[i := q.slots[i].(state := Acquired, acquireCalled := true)], items := pending[1..])
  }

  predicate ValidCount(n: nat) {
    n == 0 || MIN_UNDEQUEUED_BUFFERS <= n <= NUM_BUFFER_SLOTS
  }

  predicate NoneDequeued(q: State) {
    forall i | 0 <= i < |q.slots| :: q.slots[i].state != Dequeued
  }

  function Put(q: State, i: nat, s: Slot): State
    requires i < |q.slots|
  {
    q.(slots := q.slots[i := s])
  }

  function Released(q: State, i: nat, frame: nat): (State, Answer)
    requires i < |q.slots|
  {
    var s := q.slots[i];
    if s.frame != frame then (q, Stale)
    else if s.state == Acquired then (Put(q, i, s.(state := Free)), Done)
    else if s.needsCleanup then (Put(q, i, s.(needsCleanup := false)), Stale)
    else (q, Refused)
  }

  predicate WellFormed(q: State) {
    |q.slots| == NUM_BUFFER_SLOTS && ValidCount(q.count)
  }

  /** One call, and what it returns. */
  function Step(q: State, op: Op): (r: (State, Answer))
    requires WellFormed(q)
    ensures WellFormed(r.0)
  {
    match op
    case DequeueBuffer =>
      var i := LeastRecent(q.slots, Limit(q));
      if !Usable(q) || i < 0 then (q, Refused)
      else (Put(q, i, q.slots[i].(state := Dequeued)), Got(i, q.slots[i].buffer == 0))
    case RequestBuffer(i) =>
      if !Usable(q) || !InState(q, i, Dequeued) then (q, Refused) else (Requested(q, i), Done)
    case QueueBuffer(i, async) =>
      if !Usable(q) || !InState(q, i, Dequeued) || q.slots[i].buffer == 0 then (q, Refused)
      else (Enqueued(q, NewItem(q, i, async)), Sent(NewItem(q, i, async)))
    case CancelBuffer(i) =>
      if !Usable(q) || !InState(q, i, Dequeued) then (q, Refused) else (Put(q, i, q.slots[i].(state := Free)), Done)
    case AcquireBuffer =>
      var pending := Pending(q.slots, q.items);
      if pending == [] then (q.(items := []), Refused)
      else (Taken(q, pending), Given(pending[0], if q.slots[pending[0].slot].acquireCalled then 0 else pending[0].buffer))
    case ReleaseBuffer(i, frame) => if i >= |q.slots| then (q, Refused) else Released(q, i, frame)
    case SetBufferCount(n) =>
      if !Usable(q) || !NoneDequeued(q) || !ValidCount(n) then (q, Refused)
      else (q.(slots := FreedAll(q.slots), count := n), Done)
    case Connect => if q.connected || q.abandoned || !q.consumer then (q, Refused) else (q.(connected := true), Done)
    case Disconnect => if !Usable(q) then (q, Refused) else (q.(connected := false), Done)
    case ConsumerConnect => if q.consumer || q.abandoned then (q, Refused) else (q.(consumer := true), Done)
    case ConsumerDisconnect =>
      if !q.consumer then (q, Refused)
      else (q.(slots := FreedAll(q.slots), consumer := false, abandoned := true), Done)
  }
}
