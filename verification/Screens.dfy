/**
 The capture protocol and the pixels together: what is in the memory of every encoder window in every
 interleaving of the capture thread with the control threads.
 */
module Screens {
  import opened Bits
  import opened Grid
  import opened Sequences
  import opened Wrappers
  import opened PlanarConverter
  import opened Crop
  import opened CropCopy
  import opened Windows
  import opened Capture
  import opened CaptureBuffers

  /**
   The frame size and the sizes of the windows, what the driver has put into buffer `b` for frame
   `k` since the last open (`data(b, k)`), and what lies behind the image in memory.
   */
  datatype World = World(size: Size, windows: Surface -> Size, data: (nat, nat) -> seq<Byte>, behind: seq<Byte>)

  ghost predicate Good(w: World) {
    EvenSize(w.size.w, w.size.h) && forall b: nat, k: nat :: |w.data(b, k)| >= PackedSize(w.size.w, w.size.h)
  }

  /** The image that is drawn from buffer `b` for frame `k`. */
  function Picture(w: World, b: nat, k: nat): seq<Byte>
    requires |w.data(b, k)| >= PackedSize(w.size.w, w.size.h)
  {
    FrameImage(w.data(b, k), w.size) + w.behind
  }

  /** The posting of a frame: to which window, from which buffer, as which frame. */
  datatype Post = Post(window: Surface, buffer: nat, frame: nat)

  /** The post that a step makes, if it is a visit of the encoder loop whose window could be locked. */
  function PostOf(s: State, e: Step): Option<Post> {
    if e.Proceed? && e.a == Window(true) && s.local.pc.EncoderNext? && s.local.pc.i < |s.shared.encoders| then
      Some(Post(s.shared.encoders[s.local.pc.i], s.local.frame.buffer, |s.log.frames|))
    else None
  }

  /** The last post to a window since the last successful open. */
  function LastPost(s: State, es: seq<Step>, x: Surface): Option<Post>
    requires Run(s, es)
  {
    if es == [] then None
    else
      var post := PostOf(Reached(s, Front(es)), Last(es));
      if Last(es) == Open(true) then None
      else if post.Some? && post.value.window == x then post
      else LastPost(s, Front(es), x)
  }

  /** The window and the memory behind the image are large enough for its copies. */
  predicate Roomy(w: World, x: Surface, memory: seq<Byte>) {
    Room(|memory|, 8 * Macros(w.size.w, w.size.h) + |w.behind|, w.size, w.windows(x))
  }

  /** What is in the memory of window `x` after a run. */
  ghost function MemoryAfter(w: World, s: State, es: seq<Step>, x: Surface, memory: seq<Byte>): (after: seq<Byte>)
    requires Good(w) && Run(s, es) && Roomy(w, x, memory)
    ensures |after| == |memory|
  {
    if es == [] then memory
    else
      var before := MemoryAfter(w, s, Front(es), x, memory);
      var post := PostOf(Reached(s, Front(es)), Last(es));
      if post.Some? && post.value.window == x then
        Shown(before, Picture(w, post.value.buffer, post.value.frame), w.size, w.windows(x))
      else before
  }

  /** The memory of a window that the frame covers starts with this picture's crop. */
  ghost predicate Displays(w: World, x: Surface, memory: seq<Byte>, b: nat, k: nat)
    requires Good(w) && Roomy(w, x, memory) && Covers(w.size, w.windows(x))
  {
    memory[..RowStart(PIXEL, Area(w.windows(x)))] == CroppedBytes(Picture(w, b, k), w.size, w.windows(x), PIXEL)
  }

  lemma ShownDisplays(w: World, x: Surface, before: seq<Byte>, b: nat, k: nat)
    requires Good(w) && Roomy(w, x, before) && Covers(w.size, w.windows(x))
    ensures |Shown(before, Picture(w, b, k), w.size, w.windows(x))| == |before|
    ensures Displays(w, x, Shown(before, Picture(w, b, k), w.size, w.windows(x)), b, k)
  {
  }

  /** After a post the window displays the posted frame until the next one. */
  lemma {:induction false} DisplaysLastPost(w: World, s: State, es: seq<Step>, x: Surface, memory: seq<Byte>)
    requires Good(w) && Run(s, es) && Roomy(w, x, memory) && Covers(w.size, w.windows(x))
    ensures LastPost(s, es, x).Some? ==>
              Displays(w, x, MemoryAfter(w, s, es, x, memory), LastPost(s, es, x).value.buffer, LastPost(s, es, x).value.frame)
  {
    if es != [] {
      DisplaysLastPost(w, s, Front(es), x, memory);
      var post := PostOf(Reached(s, Front(es)), Last(es));
      if post.Some? && post.value.window == x {
        ShownDisplays(w, x, MemoryAfter(w, s, Front(es), x, memory), post.value.buffer, post.value.frame);
      }
    }
  }

  /** Without dequeue errors a frame is posted from its buffer in turn. */
  lemma PostInTurn(s: State, e: Step)
    requires TurnsOf(s) && s.log.clean && PostOf(s, e).Some?
    ensures PostOf(s, e).value.buffer == PostOf(s, e).value.frame % BUFFER_NR
  {
  }

  lemma CleanBefore(s: State, e: Step)
    requires CanStep(s, e) && e != Open(true) && DoStep(s, e).log.clean
    ensures s.log.clean
  {
    if e.Proceed? && Drawing(s.local.pc) {
      DrawLogs(s.shared, s.local, s.log, e.a);
    } else if e.Proceed? && s.local.pc != Dequeue {
      LoopLogs(s, e.a);
    } else if !e.Proceed? && !e.Open? && !e.Start? {
      ControlLeaves(s, e);
    }
  }

  lemma {:induction false} PostsTakeTurns(n: nat, es: seq<Step>, x: Surface)
    requires Run(Boot(n), es) && Reached(Boot(n), es).log.clean && LastPost(Boot(n), es, x).Some?
    ensures LastPost(Boot(n), es, x).value.buffer == LastPost(Boot(n), es, x).value.frame % BUFFER_NR
  {
    var before := Reached(Boot(n), Front(es));
    CleanBefore(before, Last(es));
    var post := PostOf(before, Last(es));
    if post.Some? && post.value.window == x {
      TurnAlways(n, Front(es));
      PostInTurn(before, Last(es));
    } else {
      PostsTakeTurns(n, Front(es), x);
    }
  }

  /**
   In every interleaving, if no dequeue has failed since the device was opened: the memory of every
   window that has been posted since starts with the crop of the frame posted last, and that is frame
   `k` as the driver put it into buffer `k` mod 4.
   */
  lemma WindowsDisplayTheirFrames(w: World, n: nat, es: seq<Step>, x: Surface, memory: seq<Byte>)
    requires Good(w) && Run(Boot(n), es) && Reached(Boot(n), es).log.clean
    requires Roomy(w, x, memory) && Covers(w.size, w.windows(x)) && LastPost(Boot(n), es, x).Some?
    ensures var k := LastPost(Boot(n), es, x).value.frame;
            Displays(w, x, MemoryAfter(w, Boot(n), es, x, memory), k % BUFFER_NR, k)
  {
    DisplaysLastPost(w, Boot(n), es, x, memory);
    PostsTakeTurns(n, es, x);
  }
}
