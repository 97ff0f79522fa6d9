/**
 Camera::Yvyu2Yuv420: packed 4:2:2 (Y, Cb, Y, Cr per pair of pixels) to planar 4:2:0 with
 the plane of Cr first. Bytes are unsigned, as `char` is on the targets of this code.
 */
module PlanarConverter {
  import opened Bits
  import opened Grid

  /** Frame sizes are even, as 4:2:0 sampling needs. */
  predicate EvenSize(w: nat, h: nat) {
    w % 2 == 0 && h % 2 == 0
  }

  /** The number of macropixels (pairs of pixels) in `h` rows. */
  function Macros(w: nat, h: nat): nat {
    RowStart(w / 2, h)
  }

  /** The macropixel at row `r` and pair `c`, counted over the whole frame. */
  function Macro(w: nat, r: nat, c: nat): nat {
    RowStart(w / 2, r) + c
  }

  /** The length of a packed frame: four bytes a macropixel. */
  function PackedSize(w: nat, h: nat): nat {
    4 * Macros(w, h)
  }

  /** Where the Cr plane starts: after two luma bytes a macropixel. */
  function FirstChroma(w: nat, h: nat): nat {
    2 * Macros(w, h)
  }

  /** Where the Cb plane starts; a chroma plane has a byte for every macropixel of every second row. */
  function SecondChroma(w: nat, h: nat): nat {
    FirstChroma(w, h) + Macros(w, h / 2)
  }

  function PlanarSize(w: nat, h: nat): nat {
    SecondChroma(w, h) + Macros(w, h / 2)
  }

  /** These are the sizes that the source computes by multiplication. */
  lemma Sizes(w: nat, h: nat)
    requires EvenSize(w, h)
    ensures PackedSize(w, h) == 2 * w * h
    ensures FirstChroma(w, h) == w * h
    ensures SecondChroma(w, h) == w * h + w * h / 4
    ensures PlanarSize(w, h) == w * h * 3 / 2
  {
    RowStartTwice(w / 2, h / 2);
    RowStartIs(w / 2, h / 2);
    AreaOf(w / 2, h / 2);
  }

  lemma AreaOf(a: nat, b: nat)
    ensures (2 * a) * (2 * b) == 4 * (b * a)
    ensures 2 * (2 * a) * (2 * b) == 8 * (b * a)
  {
  }

  /** The macropixel whose chroma is kept as sample `k` of a chroma plane. */
  function ChromaMacro(w: nat, h: nat, k: nat): (m: nat)
    requires EvenSize(w, h) && k < Macros(w, h / 2)
    ensures m < Macros(w, h)
  {
    assert w >= 2 by {
      if w < 2 {
        RowStartIs(w / 2, h / 2);
      }
    }
    RowBelow(w / 2, h / 2, k);
    RowFits(w / 2, 2 * RowOf(w / 2, k), h);
    Macro(w, 2 * RowOf(w / 2, k), ColumnOf(w / 2, k))
  }

  lemma ChromaMacroAt(w: nat, h: nat, r: nat, c: nat)
    requires EvenSize(w, h) && r < h / 2 && c < w / 2
    ensures Macro(w, r, c) < Macros(w, h / 2)
    ensures ChromaMacro(w, h, Macro(w, r, c)) == Macro(w, 2 * r, c)
  {
    RowFits(w / 2, r, h / 2);
    RowUnique(w / 2, r, c);
  }

  /**
   The planar frame as the format defines it: the luma of every pixel, then the Cr and then the
   Cb of every second row's macropixels.
   */
  function PlanarByte(packed: seq<Byte>, w: nat, h: nat, k: nat): Byte
    requires EvenSize(w, h) && |packed| >= PackedSize(w, h)
    requires k < PlanarSize(w, h)
  {
    if k < FirstChroma(w, h) then
      packed[2 * k]
    else if k < SecondChroma(w, h) then
      packed[4 * ChromaMacro(w, h, k - FirstChroma(w, h)) + 3]
    else
      packed[4 * ChromaMacro(w, h, k - SecondChroma(w, h)) + 1]
  }

  /** The first `n` bytes of the planar frame. */
  function PlanarPart(packed: seq<Byte>, w: nat, h: nat, n: nat): (part: seq<Byte>)
    requires EvenSize(w, h) && |packed| >= PackedSize(w, h) && n <= PlanarSize(w, h)
    ensures |part| == n
  {
    if n == 0 then [] else PlanarPart(packed, w, h, n - 1) + [PlanarByte(packed, w, h, n - 1)]
  }

  function Planar(packed: seq<Byte>, w: nat, h: nat): (planar: seq<Byte>)
    requires EvenSize(w, h) && |packed| >= PackedSize(w, h)
    ensures |planar| == PlanarSize(w, h)
  {
    PlanarPart(packed, w, h, PlanarSize(w, h))
  }

  lemma {:induction false} PartAt(packed: seq<Byte>, w: nat, h: nat, n: nat, k: nat)
    requires EvenSize(w, h) && |packed| >= PackedSize(w, h) && k < n <= PlanarSize(w, h)
    ensures PlanarPart(packed, w, h, n)[k] == PlanarByte(packed, w, h, k)
  {
    if k < n - 1 {
      PartAt(packed, w, h, n - 1, k);
    }
  }

  /** Byte `k` of the planar frame. */
  lemma PlanarAt(packed: seq<Byte>, w: nat, h: nat, k: nat)
    requires EvenSize(w, h) && |packed| >= PackedSize(w, h) && k < PlanarSize(w, h)
    ensures Planar(packed, w, h)[k] == PlanarByte(packed, w, h, k)
  {
    PartAt(packed, w, h, PlanarSize(w, h), k);
  }

  lemma ChromaBytes(packed: seq<Byte>, w: nat, h: nat, s: nat)
    requires EvenSize(w, h) && |packed| >= PackedSize(w, h) && s < Macros(w, h / 2)
    ensures FirstChroma(w, h) + s < SecondChroma(w, h) <= SecondChroma(w, h) + s < PlanarSize(w, h)
    ensures 4 * ChromaMacro(w, h, s) + 3 < |packed|
    ensures Planar(packed, w, h)[FirstChroma(w, h) + s] == packed[4 * ChromaMacro(w, h, s) + 3]
    ensures Planar(packed, w, h)[SecondChroma(w, h) + s] == packed[4 * ChromaMacro(w, h, s) + 1]
  {
    PlanarAt(packed, w, h, FirstChroma(w, h) + s);
    PlanarAt(packed, w, h, SecondChroma(w, h) + s);
  }

  /** The chroma planes hold the chroma of the even rows. */
  lemma ChromaOfPlanar(packed: seq<Byte>, w: nat, h: nat, r: nat, c: nat)
    requires EvenSize(w, h) && |packed| >= PackedSize(w, h) && r < h / 2 && c < w / 2
    ensures var k := Macro(w, r, c);
            && FirstChroma(w, h) + k < SecondChroma(w, h) <= SecondChroma(w, h) + k < PlanarSize(w, h)
            && 4 * Macro(w, 2 * r, c) + 3 < |packed|
            && Planar(packed, w, h)[FirstChroma(w, h) + k] == packed[4 * Macro(w, 2 * r, c) + 3]
            && Planar(packed, w, h)[SecondChroma(w, h) + k] == packed[4 * Macro(w, 2 * r, c) + 1]
  {
    ChromaMacroAt(w, h, r, c);
    ChromaBytes(packed, w, h, Macro(w, r, c));
  }

  /** Chroma samples written when the loops stand at row `i`, pair `j`. */
  function KeptSamples(w: nat, i: nat, j: nat): nat {
    RowStart(w / 2, (i + 1) / 2) + (if i % 2 == 0 then j else 0)
  }

  lemma SourceIndex(w: nat, i: nat)
    requires w % 2 == 0
    ensures i * w / 2 == RowStart(w / 2, i)
  {
    RowStartIs(w / 2, i);
    assert i * w == 2 * (i * (w / 2));
  }

  /** The cursor after `j` macropixels of the row, if they move it. */
  function Moved(cursor: nat, keep: bool, j: nat): nat {
    cursor + if keep then j else 0
  }

  /** Where the three cursors stand when the loops are at row `i`, pair `j`. */
  predicate At(w: nat, h: nat, i: nat, j: nat, y: nat, u: nat, v: nat) {
    && y == 2 * Macro(w, i, j)
    && u == FirstChroma(w, h) + KeptSamples(w, i, j)
    && v == SecondChroma(w, h) + KeptSamples(w, i, j)
  }

  /** The offsets that the cursors have passed, for planes of chroma starting at `p1` and `p2`. */
  predicate Passed(p1: nat, p2: nat, y: nat, u: nat, v: nat, k: int) {
    0 <= k < y || p1 <= k < u || p2 <= k < v
  }

  /** `out` holds the target frame at every passed offset, and the old bytes elsewhere. */
  ghost predicate Converted(out: seq<Byte>, was: seq<Byte>, target: seq<Byte>, p1: nat, p2: nat, y: nat, u: nat, v: nat) {
    && |out| == |was| >= |target|
    && forall k | 0 <= k < |out| ::
         out[k] == if Passed(p1, p2, y, u, v, k) && k < |target| then target[k] else was[k]
  }

  /** `writes` lists each passed offset once. */
  ghost predicate Logged(writes: seq<int>, p1: nat, p2: nat, y: nat, u: nat, v: nat) {
    && |writes| == y + (u - p1) + (v - p2)
    && forall k :: k in writes <==> Passed(p1, p2, y, u, v, k)
  }

  /** What the target frame holds where one row of `n` macropixels goes, and what it is taken from. */
  ghost predicate RowTarget(target: seq<Byte>, packed: seq<Byte>, n: nat, keep: bool, p1: nat, p2: nat, y: nat, u: nat, v: nat) {
    && y + 2 * n <= p1 <= u && p2 <= v
    && 2 * y + 4 * n <= |packed| && p1 <= p2 <= |target|
    && (forall k | y <= k < y + 2 * n :: target[k] == packed[2 * k])
    && (keep ==>
          && u + n <= p2 && v + n <= |target|
          && (forall k | u <= k < u + n :: target[k] == packed[2 * y + 4 * (k - u) + 3])
          && (forall k | v <= k < v + n :: target[k] == packed[2 * y + 4 * (k - v) + 1]))
  }

  /** The target of macropixel `j` of the row. */
  lemma PairTarget(target: seq<Byte>, packed: seq<Byte>, n: nat, keep: bool, p1: nat, p2: nat, y: nat, u: nat, v: nat, j: nat)
    requires RowTarget(target, packed, n, keep, p1, p2, y, u, v) && j < n
    ensures var at := 2 * y + 4 * j; var kept := if keep then j else 0;
            && at + 3 < |packed| && y + 2 * j + 1 < p1 <= u + kept && p2 <= v + kept && p1 <= p2 <= |target|
            && target[y + 2 * j] == packed[at] && target[y + 2 * j + 1] == packed[at + 2]
            && (keep ==> u + j < p2 && v + j < |target| && target[u + j] == packed[at + 3] && target[v + j] == packed[at + 1])
  {
  }

  /** Only bytes before offset `n` have been read. */
  ghost predicate FetchedBelow(fetched: seq<int>, n: nat) {
    forall a :: a in fetched ==> 0 <= a < n
  }

  lemma FetchedMore(fetched: seq<int>, more: seq<int>, n: nat, n': nat)
    requires FetchedBelow(fetched, n) && n <= n' && FetchedBelow(more, n')
    ensures FetchedBelow(fetched + more, n')
  {
  }

  /** The bytes that belong at the three cursors. */
  lemma CursorBytes(packed: seq<Byte>, w: nat, h: nat, i: nat, j: nat, y: nat, u: nat, v: nat)
    requires EvenSize(w, h) && |packed| >= PackedSize(w, h) && i < h && j < w / 2 && At(w, h, i, j, y, u, v)
    requires i % 2 == 0
    ensures 2 * y + 3 < |packed| && u < v < PlanarSize(w, h)
    ensures Planar(packed, w, h)[u] == packed[2 * y + 3] && Planar(packed, w, h)[v] == packed[2 * y + 1]
  {
    RowFits(w / 2, i, h);
    ChromaOfPlanar(packed, w, h, i / 2, j);
  }

  /** Where a row starts and ends in the planes. */
  lemma RowRoom(w: nat, h: nat, i: nat, y: nat, u: nat, v: nat)
    requires EvenSize(w, h) && i < h && At(w, h, i, 0, y, u, v)
    ensures y + 2 * (w / 2) <= FirstChroma(w, h) <= u && SecondChroma(w, h) <= v
    ensures i % 2 == 0 ==> u + w / 2 <= SecondChroma(w, h) && v + w / 2 <= PlanarSize(w, h)
    ensures 2 * y + 4 * (w / 2) <= PackedSize(w, h)
    ensures FirstChroma(w, h) <= SecondChroma(w, h) <= PlanarSize(w, h)
  {
    RowFits(w / 2, i, h);
    RowStartTwice(w / 2, h / 2);
    if i % 2 == 0 {
      RowFits(w / 2, i / 2, h / 2);
    }
  }

  /** The planar frame is such a target for every row. */
  lemma RowOfPlanar(packed: seq<Byte>, w: nat, h: nat, i: nat, y: nat, u: nat, v: nat)
    requires EvenSize(w, h) && |packed| >= PackedSize(w, h) && i < h && At(w, h, i, 0, y, u, v)
    ensures RowTarget(Planar(packed, w, h), packed, w / 2, i % 2 == 0, FirstChroma(w, h), SecondChroma(w, h), y, u, v)
  {
    var target := Planar(packed, w, h);
    RowRoom(w, h, i, y, u, v);
    forall k | y <= k < y + 2 * (w / 2)
      ensures target[k] == packed[2 * k]
    {
      PlanarAt(packed, w, h, k);
    }
    if i % 2 == 0 {
      forall j | 0 <= j < w / 2
        ensures target[u + j] == packed[2 * y + 4 * j + 3] && target[v + j] == packed[2 * y + 4 * j + 1]
      {
        CursorBytes(packed, w, h, i, j, y + 2 * j, u + j, v + j);
      }
      assert forall k | u <= k < u + w / 2 :: target[k] == target[u + (k - u)];
      assert forall k | v <= k < v + w / 2 :: target[k] == target[v + (k - v)];
    }
  }

  /** The cursors at the end of a row are those at the start of the next one. */
  lemma NextRow(w: nat, h: nat, i: nat, y: nat, u: nat, v: nat, n: nat, keep: bool)
    requires At(w, h, i, 0, y, u, v) && n == w / 2 && keep == (i % 2 == 0)
    ensures At(w, h, i + 1, 0, y + 2 * n, Moved(u, keep, n), Moved(v, keep, n))
  {
    RowStartStep(n, i);
    RowStartStep(n, (i + 1) / 2);
    if keep {
      RowStartStep(n, i / 2);
    }
  }

  /** After the last row the cursors stand at the ends of the planes, and all of the target is there. */
  lemma Complete(w: nat, h: nat, out: seq<Byte>, was: seq<Byte>, target: seq<Byte>, writes: seq<int>, y: nat, u: nat, v: nat)
    requires EvenSize(w, h) && At(w, h, h, 0, y, u, v) && |target| == PlanarSize(w, h)
    requires Converted(out, was, target, FirstChroma(w, h), SecondChroma(w, h), y, u, v)
    requires Logged(writes, FirstChroma(w, h), SecondChroma(w, h), y, u, v)
    ensures y == FirstChroma(w, h) && u == SecondChroma(w, h) && v == PlanarSize(w, h)
    ensures out[..|target|] == target && out[|target|..] == was[|target|..]
    ensures |writes| == |target| && forall k :: k in writes <==> 0 <= k < |target|
  {
  }

  /** The cursors before the first row. */
  method PlaneStarts(width: nat, height: nat) returns (y: nat, u: nat, v: nat)
    requires EvenSize(width, height)
    ensures y == 0 && u == FirstChroma(width, height) && v == SecondChroma(width, height)
  {
    Sizes(width, height);
    y := 0;
    u := width * height;
    v := u + width * height / 4;
  }

  /** The number of the first macropixel of row `i`. */
  method RowIndex(width: nat, i: nat) returns (start: nat)
    requires width % 2 == 0
    ensures start == Macro(width, i, 0)
  {
    SourceIndex(width, i);
    start := i * width / 2;
  }

  /** The offsets stored for one macropixel. */
  function PairWrites(y: nat, u: nat, v: nat, keep: bool): seq<int> {
    if keep then [y, y + 1, u, v] else [y, y + 1]
  }

  /** `out` after the stores of one macropixel, whose chroma is kept only if `keep`. */
  function Stored(out: seq<Byte>, y: nat, u: nat, v: nat, pair: seq<Byte>, keep: bool): seq<Byte>
    requires |pair| == 4 && y + 1 < |out| && (keep ==> u < |out| && v < |out|)
  {
    var lumas := out[y := pair[0]][y + 1 := pair[2]];
    if keep then lumas[u := pair[3]][v := pair[1]] else lumas
  }

  /** The bytes of one macropixel belong at the cursors. */
  ghost predicate TargetPair(target: seq<Byte>, pair: seq<Byte>, p1: nat, p2: nat, y: nat, u: nat, v: nat, keep: bool) {
    && |pair| == 4 && y + 1 < p1 <= u && p2 <= v && p1 <= p2 <= |target|
    && target[y] == pair[0] && target[y + 1] == pair[2]
    && (keep ==> u < p2 && v < |target| && target[u] == pair[3] && target[v] == pair[1])
  }

  lemma ConvertedStep(out: seq<Byte>, was: seq<Byte>, target: seq<Byte>, p1: nat, p2: nat,
                      y: nat, u: nat, v: nat, pair: seq<Byte>, keep: bool, y': nat, u': nat, v': nat)
    requires TargetPair(target, pair, p1, p2, y, u, v, keep) && Converted(out, was, target, p1, p2, y, u, v)
    requires y' == y + 2 && u' == Moved(u, keep, 1) && v' == Moved(v, keep, 1)
    ensures Converted(Stored(out, y, u, v, pair, keep), was, target, p1, p2, y', u', v')
  {
  }

  lemma LoggedStep(writes: seq<int>, p1: nat, p2: nat, y: nat, u: nat, v: nat, keep: bool, y': nat, u': nat, v': nat)
    requires Logged(writes, p1, p2, y, u, v) && p1 <= u && p2 <= v
    requires y' == y + 2 && u' == Moved(u, keep, 1) && v' == Moved(v, keep, 1)
    ensures Logged(writes + PairWrites(y, u, v, keep), p1, p2, y', u', v')
  {
  }

  /** What has been converted and logged when macropixel `j` of the row is next. */
  ghost predicate RowAt(out: seq<Byte>, was: seq<Byte>, target: seq<Byte>, keep: bool, p1: nat, p2: nat,
                        y0: nat, u0: nat, v0: nat, j: nat, writes: seq<int>) {
    && Converted(out, was, target, p1, p2, y0 + 2 * j, Moved(u0, keep, j), Moved(v0, keep, j))
    && Logged(writes, p1, p2, y0 + 2 * j, Moved(u0, keep, j), Moved(v0, keep, j))
  }

  /** Storing macropixel `j` of the row goes on with the conversion. */
  lemma PairStored(out: seq<Byte>, was: seq<Byte>, target: seq<Byte>, packed: seq<Byte>, n: nat, keep: bool, p1: nat, p2: nat,
                   y0: nat, u0: nat, v0: nat, j: nat, writes: seq<int>, pair: seq<Byte>)
    requires RowTarget(target, packed, n, keep, p1, p2, y0, u0, v0) && j < n
    requires 2 * y0 + 4 * j + 3 < |packed| && pair == packed[2 * y0 + 4 * j..2 * y0 + 4 * j + 4]
    requires RowAt(out, was, target, keep, p1, p2, y0, u0, v0, j, writes)
    ensures var y, u, v := y0 + 2 * j, Moved(u0, keep, j), Moved(v0, keep, j);
            && y + 1 < |out| && (keep ==> u < |out| && v < |out|)
            && RowAt(Stored(out, y, u, v, pair, keep), was, target, keep, p1, p2, y0, u0, v0, j + 1, writes + PairWrites(y, u, v, keep))
  {
    PairInTarget(target, packed, n, keep, p1, p2, y0, u0, v0, j, pair);
    PairGoesOn(out, was, target, keep, p1, p2, y0, u0, v0, j, writes, pair);
  }

  lemma PairInTarget(target: seq<Byte>, packed: seq<Byte>, n: nat, keep: bool, p1: nat, p2: nat,
                     y0: nat, u0: nat, v0: nat, j: nat, pair: seq<Byte>)
    requires RowTarget(target, packed, n, keep, p1, p2, y0, u0, v0) && j < n
    requires 2 * y0 + 4 * j + 3 < |packed| && pair == packed[2 * y0 + 4 * j..2 * y0 + 4 * j + 4]
    ensures TargetPair(target, pair, p1, p2, y0 + 2 * j, Moved(u0, keep, j), Moved(v0, keep, j), keep)
  {
    PairTarget(target, packed, n, keep, p1, p2, y0, u0, v0, j);
    PairBytes(packed, pair, 2 * y0 + 4 * j);
  }

  lemma PairGoesOn(out: seq<Byte>, was: seq<Byte>, target: seq<Byte>, keep: bool, p1: nat, p2: nat,
                   y0: nat, u0: nat, v0: nat, j: nat, writes: seq<int>, pair: seq<Byte>)
    requires RowAt(out, was, target, keep, p1, p2, y0, u0, v0, j, writes)
    requires TargetPair(target, pair, p1, p2, y0 + 2 * j, Moved(u0, keep, j), Moved(v0, keep, j), keep)
    ensures var y, u, v := y0 + 2 * j, Moved(u0, keep, j), Moved(v0, keep, j);
            && y + 1 < |out| && (keep ==> u < |out| && v < |out|)
            && RowAt(Stored(out, y, u, v, pair, keep), was, target, keep, p1, p2, y0, u0, v0, j + 1, writes + PairWrites(y, u, v, keep))
  {
    var y, u, v := y0 + 2 * j, Moved(u0, keep, j), Moved(v0, keep, j);
    var y', u', v' := y0 + 2 * (j + 1), Moved(u0, keep, j + 1), Moved(v0, keep, j + 1);
    ConvertedStep(out, was, target, p1, p2, y, u, v, pair, keep, y', u', v');
    LoggedStep(writes, p1, p2, y, u, v, keep, y', u', v');
  }

  lemma PairBytes(packed: seq<Byte>, pair: seq<Byte>, at: nat)
    requires at + 4 <= |packed| && pair == packed[at..at + 4]
    ensures pair[0] == packed[at] && pair[1] == packed[at + 1] && pair[2] == packed[at + 2] && pair[3] == packed[at + 3]
  {
  }

  /** The stores of one macropixel, with the cursors moved on. */
  method StorePair(yuv420: array<Byte>, y0: nat, u0: nat, v0: nat, y1: Byte, cb: Byte, y2: Byte, cr: Byte, keep: bool)
    returns (y: nat, u: nat, v: nat)
    requires y0 + 1 < yuv420.Length && (keep ==> u0 < yuv420.Length && v0 < yuv420.Length)
    modifies yuv420
    ensures yuv420[..] == Stored(old(yuv420[..]), y0, u0, v0, [y1, cb, y2, cr], keep)
    ensures y == y0 + 2 && u == Moved(u0, keep, 1) && v == Moved(v0, keep, 1)
  {
    y, u, v := y0, u0, v0;
    yuv420[y] := y1;
    y := y + 1;
    yuv420[y] := y2;
    y := y + 1;
    if keep {
      yuv420[u] := cr;
      u := u + 1;
      yuv420[v] := cb;
      v := v + 1;
    }
  }

  /** The body of the inner loop, at macropixel `j` of the row. */
  method ConvertPair(yvyu: array<Byte>, yuv420: array<Byte>, at: nat, ghost n: nat, keep: bool, ghost y0: nat, ghost u0: nat, ghost v0: nat,
                     ghost j: nat, y1: nat, u1: nat, v1: nat, ghost was: seq<Byte>, ghost target: seq<Byte>, ghost p1: nat, ghost p2: nat,
                     ghost writes0: seq<int>)
    returns (y: nat, u: nat, v: nat, ghost writes: seq<int>)
    requires yvyu != yuv420 && j < n && RowTarget(target, yvyu[..], n, keep, p1, p2, y0, u0, v0)
    requires at == 2 * y0 + 4 * j && y1 == y0 + 2 * j && u1 == Moved(u0, keep, j) && v1 == Moved(v0, keep, j)
    requires RowAt(yuv420[..], was, target, keep, p1, p2, y0, u0, v0, j, writes0)
    modifies yuv420
    ensures y == y1 + 2 && u == Moved(u1, keep, 1) && v == Moved(v1, keep, 1)
    ensures RowAt(yuv420[..], was, target, keep, p1, p2, y0, u0, v0, j + 1, writes)
  {
    var luma0, cb, luma1, cr := yvyu[at], yvyu[at + 1], yvyu[at + 2], yvyu[at + 3];
    PairStored(yuv420[..], was, target, yvyu[..], n, keep, p1, p2, y0, u0, v0, j, writes0, [luma0, cb, luma1, cr]);
    writes := writes0 + PairWrites(y1, u1, v1, keep);
    y, u, v := StorePair(yuv420, y1, u1, v1, luma0, cb, luma1, cr, keep);
  }

  /** The inner loop of the converter: one row of macropixels, the first of them number `start`. */
  method ConvertRow(yvyu: array<Byte>, yuv420: array<Byte>, width: nat, start: nat, keep: bool, y0: nat, u0: nat, v0: nat,
                    ghost was: seq<Byte>, ghost target: seq<Byte>, ghost p1: nat, ghost p2: nat, ghost writes0: seq<int>)
    returns (y: nat, u: nat, v: nat, ghost fetched: seq<int>, ghost writes: seq<int>)
    requires yvyu != yuv420 && 2 * start == y0
    requires RowTarget(target, yvyu[..], width / 2, keep, p1, p2, y0, u0, v0)
    requires Converted(yuv420[..], was, target, p1, p2, y0, u0, v0)
    requires Logged(writes0, p1, p2, y0, u0, v0)
    modifies yuv420
    ensures y == y0 + 2 * (width / 2)
    ensures u == Moved(u0, keep, width / 2) && v == Moved(v0, keep, width / 2)
    ensures Converted(yuv420[..], was, target, p1, p2, y, u, v)
    ensures Logged(writes, p1, p2, y, u, v)
    ensures FetchedBelow(fetched, 2 * y0 + 4 * (width / 2))
  {
    y, u, v := y0, u0, v0;
    fetched, writes := [], writes0;
    for j := 0 to width / 2
      invariant y == y0 + 2 * j
      invariant u == Moved(u0, keep, j) && v == Moved(v0, keep, j)
      invariant RowAt(yuv420[..], was, target, keep, p1, p2, y0, u0, v0, j, writes)
      invariant FetchedBelow(fetched, 2 * y0 + 4 * j)
    {
      var at := (start + j) * 4;
      y, u, v, writes := ConvertPair(yvyu, yuv420, at, width / 2, keep, y0, u0, v0, j, y, u, v, was, target, p1, p2, writes);
      FetchedMore(fetched, [at, at + 1, at + 2, at + 3], 2 * y0 + 4 * j, 2 * y0 + 4 * (j + 1));
      fetched := fetched + [at, at + 1, at + 2, at + 3];
    }
  }

  /**
   `fetched` and `writes` log every access to the two buffers: no byte outside the packed frame is
   read, every byte of the planar frame is written once, and the cursors `y`, `u`, `v` end where
   their planes end.
   */
  method Yvyu2Yuv420(yvyu: array<Byte>, yuv420: array<Byte>, width: nat, height: nat)
    returns (y: nat, u: nat, v: nat, ghost fetched: seq<int>, ghost writes: seq<int>)
    requires EvenSize(width, height) && yvyu != yuv420
    requires yvyu.Length >= PackedSize(width, height)
    requires yuv420.Length >= PlanarSize(width, height)
    modifies yuv420
    ensures yuv420[..PlanarSize(width, height)] == Planar(yvyu[..], width, height)
    ensures yuv420[PlanarSize(width, height)..] == old(yuv420[PlanarSize(width, height)..])
    ensures y == FirstChroma(width, height) && u == SecondChroma(width, height) && v == PlanarSize(width, height)
    ensures FetchedBelow(fetched, PackedSize(width, height))
    ensures |writes| == PlanarSize(width, height)
    ensures forall k :: k in writes <==> 0 <= k < PlanarSize(width, height)
  {
    ghost var packed, was := yvyu[..], yuv420[..];
    ghost var target := Planar(packed, width, height);
    ghost var p1, p2 := FirstChroma(width, height), SecondChroma(width, height);
    y, u, v := PlaneStarts(width, height);
    fetched, writes := [], [];
    for i := 0 to height
      invariant At(width, height, i, 0, y, u, v)
      invariant Converted(yuv420[..], was, target, p1, p2, y, u, v)
      invariant Logged(writes, p1, p2, y, u, v)
      invariant FetchedBelow(fetched, PackedSize(width, height))
    {
      RowRoom(width, height, i, y, u, v);
      RowOfPlanar(packed, width, height, i, y, u, v);
      NextRow(width, height, i, y, u, v, width / 2, i % 2 == 0);
      ghost var read;
      var start := RowIndex(width, i);
      y, u, v, read, writes := ConvertRow(yvyu, yuv420, width, start, i % 2 == 0, y, u, v, was, target, p1, p2, writes);
      FetchedMore(fetched, read, PackedSize(width, height), PackedSize(width, height));
      fetched := fetched + read;
    }
    Complete(width, height, yuv420[..], was, target, writes, y, u, v);
  }
}
