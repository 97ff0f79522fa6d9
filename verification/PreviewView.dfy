/**
 What the preview window shows: the bytes that the copy leaves in its buffer, seen as the three planes
 of the window's own layout.
 */
module PreviewView {
  import opened Bits
  import opened Grid
  import opened PlanarConverter
  import opened Agreement
  import opened Crop
  import opened Preview
  import opened Windows

  /** The window's layout: the strides of luma and chroma rows, and where the chroma planes start. */
  datatype Layout = Layout(luma: nat, chroma: nat, first: nat, second: nat)

  function LayoutOf(stride: nat, height: nat): Layout {
    Layout(stride, Align(stride / 2, 16), stride * height, stride * height + WindowChromaSize(stride, height))
  }

  /** The window's luma plane and its two chroma planes, whose rows are padded to 16 bytes, follow each other and end where the copy ends. */
  lemma LayoutFills(stride: nat, height: nat, chroma: nat, size: nat)
    requires chroma % 16 == 0 && stride / 2 <= chroma < stride / 2 + 16 && size == chroma * height / 2
    ensures LayoutOf(stride, height) == Layout(stride, chroma, stride * height, stride * height + size)
    ensures LayoutOf(stride, height).second + size == CopyLength(stride, height)
  {
    ChromaStrideIs(stride, chroma);
  }

  /** A plane of `h` rows of `w` samples, `stride` apart from offset `off` on, lies inside `n` bytes. */
  predicate PlaneFits(n: nat, off: nat, stride: nat, w: nat, h: nat) {
    w <= stride && (h == 0 || off + RowStart(stride, h - 1) + w <= n)
  }

  predicate Fits(n: nat, w: nat, h: nat, l: Layout) {
    && PlaneFits(n, 0, l.luma, w, h)
    && PlaneFits(n, l.first, l.chroma, w / 2, h / 2)
    && PlaneFits(n, l.second, l.chroma, w / 2, h / 2)
  }

  /** The three planes are seen to be those of the planar frame. */
  predicate ShowsFrame(bits: seq<Byte>, planar: seq<Byte>, w: nat, h: nat, l: Layout)
    requires Fits(|bits|, w, h, l) && |planar| == PlanarSize(w, h)
  {
    && Rows(bits, 0, l.luma, w, h) == planar[..FirstChroma(w, h)]
    && Rows(bits, l.first, l.chroma, w / 2, h / 2) == planar[FirstChroma(w, h)..SecondChroma(w, h)]
    && Rows(bits, l.second, l.chroma, w / 2, h / 2) == planar[SecondChroma(w, h)..]
  }

  /** The window's chroma planes have room for the rows of a buffer of this height. */
  lemma ChromaRoom(chroma: nat, height: nat, h: nat)
    requires chroma % 2 == 0 && h % 2 == 0 && height >= h
    ensures RowStart(chroma, h / 2) <= chroma * height / 2
  {
    var half := chroma / 2;
    RowStartIs(half, height);
    HalvedProduct(chroma, half, height);
    RowStartDouble(half, h / 2);
    RowStartTwice(half, h / 2);
    RowsOrdered(half, 2 * (h / 2), height);
  }

  lemma HalvedProduct(chroma: nat, half: nat, height: nat)
    requires chroma == 2 * half
    ensures chroma * height / 2 == height * half
  {
    assert chroma * height == 2 * (height * half);
    DivUnique(chroma * height, 2, height * half, 0);
  }

  lemma LayoutFits(n: nat, w: nat, h: nat, stride: nat, height: nat)
    requires EvenSize(w, h) && stride >= w && height >= h && n >= CopyLength(stride, height)
    ensures Fits(n, w, h, LayoutOf(stride, height))
  {
    var l := LayoutOf(stride, height);
    ChromaStride(stride, w);
    ChromaRoom(l.chroma, height, h);
    LumaRoom(stride, height, h);
    PlaneRoom(n, 0, stride, w, h, l.first);
    PlaneRoom(n, l.first, l.chroma, w / 2, h / 2, l.second - l.first);
    PlaneRoom(n, l.second, l.chroma, w / 2, h / 2, l.second - l.first);
  }

  lemma ChromaStride(stride: nat, w: nat)
    requires stride >= w
    ensures Align(stride / 2, 16) % 2 == 0 && Align(stride / 2, 16) >= w / 2
  {
    AlignTo16(stride / 2);
    Padding(stride / 2, Align(stride / 2, 16));
    MultipleOf16(Align(stride / 2, 16));
    HalfWidth(stride, w);
  }

  lemma MultipleOf16(a: nat)
    requires a % 16 == 0
    ensures a % 2 == 0
  {
    DivUnique(a, 2, 8 * (a / 16), 0);
  }

  lemma HalfWidth(stride: nat, w: nat)
    requires stride >= w
    ensures stride / 2 >= w / 2
  {
  }

  lemma LumaRoom(stride: nat, height: nat, h: nat)
    requires height >= h
    ensures RowStart(stride, h) <= stride * height
  {
    RowStartIs(stride, height);
    RowsOrdered(stride, h, height);
  }

  lemma PlaneRoom(n: nat, off: nat, stride: nat, w: nat, h: nat, size: nat)
    requires w <= stride && RowStart(stride, h) <= size && off + size <= n
    ensures PlaneFits(n, off, stride, w, h)
  {
    if h > 0 {
      RowStartStep(stride, h - 1);
    }
  }

  /** What the window shows after the copy of a packed frame's planes, and of what lies behind them, into its buffer. */
  predicate PreviewShows(packed: seq<Byte>, behind: seq<Byte>, was: seq<Byte>, w: nat, h: nat, stride: nat, height: nat)
    requires EvenSize(w, h) && |packed| == PackedSize(w, h) && stride >= w && height >= h
    requires CopyLength(stride, height) <= |was| && CopyLength(stride, height) <= PlanarSize(w, h) + |behind|
  {
    LayoutFits(|was|, w, h, stride, height);
    ShowsFrame(Overwritten(was, Planar(packed, w, h) + behind, CopyLength(stride, height)), Planar(packed, w, h), w, h, LayoutOf(stride, height))
  }

  /** The layout of a buffer of the frame's size is that of the planar frame if 32 divides the width. */
  lemma SameLayout(w: nat, h: nat)
    requires w > 0 && h > 0 && EvenSize(w, h) && w % 32 == 0
    ensures LayoutOf(w, h) == Layout(w, w / 2, FirstChroma(w, h), SecondChroma(w, h)) && CopyLength(w, h) == PlanarSize(w, h)
  {
    Sizes(w, h);
    ChromaRowAligned(w);
    CopyMatchesFrame(w, h);
  }

  lemma PlanesSeen(bits: seq<Byte>, planar: seq<Byte>, w: nat, h: nat, l: Layout)
    requires EvenSize(w, h) && |planar| == PlanarSize(w, h) <= |bits| && bits[..|planar|] == planar
    requires l == Layout(w, w / 2, FirstChroma(w, h), SecondChroma(w, h)) && Fits(|bits|, w, h, l)
    ensures ShowsFrame(bits, planar, w, h, l)
  {
    PlaneEnds(w, h);
    PlaneSeen(bits, planar, 0, w, h, l.first);
    PlaneSeen(bits, planar, l.first, w / 2, h / 2, l.second);
    PlaneSeen(bits, planar, l.second, w / 2, h / 2, |planar|);
  }

  lemma PlaneEnds(w: nat, h: nat)
    requires EvenSize(w, h)
    ensures RowStart(w, h) == FirstChroma(w, h)
    ensures FirstChroma(w, h) + RowStart(w / 2, h / 2) == SecondChroma(w, h)
    ensures SecondChroma(w, h) + RowStart(w / 2, h / 2) == PlanarSize(w, h)
  {
    RowStartDouble(w / 2, h);
  }

  /** A plane without margins, from `off` to `end`. */
  lemma PlaneSeen(bits: seq<Byte>, planar: seq<Byte>, off: nat, w: nat, h: nat, end: nat)
    requires |planar| <= |bits| && bits[..|planar|] == planar && off + RowStart(w, h) == end <= |planar|
    ensures PlaneFits(|bits|, off, w, w, h) && Rows(bits, off, w, w, h) == planar[off..end]
  {
    RowsWhole(bits, off, w, h);
    Stretch(bits, planar, off, end);
  }

  lemma Stretch(bits: seq<Byte>, planar: seq<Byte>, i: nat, j: nat)
    requires |planar| <= |bits| && bits[..|planar|] == planar && i <= j <= |planar|
    ensures bits[i..j] == planar[i..j]
  {
    assert bits[..|planar|][i..j] == bits[i..j];
  }

  // ---- A frame with one bright sample.

  /** Planes of zeros with a one at `k`. */
  function Bright(n: nat, k: nat): (planar: seq<Byte>)
    ensures |planar| == n
  {
    seq(n, i => if i == k then 1 else 0)
  }

  /** The first sample of row `i` of a plane. */
  lemma FirstOfRow(bits: seq<Byte>, off: nat, stride: nat, w: nat, h: nat, i: nat)
    requires PlaneFits(|bits|, off, stride, w, h) && i < h && w > 0
    ensures RowStart(w, i) < RowStart(w, h) && off + RowStart(stride, i) < |bits|
    ensures Rows(bits, off, stride, w, h)[RowStart(w, i)] == bits[off + RowStart(stride, i)]
  {
    RowsAt(bits, off, stride, w, h, i);
    SameInStretch(Rows(bits, off, stride, w, h), RowStart(w, i), bits, off + RowStart(stride, i), w, 0);
  }

  /** A luma sample that is looked for in the wrong place. */
  lemma LumaNotShown(bits: seq<Byte>, planar: seq<Byte>, w: nat, h: nat, l: Layout)
    requires w > 0 && h > 0 && EvenSize(w, h) && Fits(|bits|, w, h, l) && |planar| == PlanarSize(w, h)
    requires w < |planar| && l.luma < |bits| && bits[l.luma] != planar[w]
    ensures !ShowsFrame(bits, planar, w, h, l)
  {
    RowStartDouble(w / 2, h);
    FirstOfRow(bits, 0, l.luma, w, h, 1);
    RowStartStep(w, 0);
    RowStartStep(l.luma, 0);
    assert planar[..FirstChroma(w, h)][w] == planar[w];
  }

  /** A chroma plane whose first sample is looked for in the wrong place. */
  lemma ChromaNotShown(bits: seq<Byte>, plane: seq<Byte>, off: nat, stride: nat, w: nat, h: nat)
    requires w > 0 && h > 0 && PlaneFits(|bits|, off, stride, w, h) && |plane| == RowStart(w, h)
    ensures |plane| > 0 && off < |bits|
    ensures bits[off] != plane[0] ==> Rows(bits, off, stride, w, h) != plane
  {
    FirstOfRow(bits, off, stride, w, h, 0);
  }

  lemma ChromaSize(w: nat, h: nat)
    requires w > 0 && h > 0 && EvenSize(w, h)
    ensures w / 2 > 0 && h / 2 > 0 && Macros(w, h / 2) > 0
    ensures w < FirstChroma(w, h)
  {
    RowStartStep(w / 2, 0);
    RowsOrdered(w / 2, 1, h / 2);
    RowStartStep(w / 2, 1);
    RowsOrdered(w / 2, 2, h);
  }

  /** The place of a sample that a window buffer of another layout shows in the place of sample `k`. */
  predicate Displaced(w: nat, h: nat, l: Layout, k: nat, m: nat) {
    m != k && (
      || (k == w && m == l.luma)
      || (k == FirstChroma(w, h) && m == l.first)
      || (k == SecondChroma(w, h) && m == l.second))
  }

  lemma NotShown(bits: seq<Byte>, planar: seq<Byte>, w: nat, h: nat, l: Layout, k: nat, m: nat)
    requires w > 0 && h > 0 && EvenSize(w, h) && Fits(|bits|, w, h, l) && |planar| == PlanarSize(w, h)
    requires Displaced(w, h, l, k, m) && k < |planar| && m < |bits| && bits[m] != planar[k]
    ensures !ShowsFrame(bits, planar, w, h, l)
  {
    ChromaSize(w, h);
    var p1, p2 := FirstChroma(w, h), SecondChroma(w, h);
    if k == w && m == l.luma {
      LumaNotShown(bits, planar, w, h, l);
    } else if k == p1 && m == l.first {
      ChromaNotShown(bits, planar[p1..p2], l.first, l.chroma, w / 2, h / 2);
    } else {
      ChromaNotShown(bits, planar[p2..], l.second, l.chroma, w / 2, h / 2);
    }
  }

  /** Every other layout displaces a sample. */
  lemma Displaces(w: nat, h: nat, stride: nat, height: nat) returns (k: nat, m: nat)
    requires w > 0 && h > 0 && EvenSize(w, h) && stride >= w && height >= h && !CopyInside(w, h, stride, height)
    ensures Displaced(w, h, LayoutOf(stride, height), k, m) && k < PlanarSize(w, h) && m < CopyLength(stride, height)
  {
    var l := LayoutOf(stride, height);
    ChromaSize(w, h);
    Sizes(w, h);
    PlanesBegin(w, h, stride, height);
    if stride > w {
      return w, l.luma;
    }
    if height > h {
      TallerPlane(w, h, height);
      return FirstChroma(w, h), l.first;
    }
    CopyMatchesFrame(w, h);
    return SecondChroma(w, h), l.second;
  }

  lemma TallerPlane(w: nat, h: nat, height: nat)
    requires w > 0 && height > h
    ensures w * height > w * h
  {
    MulMonotone(1, height - h, w);
    assert w * height == w * h + (height - h) * w;
  }

  /** The second row and both chroma planes begin inside the copied bytes. */
  lemma PlanesBegin(w: nat, h: nat, stride: nat, height: nat)
    requires w > 0 && h > 0 && EvenSize(w, h) && stride >= w && height >= h
    ensures var l := LayoutOf(stride, height);
            l.luma < CopyLength(stride, height) && l.first < CopyLength(stride, height) && l.second < CopyLength(stride, height)
  {
    var n, l := CopyLength(stride, height), LayoutOf(stride, height);
    ChromaSize(w, h);
    LayoutFits(n, w, h, stride, height);
    RowStartStep(stride, 0);
    RowsOrdered(stride, 1, h - 1);
  }

  /** What a memory that starts with the planes of a bright sample shows. */
  lemma BrightDisplaced(planar: seq<Byte>, behind: seq<Byte>, was: seq<Byte>, w: nat, h: nat, stride: nat, height: nat, k: nat, m: nat)
    requires w > 0 && h > 0 && EvenSize(w, h) && stride >= w && height >= h
    requires CopyLength(stride, height) <= |was| && CopyLength(stride, height) <= PlanarSize(w, h) + |behind|
    requires Displaced(w, h, LayoutOf(stride, height), k, m) && k < PlanarSize(w, h) && m < CopyLength(stride, height)
    requires planar == Bright(PlanarSize(w, h), k) && behind == Filled(|behind|, 0)
    ensures Fits(|was|, w, h, LayoutOf(stride, height))
    ensures !ShowsFrame(Overwritten(was, planar + behind, CopyLength(stride, height)), planar, w, h, LayoutOf(stride, height))
  {
    LayoutFits(|was|, w, h, stride, height);
    NotShown(Overwritten(was, planar + behind, CopyLength(stride, height)), planar, w, h, LayoutOf(stride, height), k, m);
  }

  /**
   The preview window shows every frame, whatever its buffer held and whatever lies behind the planar
   buffer, exactly if the copy stays inside the planar buffer.
   */
  lemma PreviewShowsExactly(w: nat, h: nat, stride: nat, height: nat, window: nat, k: nat)
    requires w > 0 && h > 0 && EvenSize(w, h) && stride >= w && height >= h
    requires CopyLength(stride, height) <= window && CopyLength(stride, height) <= PlanarSize(w, h) + k
    ensures (forall packed: seq<Byte>, behind: seq<Byte>, was: seq<Byte> |
               |packed| == PackedSize(w, h) && |behind| == k && |was| == window ::
               PreviewShows(packed, behind, was, w, h, stride, height))
            <==> CopyInside(w, h, stride, height)
  {
    if CopyInside(w, h, stride, height) {
      forall packed: seq<Byte>, behind: seq<Byte>, was: seq<Byte> |
        |packed| == PackedSize(w, h) && |behind| == k && |was| == window
        ensures PreviewShows(packed, behind, was, w, h, stride, height)
      {
        SameLayout(w, h);
        LayoutFits(|was|, w, h, stride, height);
        var planar := Planar(packed, w, h);
        PlanesSeen(Overwritten(was, planar + behind, CopyLength(stride, height)), planar, w, h, LayoutOf(stride, height));
      }
    } else {
      var bright, m := Displaces(w, h, stride, height);
      var planar := Bright(PlanarSize(w, h), bright);
      BrightDisplaced(planar, Filled(k, 0), Filled(window, 0), w, h, stride, height, bright, m);
      PlanarOfUpsampled(planar, w, h);
      assert !PreviewShows(Upsample(planar, w, h), Filled(k, 0), Filled(window, 0), w, h, stride, height);
    }
  }
}
