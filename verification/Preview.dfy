/** Buffer alignment and the size arithmetic of the preview copy (drawPreviewSurface). */
module Preview {
  import opened Bits
  import opened PlanarConverter

  /** ALIGN(x, y), with the mask written as the source writes it. */
  function Align(x: nat, y: nat): nat
    requires y > 0
  {
    And(x + y - 1, Not(y - 1))
  }

  /** ALIGN to a power of two is the least multiple of it that is not below `x`. */
  lemma AlignIsLeastMultiple(x: nat, k: nat)
    ensures var a := Align(x, Pow2(k));
            && a % Pow2(k) == 0
            && x <= a < x + Pow2(k)
            && (forall m: int :: m % Pow2(k) == 0 && m >= x ==> m >= a)
  {
    AlignIs(x, k);
    RoundUp(x, Pow2(k), Align(x, Pow2(k)));
  }

  lemma AlignIs(x: nat, k: nat)
    ensures Align(x, Pow2(k)) == x + Pow2(k) - 1 - (x + Pow2(k) - 1) % Pow2(k)
  {
    AndHighMask(x + Pow2(k) - 1, k);
  }

  lemma RoundUp(x: nat, y: nat, a: nat)
    requires y > 0 && a == x + y - 1 - (x + y - 1) % y
    ensures a % y == 0
    ensures x <= a < x + y
    ensures forall m: int :: m % y == 0 && m >= x ==> m >= a
  {
    var n := x + y - 1;
    DivUnique(n - n % y, y, n / y, 0);
    forall m: int | m % y == 0 && m >= x
      ensures m >= a
    {
      MultipleNotBelow(x, y, m);
    }
  }

  lemma MultipleNotBelow(x: int, y: int, m: int)
    requires y > 0 && m % y == 0 && m >= x
    ensures m >= x + y - 1 - (x + y - 1) % y
  {
    var n := x + y - 1;
    var c, d := m / y, n / y;
    assert m == c * y;
    assert n == d * y + n % y;
    MulMonotone(c + 1, d, y);
    assert (c + 1) * y == c * y + y;
    MulMonotone(d, c, y);
  }

  /** The size in bytes of one chroma plane of the window buffer. */
  function WindowChromaSize(stride: nat, height: nat): nat {
    Align(stride / 2, 16) * height / 2
  }

  /** The number of bytes copied into the window buffer. */
  function CopyLength(stride: nat, height: nat): nat {
    stride * height + WindowChromaSize(stride, height) * 2
  }

  /**
   For a window buffer of the frame's own (even, positive) size, the copy has the length of the
   allocated frame, and both sides agree on where the second chroma plane starts, exactly for
   widths that are multiples of 32. For every other width the copy is longer by the padding
   that the alignment adds to the chroma rows.
   */
  lemma CopyMatchesFrame(w: nat, h: nat)
    requires w > 0 && h > 0 && w % 2 == 0 && h % 2 == 0
    ensures CopyLength(w, h) == PlanarSize(w, h) + (Align(w / 2, 16) - w / 2) * h
    ensures CopyLength(w, h) == PlanarSize(w, h) <==> w % 32 == 0
    ensures w * h + WindowChromaSize(w, h) == SecondChroma(w, h) <==> w % 32 == 0
    ensures CopyLength(w, h) >= PlanarSize(w, h)
  {
    Sizes(w, h);
    ChromaRowAligned(w);
    CopySizes(w, h, Align(w / 2, 16));
  }

  /** The rows of a chroma plane need no padding exactly when 32 divides the width. */
  lemma ChromaRowAligned(w: nat)
    requires w % 2 == 0
    ensures Align(w / 2, 16) >= w / 2
    ensures Align(w / 2, 16) == w / 2 <==> w % 32 == 0
  {
    AlignTo16(w / 2);
    RoundedTo16(w, w / 2, Align(w / 2, 16));
  }

  lemma RoundedTo16(w: nat, x: nat, s: nat)
    requires w == 2 * x && s == x + 15 - (x + 15) % 16
    ensures s >= x
    ensures s == x <==> w % 32 == 0
  {
    var q := x / 16;
    assert x == 16 * q + x % 16;
    assert w == 32 * q + 2 * (x % 16);
  }

  lemma AlignTo16(x: nat)
    ensures Align(x, 16) == x + 15 - (x + 15) % 16
  {
    var y := Pow2(4);
    assert y == 2 * Pow2(3) && Pow2(3) == 2 * Pow2(2) && Pow2(2) == 2 * Pow2(1);
    AndHighMask(x + y - 1, 4);
  }

  lemma CopySizes(w: nat, h: nat, s: nat)
    requires h > 0 && w % 2 == 0 && h % 2 == 0 && s >= w / 2
    ensures w * h + s * h / 2 * 2 == w * h * 3 / 2 + (s - w / 2) * h
    ensures (s - w / 2) * h >= 0
    ensures (s - w / 2) * h == 0 <==> s == w / 2
    ensures w * h + s * h / 2 == w * h + w * h / 4 <==> s == w / 2
  {
    var hw, hh := w / 2, h / 2;
    FrameArea(w, h, hw, hh);
    PaddedChroma(s, hw, hh, h);
    PadArea(s - hw, hh);
    CopyArithmetic(w * h, s * h, (s - hw) * h, hw * hh, (s - hw) * hh);
  }

  lemma CopyArithmetic(area: nat, padded: nat, pad: int, q: nat, p: int)
    requires area == 4 * q && padded == 2 * (q + p) && pad == 2 * p && p >= 0
    ensures area + padded / 2 * 2 == area * 3 / 2 + pad
    ensures area + padded / 2 == area + area / 4 <==> p == 0
  {
  }

  lemma FrameArea(w: nat, h: nat, hw: nat, hh: nat)
    requires w == 2 * hw && h == 2 * hh
    ensures w * h == 4 * (hw * hh)
  {
  }

  lemma PaddedChroma(s: int, hw: int, hh: int, h: int)
    requires h == 2 * hh
    ensures s * h == 2 * (hw * hh + (s - hw) * hh)
    ensures (s - hw) * h == 2 * ((s - hw) * hh)
  {
  }

  lemma PadArea(pad: nat, hh: nat)
    requires hh > 0
    ensures pad * hh >= 0 && (pad * hh == 0 <==> pad == 0)
  {
    MulMonotone(1, pad, hh);
  }

  // ---- Window buffers of any stride and height.

  /** The copy of a window buffer of this stride and height stays inside the planar frame. */
  predicate CopyInside(w: nat, h: nat, stride: nat, height: nat) {
    stride == w && height == h && w % 32 == 0
  }

  /**
   For a window buffer that is at least as large as the frame the copy stays inside the planar
   buffer exactly if the buffer has the frame's stride and height, and 32 divides the width.
   */
  lemma CopyFits(w: nat, h: nat, stride: nat, height: nat)
    requires w > 0 && h > 0 && EvenSize(w, h) && stride >= w && height >= h
    ensures CopyLength(stride, height) <= PlanarSize(w, h) <==> CopyInside(w, h, stride, height)
  {
    var a := Align(stride / 2, 16);
    Sizes(w, h);
    PaddedRow(w, stride, a);
    TwiceCopied(stride, height, a);
    TwicePlanar(w, h);
    SmallerProduct(2 * stride + 2 * a, height, 3 * w, h);
  }

  /** A row of luma and its share of the padded chroma, against the frame's, each doubled. */
  lemma PaddedRow(w: nat, stride: nat, a: nat)
    requires w > 0 && w % 2 == 0 && stride >= w && a == Align(stride / 2, 16)
    ensures a % 16 == 0 && 2 * stride + 2 * a >= 3 * w
    ensures 2 * stride + 2 * a == 3 * w <==> stride == w && w % 32 == 0
  {
    AlignTo16(stride / 2);
    Padding(stride / 2, a);
    LongerRow(w, stride, stride / 2, a);
    if stride == w {
      ChromaRowAligned(w);
    }
  }

  lemma Padding(x: nat, a: nat)
    requires a == x + 15 - (x + 15) % 16
    ensures a % 16 == 0 && a >= x
  {
    assert a == 16 * ((x + 15) / 16);
  }

  lemma LongerRow(w: nat, stride: nat, x: nat, a: nat)
    requires w % 2 == 0 && stride >= w && a >= x && 2 * x >= stride - 1
    ensures stride > w ==> 2 * stride + 2 * a > 3 * w
  {
  }

  lemma TwiceCopied(stride: nat, height: nat, a: nat)
    requires a == Align(stride / 2, 16) && a % 16 == 0
    ensures 2 * CopyLength(stride, height) == (2 * stride + 2 * a) * height
  {
    HalvedRows(a / 2, height, a * height);
    Expanded(stride, a, height);
  }

  lemma HalvedRows(half: nat, height: nat, rows: nat)
    requires rows == (2 * half) * height
    ensures rows / 2 * 2 == rows
  {
    assert rows == 2 * (half * height);
  }

  lemma Expanded(stride: nat, a: nat, height: nat)
    ensures (2 * stride + 2 * a) * height == 2 * (stride * height) + 2 * (a * height)
  {
  }

  lemma TwicePlanar(w: nat, h: nat)
    requires EvenSize(w, h)
    ensures 2 * (w * h * 3 / 2) == (3 * w) * h
  {
    FrameArea(w, h, w / 2, h / 2);
    ThreeHalves(w * h, (w / 2) * (h / 2));
    ThreeTimes(w, h);
  }

  lemma ThreeHalves(area: nat, quarter: nat)
    requires area == 4 * quarter
    ensures 2 * (area * 3 / 2) == 3 * area
  {
    DivUnique(area * 3, 2, 6 * quarter, 0);
  }

  lemma ThreeTimes(w: nat, h: nat)
    ensures (3 * w) * h == 3 * (w * h)
  {
  }

  lemma SmallerProduct(a: nat, b: nat, c: nat, d: nat)
    requires a >= c > 0 && b >= d > 0
    ensures a * b <= c * d <==> a == c && b == d
  {
    MulMonotone(c, a, b);
    assert c * b == c * d + c * (b - d);
    MulMonotone(1, c, b - d);
    assert a * b == c * b + (a - c) * b;
    MulMonotone(1, a - c, b);
  }

  /** A frame whose width 32 divides, with a window buffer of a longer stride: the copy overruns. */
  lemma LongStrideOverruns(w: nat, h: nat, stride: nat)
    requires w == 640 && h == 480 && stride == 656
    ensures w % 32 == 0 && EvenSize(w, h) && CopyLength(stride, h) > PlanarSize(w, h)
  {
    CopyFits(w, h, stride, h);
  }

  /** For every window buffer the copy has a byte for each of its luma samples and for both padded chroma planes. */
  lemma CopyLengthIs(stride: nat, height: nat, chroma: nat)
    requires chroma % 16 == 0 && stride / 2 <= chroma < stride / 2 + 16
    ensures CopyLength(stride, height) == stride * height + 2 * (chroma * height / 2)
  {
    ChromaStrideIs(stride, chroma);
  }

  lemma ChromaStrideIs(stride: nat, chroma: nat)
    requires chroma % 16 == 0 && stride / 2 <= chroma < stride / 2 + 16
    ensures Align(stride / 2, 16) == chroma
  {
    AlignTo16(stride / 2);
    Padding(stride / 2, Align(stride / 2, 16));
    OneMultiple(stride / 2, chroma, Align(stride / 2, 16));
  }

  lemma OneMultiple(x: nat, a: nat, b: nat)
    requires a % 16 == 0 && b % 16 == 0 && x <= a < x + 16 && x <= b < x + 16
    ensures a == b
  {
    assert a == 16 * (a / 16) && b == 16 * (b / 16);
  }
}
