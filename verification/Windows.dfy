/**
 What an encoder window shows of a frame: the bytes that the copy leaves in its memory, how they are
 seen row by row, and what of it is not the frame's own.
 */
module Windows {
  import opened Bits
  import opened Grid
  import opened PlanarConverter
  import RgbaConverter
  import opened Crop
  import opened CropCopy

  const PIXEL_SHIFT: nat := 2

  /** The bytes of one RGBA pixel. */
  const PIXEL: nat := Pow2(PIXEL_SHIFT)

  /** The RGBA image of a frame. */
  function FrameImage(frame: seq<Byte>, size: Size): (image: seq<Byte>)
    requires |frame| >= PackedSize(size.w, size.h)
    ensures |image| == 8 * Macros(size.w, size.h)
  {
    RgbaConverter.Image(RgbaConverter.FrameWords(frame, Macros(size.w, size.h)))
  }

  /** What a window shows that had `before` in its memory and gets the centre of the image; a larger window gets nothing. */
  function Shown(before: seq<Byte>, image: seq<Byte>, from: Size, to: Size): (after: seq<Byte>)
    requires Room(|before|, |image|, from, to)
    ensures |after| == |before|
  {
    if Covers(from, to) then CroppedBytes(image, from, to, PIXEL) + before[RowStart(PIXEL, Area(to))..] else before
  }

  /** The copy stays inside the window memory and the image. */
  predicate Room(window: nat, image: nat, from: Size, to: Size) {
    Covers(from, to) ==> RowStart(PIXEL, Area(to)) <= window && RowStart(PIXEL, ReadEnd(from, to)) <= image
  }

  /** Drawing the same frame again changes nothing. */
  lemma ShownTwice(before: seq<Byte>, image: seq<Byte>, from: Size, to: Size)
    requires Room(|before|, |image|, from, to)
    ensures Shown(Shown(before, image, from, to), image, from, to) == Shown(before, image, from, to)
  {
  }

  /** For a window of the frame's size the general crop is the whole image, as the shortcut copies it. */
  lemma WholeImage(image: seq<Byte>, size: Size)
    requires RowStart(PIXEL, Area(size)) == |image|
    ensures Covers(size, size) && RowStart(PIXEL, ReadEnd(size, size)) <= |image|
    ensures CroppedBytes(image, size, size, PIXEL) == image
  {
    ReadsInside(size, size);
    RowsOrdered(PIXEL, ReadEnd(size, size), Area(size));
    RowStartScaled(PIXEL, size.w, size.h);
    BytesInside(size, size, PIXEL);
    RowsWhole(image, 0, RowStart(PIXEL, size.w), size.h);
  }

  /** Pixel `k` starts at byte 4k. */
  lemma PixelBytesAt(k: nat)
    ensures RowStart(PIXEL, k) == 4 * k
  {
    PixelIsFour();
    RowStartIs(PIXEL, k);
  }

  /**
   For even width differences, pixel (i, x) in the memory of a drawn window shows the luma and chroma
   that the packed frame has for its pixel (vm + i, hm + x).
   */
  lemma ShownPixel(frame: seq<Byte>, behind: seq<Byte>, before: seq<Byte>, from: Size, to: Size, i: nat, x: nat, at: nat, p: nat)
    requires EvenSize(from.w, from.h) && |frame| >= PackedSize(from.w, from.h)
    requires Covers(from, to) && EvenWidths(from, to) && i < to.h && x < to.w
    requires Room(|before|, 8 * Macros(from.w, from.h) + |behind|, from, to)
    requires at == 4 * (RowStart(to.w, i) + x) && p == Centred(from, to, i, x)
    ensures at + 4 <= |before| && 4 * (p / 2) + 3 < |frame|
    ensures var y: int, cb: int, cr: int := frame[2 * p], frame[4 * (p / 2) + 1], frame[4 * (p / 2) + 3];
            RgbaConverter.ShowsPixel(Shown(before, FrameImage(frame, from) + behind, from, to)[at..at + 4], y, cb - 128, cr - 128)
  {
    var image := FrameImage(frame, from);
    CentredInside(from, to, i, x, p);
    MacropixelInside(p, Macros(from.w, from.h));
    ImageShows(frame, image, Macros(from.w, from.h), p);
    CropStretch(image + behind, from, to, i, x, at, p);
    SameFour(Shown(before, image + behind, from, to), CroppedBytes(image + behind, from, to, PIXEL), image + behind, image, at, 4 * p);
  }

  lemma MacropixelInside(p: nat, n: nat)
    requires p < 2 * n
    ensures 4 * (p / 2) + 3 < 4 * n && 2 * p < 4 * n
  {
  }

  lemma ImageShows(frame: seq<Byte>, image: seq<Byte>, n: nat, p: nat)
    requires 4 * n <= |frame| && p < 2 * n && image == RgbaConverter.Image(RgbaConverter.FrameWords(frame, n))
    requires 4 * (p / 2) + 3 < |frame| && 2 * p < |frame|
    ensures 4 * p + 4 <= |image|
    ensures var y: int, cb: int, cr: int := frame[2 * p], frame[4 * (p / 2) + 1], frame[4 * (p / 2) + 3];
            RgbaConverter.ShowsPixel(image[4 * p..4 * p + 4], y, cb - 128, cr - 128)
  {
    RgbaConverter.PixelInImage(frame, n, p);
  }

  lemma CropStretch(memory: seq<Byte>, from: Size, to: Size, i: nat, x: nat, at: nat, p: nat)
    requires Covers(from, to) && EvenWidths(from, to) && i < to.h && x < to.w
    requires RowStart(PIXEL, ReadEnd(from, to)) <= |memory|
    requires at == 4 * (RowStart(to.w, i) + x) && p == Centred(from, to, i, x)
    ensures SameStretch(CroppedBytes(memory, from, to, PIXEL), at, memory, 4 * p, 4)
  {
    PixelIsFour();
    PixelOfCopy(memory, from, to, PIXEL, i, x);
    RowPlace(from, to, i);
    PixelBytesAt(RowStart(to.w, i) + x);
    PixelBytesAt(p);
  }

  lemma CentredInside(from: Size, to: Size, i: nat, x: nat, p: nat)
    requires EvenSize(from.w, from.h) && Covers(from, to) && EvenWidths(from, to) && i < to.h && x < to.w
    requires p == Centred(from, to, i, x)
    ensures p < 2 * Macros(from.w, from.h)
  {
    RowFits(from.w, Margin(from.h, to.h) + i, from.h);
    RowStartDouble(from.w / 2, from.h);
  }

  lemma SameFour(shown: seq<Byte>, crop: seq<Byte>, memory: seq<Byte>, image: seq<Byte>, at: nat, m: nat)
    requires |crop| <= |shown| && shown[..|crop|] == crop && SameStretch(crop, at, memory, m, 4)
    requires image <= memory && m + 4 <= |image|
    ensures shown[at..at + 4] == image[m..m + 4]
  {
    assert shown[..|crop|][at..at + 4] == shown[at..at + 4];
    assert memory[..|image|][m..m + 4] == memory[m..m + 4];
  }

  // ---- The copy takes no notice of the stride of the window.

  /** The memory reaches as far as the last row. */
  predicate HoldsRows(window: nat, to: Size, stride: nat) {
    stride >= to.w && (to.h > 0 ==> RowStart(RowStart(PIXEL, stride), to.h - 1) + RowStart(PIXEL, to.w) <= window)
  }

  /** What is seen of a window: rows of `to.w` pixels, `stride` pixels apart. */
  function Seen(bits: seq<Byte>, to: Size, stride: nat): seq<Byte>
    requires HoldsRows(|bits|, to, stride)
  {
    RowsOrdered(PIXEL, to.w, stride);
    Rows(bits, 0, RowStart(PIXEL, stride), RowStart(PIXEL, to.w), to.h)
  }

  /** The window, once drawn, is seen to show the centre of the image. */
  predicate SeesCrop(before: seq<Byte>, image: seq<Byte>, from: Size, to: Size, stride: nat)
    requires Covers(from, to) && Room(|before|, |image|, from, to) && HoldsRows(|before|, to, stride)
  {
    Seen(Shown(before, image, from, to), to, stride) == CroppedBytes(image, from, to, PIXEL)
  }

  /** Windows whose stride does not matter, or is their width. */
  predicate Contiguous(to: Size, stride: nat) {
    stride == to.w || to.h <= 1 || to.w == 0
  }

  lemma SeenWhole(before: seq<Byte>, image: seq<Byte>, from: Size, to: Size, stride: nat)
    requires Covers(from, to) && Room(|before|, |image|, from, to) && HoldsRows(|before|, to, stride)
    requires Contiguous(to, stride)
    ensures SeesCrop(before, image, from, to, stride)
  {
    var bits, crop := Shown(before, image, from, to), CroppedBytes(image, from, to, PIXEL);
    RowStartScaled(PIXEL, to.w, to.h);
    assert bits[..|crop|] == crop;
    if to.w == 0 || to.h == 0 {
      NothingSeen(to.w, to.h);
    } else if stride == to.w {
      RowsWhole(bits, 0, RowStart(PIXEL, to.w), to.h);
    } else {
      RowsOrdered(PIXEL, to.w, stride);
      OneRow(bits, RowStart(PIXEL, stride), RowStart(PIXEL, to.w), to);
    }
  }

  lemma NothingSeen(w: nat, h: nat)
    requires w == 0 || h == 0
    ensures RowStart(RowStart(PIXEL, w), h) == 0
  {
    RowStartIs(PIXEL, w);
    RowStartIs(RowStart(PIXEL, w), h);
  }

  lemma OneRow(bits: seq<Byte>, stride: nat, len: nat, to: Size)
    requires to.h == 1 && len <= stride && len <= |bits|
    ensures RowStart(stride, 0) == 0 && RowStart(len, to.h) == len
    ensures Rows(bits, 0, stride, len, to.h) == bits[..len]
  {
    assert Rows(bits, 0, stride, len, 0) == [];
    RowsStep(bits, 0, stride, len, 0);
  }

  function Filled(n: nat, b: Byte): (bytes: seq<Byte>)
    ensures |bytes| == n
  {
    seq(n, i => b)
  }

  /** The last byte seen of a window, and where it is in the memory. */
  lemma LastSeen(bits: seq<Byte>, to: Size, stride: nat, len: nat, far: nat)
    requires HoldsRows(|bits|, to, stride) && to.h > 0
    requires len == RowStart(PIXEL, to.w) > 0 && far == RowStart(RowStart(PIXEL, stride), to.h - 1)
    ensures RowStart(len, to.h - 1) + (len - 1) < |Seen(bits, to, stride)| && far + (len - 1) < |bits|
    ensures Seen(bits, to, stride)[RowStart(len, to.h - 1) + (len - 1)] == bits[far + (len - 1)]
  {
    RowsOrdered(PIXEL, to.w, stride);
    RowsAt(bits, 0, RowStart(PIXEL, stride), len, to.h, to.h - 1);
    SameInStretch(Seen(bits, to, stride), RowStart(len, to.h - 1), bits, far, len, len - 1);
  }

  /** With a longer stride that is behind everything that was copied. */
  lemma LastIsFar(to: Size, stride: nat, len: nat, far: nat)
    requires stride >= to.w && !Contiguous(to, stride)
    requires len == RowStart(PIXEL, to.w) && far == RowStart(RowStart(PIXEL, stride), to.h - 1)
    ensures len > 0 && RowStart(PIXEL, Area(to)) <= far + (len - 1)
  {
    PixelIsFour();
    RowStartScaled(PIXEL, to.w, to.h);
    RowStartStep(len, to.h - 1);
    RowsOrdered(PIXEL, 1, to.w);
    FurtherRow(PIXEL, to.w, stride, to.h - 1);
  }

  lemma Untouched(before: seq<Byte>, image: seq<Byte>, from: Size, to: Size, k: nat)
    requires Room(|before|, |image|, from, to) && k < |before|
    requires Covers(from, to) ==> RowStart(PIXEL, Area(to)) <= k
    ensures Shown(before, image, from, to)[k] == before[k]
  {
  }

  lemma FurtherRow(p: nat, w: nat, stride: nat, rows: nat)
    requires p > 0 && stride > w && rows > 0
    ensures RowStart(RowStart(p, stride), rows) > RowStart(RowStart(p, w), rows)
    decreases rows
  {
    RowFits(p, w, stride);
    if rows > 1 {
      FurtherRow(p, w, stride, rows - 1);
    }
  }

  /** The last byte of the crop is the last one read. */
  lemma LastOfCrop(image: seq<Byte>, from: Size, to: Size, len: nat)
    requires Covers(from, to) && RowStart(PIXEL, ReadEnd(from, to)) <= |image| && to.h > 0
    requires len == RowStart(PIXEL, to.w) > 0
    ensures RowStart(len, to.h - 1) + len == |CroppedBytes(image, from, to, PIXEL)|
    ensures 0 < RowStart(PIXEL, ReadEnd(from, to))
    ensures CroppedBytes(image, from, to, PIXEL)[RowStart(len, to.h - 1) + (len - 1)] == image[RowStart(PIXEL, ReadEnd(from, to)) - 1]
  {
    BytesInside(from, to, PIXEL);
    RowStartScaled(PIXEL, to.w, to.h);
    RowStartStep(len, to.h - 1);
    RowOfCopy(image, from, to, PIXEL, to.h - 1);
    SameInStretch(CroppedBytes(image, from, to, PIXEL), RowStart(len, to.h - 1), image,
                  RowStart(PIXEL, Origin(from, to)) + RowStart(RowStart(PIXEL, Stride(from, to)), to.h - 1), len, len - 1);
  }

  /** Every drawn window is seen to show the crop, whatever it showed before, exactly if its rows are contiguous. */
  lemma SeenExactly(window: nat, image: nat, from: Size, to: Size, stride: nat)
    requires Covers(from, to) && Room(window, image, from, to) && HoldsRows(window, to, stride)
    ensures (forall before: seq<Byte>, frame: seq<Byte> | |before| == window && |frame| == image ::
               SeesCrop(before, frame, from, to, stride))
            <==> Contiguous(to, stride)
  {
    if Contiguous(to, stride) {
      forall before: seq<Byte>, frame: seq<Byte> | |before| == window && |frame| == image
        ensures SeesCrop(before, frame, from, to, stride)
      {
        SeenWhole(before, frame, from, to, stride);
      }
    } else {
      OldContentSeen(Filled(window, 0), Filled(image, 1), from, to, stride);
    }
  }

  lemma OldContentSeen(before: seq<Byte>, frame: seq<Byte>, from: Size, to: Size, stride: nat)
    requires Covers(from, to) && Room(|before|, |frame|, from, to) && HoldsRows(|before|, to, stride)
    requires !Contiguous(to, stride) && before == Filled(|before|, 0) && frame == Filled(|frame|, 1)
    ensures !SeesCrop(before, frame, from, to, stride)
  {
    var len, far := RowStart(PIXEL, to.w), RowStart(RowStart(PIXEL, stride), to.h - 1);
    LastIsFar(to, stride, len, far);
    LastSeen(Shown(before, frame, from, to), to, stride, len, far);
    Untouched(before, frame, from, to, far + (len - 1));
    LastOfCrop(frame, from, to, len);
  }

  /** A window of 638 x 480 whose rows are 640 pixels apart does not always show the centre of a 640 x 480 frame. */
  lemma LongWindowStride(window: nat, image: nat, from: Size, to: Size, stride: nat)
    requires from == Size(640, 480) && to == Size(638, 480) && stride == 640
    requires Room(window, image, from, to) && HoldsRows(window, to, stride)
    ensures Covers(from, to) && EvenWidths(from, to)
    ensures exists before: seq<Byte>, frame: seq<Byte> ::
              |before| == window && |frame| == image && !SeesCrop(before, frame, from, to, stride)
  {
    OldContentSeen(Filled(window, 0), Filled(image, 1), from, to, stride);
  }

  // ---- What lies behind the image.

  /** The window shows the same, whatever `k` bytes lie behind the image. */
  ghost predicate FromFrameOnly(before: seq<Byte>, image: seq<Byte>, k: nat, from: Size, to: Size)
    requires Room(|before|, |image| + k, from, to)
  {
    forall behind: seq<Byte>, behind': seq<Byte> | |behind| == k && |behind'| == k ::
      Shown(before, image + behind, from, to) == Shown(before, image + behind', from, to)
  }

  /** A window of a size for which the reads stay inside shows the frame's own pixels. */
  lemma ShownFromFrame(before: seq<Byte>, image: seq<Byte>, behind: seq<Byte>, from: Size, to: Size)
    requires Room(|before|, |image| + |behind|, from, to) && |image| == RowStart(PIXEL, Area(from))
    requires Covers(from, to) ==> ReadsStay(from, to)
    ensures Room(|before|, |image|, from, to) && Shown(before, image + behind, from, to) == Shown(before, image, from, to)
  {
    if Covers(from, to) {
      ReadsStayExactly(from, to);
      RowsOrdered(PIXEL, ReadEnd(from, to), Area(from));
      BehindUnread(image, behind, from, to, PIXEL);
    }
  }

  /** A window shows nothing from behind the image exactly for these sizes. */
  lemma FromFrameExactly(before: seq<Byte>, image: seq<Byte>, k: nat, from: Size, to: Size)
    requires Room(|before|, |image| + k, from, to) && |image| == RowStart(PIXEL, Area(from))
    ensures FromFrameOnly(before, image, k, from, to) <==> (Covers(from, to) ==> ReadsStay(from, to) || to.w == 0)
  {
    if !Covers(from, to) {
    } else if ReadsStay(from, to) {
      forall behind: seq<Byte>, behind': seq<Byte> | |behind| == k && |behind'| == k
        ensures Shown(before, image + behind, from, to) == Shown(before, image + behind', from, to)
      {
        ShownFromFrame(before, image, behind, from, to);
        ShownFromFrame(before, image, behind', from, to);
      }
    } else if to.w == 0 {
      NothingSeen(to.w, to.h);
      RowStartScaled(PIXEL, to.w, to.h);
    } else {
      BehindShown(before, image, k, from, to, RowStart(PIXEL, to.w));
      assert Shown(before, image + Filled(k, 0), from, to) != Shown(before, image + Filled(k, 1), from, to);
    }
  }

  lemma BehindShown(before: seq<Byte>, image: seq<Byte>, k: nat, from: Size, to: Size, len: nat)
    requires Room(|before|, |image| + k, from, to) && |image| == RowStart(PIXEL, Area(from))
    requires Covers(from, to) && !ReadsStay(from, to) && to.w > 0 && len == RowStart(PIXEL, to.w)
    ensures Shown(before, image + Filled(k, 0), from, to) != Shown(before, image + Filled(k, 1), from, to)
  {
    PixelIsFour();
    RowsOrdered(PIXEL, 1, to.w);
    ReadsStayExactly(from, to);
    RowFits(PIXEL, Area(from), ReadEnd(from, to));
    LastOfCrop(image + Filled(k, 0), from, to, len);
    LastOfCrop(image + Filled(k, 1), from, to, len);
    var last := RowStart(len, to.h - 1) + (len - 1);
    assert Shown(before, image + Filled(k, 0), from, to)[last] == 0;
    assert Shown(before, image + Filled(k, 1), from, to)[last] == 1;
  }

  lemma ImageBytes(w: nat, h: nat)
    requires w % 2 == 0
    ensures RowStart(PIXEL, RowStart(w, h)) == 8 * Macros(w, h)
  {
    PixelIsFour();
    RowStartIs(PIXEL, RowStart(w, h));
    RowStartDouble(w / 2, h);
  }

  lemma PixelIsFour()
    ensures PIXEL == 4
  {
    assert Pow2(2) == 2 * Pow2(1) && Pow2(1) == 2 * Pow2(0);
  }

  /** A memory after `n` bytes have been copied to its start. */
  function Overwritten(was: seq<Byte>, memory: seq<Byte>, n: nat): (now: seq<Byte>)
    requires n <= |was| && n <= |memory|
    ensures |now| == |was|
  {
    memory[..n] + was[n..]
  }

  /** A memory whose first part has been overwritten. */
  lemma TwoParts(bits: seq<Byte>, first: seq<Byte>, was: seq<Byte>)
    requires |first| <= |bits| == |was| && bits[..|first|] == first && bits[|first|..] == was[|first|..]
    ensures bits == first + was[|first|..]
  {
  }
}
