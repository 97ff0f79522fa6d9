/**
 copyFrameCenterGravity: copy the centre of a source picture into a smaller destination, row by
 row. Buffers are byte buffers and a pixel takes 2^bpp_shift bytes.
 */
module Crop {
  import opened Grid

  /** The margin before the copied part when `big` is cut down to `small`: half the difference, rounded up. */
  function Margin(big: nat, small: nat): nat
    requires small <= big
  {
    (big - small + 1) / 2
  }

  /** The margins before and after differ by at most one, the larger one first. */
  lemma MarginsBalanced(big: nat, small: nat)
    requires small <= big
    ensures var before, after := Margin(big, small), big - small - Margin(big, small);
            && 0 <= after <= before <= after + 1
            && (before == after <==> (big - small) % 2 == 0)
  {
  }

  datatype Size = Size(w: nat, h: nat)

  predicate Covers(src: Size, dest: Size) {
    dest.w <= src.w && dest.h <= src.h
  }

  predicate EvenWidths(src: Size, dest: Size) {
    (src.w - dest.w) % 2 == 0
  }

  /** The number of pixels of a picture, row by row. */
  function Area(size: Size): nat {
    RowStart(size.w, size.h)
  }

  /** How much further on in the source each row of the copy starts. */
  function Stride(src: Size, dest: Size): nat
    requires Covers(src, dest)
  {
    dest.w + 2 * Margin(src.w, dest.w)
  }

  /** The pixel of the source at which the copy starts. */
  function Origin(src: Size, dest: Size): nat
    requires Covers(src, dest)
  {
    RowStart(src.w, Margin(src.h, dest.h)) + Margin(src.w, dest.w)
  }

  /** The pixel of the source at which row `i` of the copy starts. */
  function RowSource(src: Size, dest: Size, i: nat): nat
    requires Covers(src, dest)
  {
    Origin(src, dest) + RowStart(Stride(src, dest), i)
  }

  /** The pixel of the source that is in the centre-cropped picture at row `i`, column `x`. */
  function Centred(src: Size, dest: Size, i: nat, x: nat): nat
    requires Covers(src, dest)
  {
    RowStart(src.w, Margin(src.h, dest.h) + i) + Margin(src.w, dest.w) + x
  }

  /**
   A copied row starts at its centred place for even width differences; for odd ones row `i`
   starts `i` pixels further on.
   */
  lemma RowPlace(src: Size, dest: Size, i: nat)
    requires Covers(src, dest)
    ensures RowSource(src, dest, i) == Centred(src, dest, i, 0) + (if EvenWidths(src, dest) then 0 else i)
  {
    RowStartSum(src.w, Margin(src.h, dest.h), i);
    RowStartLonger(src.w, i);
  }

  /** One past the last source pixel that is read. */
  function ReadEnd(src: Size, dest: Size): nat
    requires Covers(src, dest)
  {
    if dest.h == 0 then 0 else RowSource(src, dest, dest.h - 1) + dest.w
  }

  /** For even width differences all reads are inside the source picture. */
  lemma ReadsInside(src: Size, dest: Size)
    requires Covers(src, dest) && EvenWidths(src, dest)
    ensures ReadEnd(src, dest) <= Area(src)
  {
    if dest.h > 0 {
      RowPlace(src, dest, dest.h - 1);
      RowFits(src.w, Margin(src.h, dest.h) + dest.h - 1, src.h);
    }
  }

  /**
   For odd width differences the last row ends `dest.h - 1` pixels further on, so the reads stay
   inside exactly if the rows and the margins below and beside the copy leave that much room.
   */
  lemma OddReads(src: Size, dest: Size)
    requires Covers(src, dest) && !EvenWidths(src, dest) && dest.h > 0
    ensures var below := src.h - dest.h - Margin(src.h, dest.h);
            var beside := src.w - dest.w - Margin(src.w, dest.w);
            ReadEnd(src, dest) <= Area(src) <==> dest.h - 1 <= RowStart(src.w, below) + beside
  {
    var last := Margin(src.h, dest.h) + dest.h - 1;
    var below := src.h - dest.h - Margin(src.h, dest.h);
    LastRead(src, dest, last);
    RestOfSource(src, last, below);
  }

  /** Where the reads end for an odd width difference. */
  lemma LastRead(src: Size, dest: Size, last: nat)
    requires Covers(src, dest) && !EvenWidths(src, dest) && dest.h > 0 && last == Margin(src.h, dest.h) + dest.h - 1
    ensures ReadEnd(src, dest) == RowStart(src.w, last) + Margin(src.w, dest.w) + (dest.h - 1) + dest.w
  {
    RowPlace(src, dest, dest.h - 1);
    CentredIs(src, dest, dest.h - 1, last);
  }

  lemma CentredIs(src: Size, dest: Size, i: nat, row: nat)
    requires Covers(src, dest) && row == Margin(src.h, dest.h) + i
    ensures Centred(src, dest, i, 0) == RowStart(src.w, row) + Margin(src.w, dest.w)
  {
    assert Centred(src, dest, i, 0) == RowStart(src.w, Margin(src.h, dest.h) + i) + Margin(src.w, dest.w);
  }

  lemma RestOfSource(src: Size, last: nat, below: nat)
    requires src.h == last + 1 + below
    ensures Area(src) == RowStart(src.w, last) + src.w + RowStart(src.w, below)
  {
    RowStartSum(src.w, last + 1, below);
    RowStartStep(src.w, last);
  }

  /** `n` rows of `len` elements, each `stride` further on in `src` than the one before. */
  function Rows<T>(src: seq<T>, off: nat, stride: nat, len: nat, n: nat): (rows: seq<T>)
    requires n == 0 || off + RowStart(stride, n - 1) + len <= |src|
    requires len <= stride
    ensures |rows| == RowStart(len, n)
  {
    if n == 0 then []
    else
      Rows(src, off, stride, len, n - 1)
      + src[off + RowStart(stride, n - 1)..off + RowStart(stride, n - 1) + len]
  }

  lemma RowsStep<T>(src: seq<T>, off: nat, stride: nat, len: nat, n: nat)
    requires len <= stride && off + RowStart(stride, n) + len <= |src|
    requires n == 0 || off + RowStart(stride, n - 1) + len <= |src|
    ensures var at := off + RowStart(stride, n);
            Rows(src, off, stride, len, n + 1) == Rows(src, off, stride, len, n) + src[at..at + len]
  {
  }

  /** The same stretch of `len` elements, at `i` of `a` and at `j` of `b`. */
  predicate SameStretch<T(==)>(a: seq<T>, i: nat, b: seq<T>, j: nat, len: nat) {
    i + len <= |a| && j + len <= |b| && a[i..i + len] == b[j..j + len]
  }

  /** Row `i` of the rows. */
  lemma {:induction false} RowsAt<T>(src: seq<T>, off: nat, stride: nat, len: nat, n: nat, i: nat)
    requires n > 0 && off + RowStart(stride, n - 1) + len <= |src|
    requires len <= stride && i < n
    ensures SameStretch(Rows(src, off, stride, len, n), RowStart(len, i), src, off + RowStart(stride, i), len)
  {
    var at := off + RowStart(stride, n - 1);
    if n > 1 {
      RowsOrdered(stride, n - 2, n - 1);
    }
    var before, whole := Rows(src, off, stride, len, n - 1), Rows(src, off, stride, len, n);
    if i < n - 1 {
      RowsAt(src, off, stride, len, n - 1, i);
      StretchOfFirst(whole, before, src, RowStart(len, i), off + RowStart(stride, i), len, at);
    } else {
      StretchOfSecond(whole, before, src, at, len);
    }
  }

  lemma StretchOfFirst<T>(whole: seq<T>, a: seq<T>, b: seq<T>, i: nat, j: nat, len: nat, at: nat)
    requires SameStretch(a, i, b, j, len) && at + len <= |b| && whole == a + b[at..at + len]
    ensures SameStretch(whole, i, b, j, len)
  {
  }

  lemma StretchOfSecond<T>(whole: seq<T>, a: seq<T>, b: seq<T>, at: nat, len: nat)
    requires at + len <= |b| && whole == a + b[at..at + len]
    ensures SameStretch(whole, |a|, b, at, len)
  {
  }

  lemma RowsOrdered(n: nat, r: nat, r': nat)
    requires r <= r'
    ensures RowStart(n, r) <= RowStart(n, r')
  {
    if r < r' {
      RowFits(n, r, r');
    }
  }

  /** Consecutive rows without margins are a stretch of the source. */
  lemma {:induction false} RowsWhole<T>(src: seq<T>, off: nat, len: nat, n: nat)
    requires off + RowStart(len, n) <= |src|
    ensures n == 0 || RowStart(len, n - 1) + len == RowStart(len, n)
    ensures Rows(src, off, len, len, n) == src[off..off + RowStart(len, n)]
  {
    if n > 0 {
      var at := off + RowStart(len, n - 1);
      RowStartStep(len, n - 1);
      RowsWhole(src, off, len, n - 1);
      Adjacent(src, off, at, at + len);
    }
  }

  lemma Adjacent<T>(s: seq<T>, i: nat, j: nat, k: nat)
    requires i <= j <= k <= |s|
    ensures s[i..j] + s[j..k] == s[i..k]
  {
  }

  /** The centre of a picture, row by row as the copy takes it. */
  function Cropped<T>(src: seq<T>, from: Size, to: Size): (dest: seq<T>)
    requires Covers(from, to) && |src| >= ReadEnd(from, to)
    ensures |dest| == Area(to)
  {
    Rows(src, Origin(from, to), Stride(from, to), to.w, to.h)
  }

  lemma CroppedRow<T>(src: seq<T>, from: Size, to: Size, i: nat)
    requires Covers(from, to) && |src| >= ReadEnd(from, to) && i < to.h
    ensures SameStretch(Cropped(src, from, to), RowStart(to.w, i), src, RowSource(from, to, i), to.w)
  {
    RowsAt(src, Origin(from, to), Stride(from, to), to.w, to.h, i);
  }

  /** Element (i, x) of the copy. */
  lemma CroppedAt<T>(src: seq<T>, from: Size, to: Size, i: nat, x: nat)
    requires Covers(from, to) && |src| >= ReadEnd(from, to) && i < to.h && x < to.w
    ensures RowStart(to.w, i) + x < RowStart(to.w, to.h) && RowSource(from, to, i) + x < |src|
    ensures Cropped(src, from, to)[RowStart(to.w, i) + x] == src[RowSource(from, to, i) + x]
  {
    CroppedRow(src, from, to, i);
    SameInStretch(Cropped(src, from, to), RowStart(to.w, i), src, RowSource(from, to, i), to.w, x);
  }

  lemma SameInStretch<T>(a: seq<T>, i: nat, b: seq<T>, j: nat, len: nat, x: nat)
    requires SameStretch(a, i, b, j, len) && x < len
    ensures a[i + x] == b[j + x]
  {
    assert a[i..i + len][x] == b[j..j + len][x];
  }

  /**
   For even width differences, element (i, x) of the copy is the one at row `top margin + i`,
   column `left margin + x` of the source.
   */
  lemma CroppedIsCentred<T>(src: seq<T>, from: Size, to: Size, i: nat, x: nat)
    requires Covers(from, to) && EvenWidths(from, to) && |src| >= Area(from)
    requires i < to.h && x < to.w
    ensures ReadEnd(from, to) <= |src|
    ensures RowStart(to.w, i) + x < RowStart(to.w, to.h) && Centred(from, to, i, x) < |src|
    ensures Cropped(src, from, to)[RowStart(to.w, i) + x] == src[Centred(from, to, i, x)]
  {
    ReadsInside(from, to);
    CroppedAt(src, from, to, i, x);
    RowPlace(from, to, i);
  }

  /** For odd differences it is the one `i` places further on. */
  lemma CroppedIsSkewed<T>(src: seq<T>, from: Size, to: Size, i: nat, x: nat)
    requires Covers(from, to) && !EvenWidths(from, to) && |src| >= ReadEnd(from, to)
    requires i < to.h && x < to.w
    ensures RowStart(to.w, i) + x < RowStart(to.w, to.h) && Centred(from, to, i, x) + i < |src|
    ensures Cropped(src, from, to)[RowStart(to.w, i) + x] == src[Centred(from, to, i, x) + i]
  {
    CroppedAt(src, from, to, i, x);
    RowPlace(from, to, i);
  }

  /** A picture of a given size is known by its elements. */
  lemma SamePicture<T>(a: seq<T>, b: seq<T>, w: nat, h: nat)
    requires |a| == |b| == RowStart(w, h)
    requires forall i, x | 0 <= i < h && 0 <= x < w :: Element(a, w, h, i, x) == Element(b, w, h, i, x)
    ensures a == b
  {
    forall k | 0 <= k < |a|
      ensures a[k] == b[k]
    {
      if w == 0 {
        RowStartIs(w, h);
      }
      RowBelow(w, h, k);
      assert Element(a, w, h, RowOf(w, k), ColumnOf(w, k)) == Element(b, w, h, RowOf(w, k), ColumnOf(w, k));
    }
  }

  function Element<T>(a: seq<T>, w: nat, h: nat, i: nat, x: nat): T
    requires |a| == RowStart(w, h) && i < h && x < w
  {
    RowFits(w, i, h);
    a[RowStart(w, i) + x]
  }

  /** Cutting to the whole size copies the picture, as the shortcut for equal sizes does. */
  lemma CroppedToItself<T>(src: seq<T>, size: Size)
    requires |src| >= Area(size)
    ensures ReadEnd(size, size) <= |src|
    ensures Cropped(src, size, size) == src[..Area(size)]
  {
    ReadsInside(size, size);
    var whole := src[..Area(size)];
    forall i, x | 0 <= i < size.h && 0 <= x < size.w
      ensures Element(Cropped(src, size, size), size.w, size.h, i, x) == Element(whole, size.w, size.h, i, x)
    {
      CroppedIsCentred(src, size, size, i, x);
      RowFits(size.w, i, size.h);
    }
    SamePicture(Cropped(src, size, size), whole, size.w, size.h);
  }

  /** The copy is the centre of the source, element by element. */
  predicate IsCentred<T(==)>(src: seq<T>, from: Size, to: Size)
    requires Covers(from, to) && |src| >= ReadEnd(from, to) && |src| >= Area(from)
  {
    forall i, x | 0 <= i < to.h && 0 <= x < to.w ::
      Centred(from, to, i, x) < |src| && Element(Cropped(src, from, to), to.w, to.h, i, x) == src[Centred(from, to, i, x)]
  }

  /** The sizes for which the loop cuts out the centre. */
  predicate CutsCentre(from: Size, to: Size) {
    EvenWidths(from, to) || to.h <= 1 || to.w == 0
  }

  /** The picture whose elements are their own places. */
  function Places(n: nat): (picture: seq<nat>)
    ensures |picture| == n
  {
    seq(n, k => k)
  }

  lemma CentreIsCut<T>(src: seq<T>, from: Size, to: Size)
    requires Covers(from, to) && |src| >= ReadEnd(from, to) && |src| >= Area(from)
    requires CutsCentre(from, to)
    ensures IsCentred(src, from, to)
  {
    forall i, x | 0 <= i < to.h && 0 <= x < to.w
      ensures Centred(from, to, i, x) < |src|
      ensures Element(Cropped(src, from, to), to.w, to.h, i, x) == src[Centred(from, to, i, x)]
    {
      CroppedAt(src, from, to, i, x);
      RowPlace(from, to, i);
    }
  }

  /** The loop cuts out the centre of every picture exactly for these sizes. */
  lemma CentredExactly(n: nat, from: Size, to: Size)
    requires Covers(from, to) && n >= ReadEnd(from, to) && n >= Area(from)
    ensures (forall src: seq<nat> | |src| == n :: IsCentred(src, from, to)) <==> CutsCentre(from, to)
  {
    if CutsCentre(from, to) {
      forall src: seq<nat> | |src| == n
        ensures IsCentred(src, from, to)
      {
        CentreIsCut(src, from, to);
      }
    } else {
      CroppedIsSkewed(Places(n), from, to, 1, 0);
      assert Element(Cropped(Places(n), from, to), to.w, to.h, 1, 0) != Places(n)[Centred(from, to, 1, 0)];
      assert !IsCentred(Places(n), from, to);
    }
  }

  /** A window one pixel narrower than a source of 1280 x 720: the reads go 719 pixels past its end. */
  lemma OddWidthOverruns(from: Size, to: Size)
    requires from == Size(1280, 720) && to == Size(1279, 720)
    ensures Covers(from, to) && ReadEnd(from, to) == Area(from) + 719
  {
    RowStartLonger(from.w, to.h - 1);
    RowStartStep(from.w, to.h - 1);
  }
}
