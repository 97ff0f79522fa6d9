/**
 Two crops in a row, and when they are one: for sizes of any parity, with the reads of the second
 crop inside the picture that the first one made.
 */
module CropTwice {
  import opened Grid
  import opened Crop

  /** Margins of successive cuts add up exactly when the two differences are not both odd. */
  lemma MarginsCompose(a: nat, b: nat, c: nat)
    requires c <= b <= a
    ensures Margin(a, b) + Margin(b, c) == Margin(a, c) + (if BothOdd(a, b, c) then 1 else 0)
  {
  }

  predicate BothOdd(a: nat, b: nat, c: nat)
    requires c <= b <= a
  {
    (a - b) % 2 == 1 && (b - c) % 2 == 1
  }

  /** All reads of the three crops are inside their pictures. */
  predicate CutsDefined(n: nat, from: Size, mid: Size, to: Size) {
    && Covers(from, mid) && Covers(mid, to)
    && ReadEnd(from, mid) <= n && ReadEnd(from, to) <= n && ReadEnd(mid, to) <= Area(mid)
  }

  /** For even width differences they are, in any picture that holds all of its pixels. */
  lemma CutsInside(n: nat, from: Size, mid: Size, to: Size)
    requires Covers(from, mid) && Covers(mid, to) && EvenWidths(from, mid) && EvenWidths(mid, to)
    requires n >= Area(from)
    ensures CutsDefined(n, from, mid, to) && EvenWidths(from, to)
  {
    ReadsInside(from, mid);
    ReadsInside(mid, to);
    ReadsInside(from, to);
  }

  function Twice<T>(src: seq<T>, from: Size, mid: Size, to: Size): (picture: seq<T>)
    requires CutsDefined(|src|, from, mid, to)
    ensures |picture| == Area(to)
  {
    Cropped(Cropped(src, from, mid), mid, to)
  }

  predicate CutsAgree<T(==)>(src: seq<T>, from: Size, mid: Size, to: Size)
    requires CutsDefined(|src|, from, mid, to)
  {
    Twice(src, from, mid, to) == Cropped(src, from, to)
  }

  /** Where an element of the picture cut twice comes from, if it is element (r, c) of the picture in between. */
  lemma TwiceAt<T>(src: seq<T>, from: Size, mid: Size, to: Size, i: nat, x: nat, r: nat, c: nat)
    requires CutsDefined(|src|, from, mid, to) && i < to.h && x < to.w && r < mid.h && c < mid.w
    requires RowSource(mid, to, i) + x == RowStart(mid.w, r) + c
    ensures RowSource(from, mid, r) + c < |src|
    ensures Element(Twice(src, from, mid, to), to.w, to.h, i, x) == src[RowSource(from, mid, r) + c]
  {
    var inner := Cropped(src, from, mid);
    CroppedAt(src, from, mid, r, c);
    CutOnce(inner, mid, to, i, x, RowStart(mid.w, r) + c);
  }

  lemma CutOnce<T>(inner: seq<T>, mid: Size, to: Size, i: nat, x: nat, k: nat)
    requires Covers(mid, to) && ReadEnd(mid, to) <= |inner| && i < to.h && x < to.w && RowSource(mid, to, i) + x == k
    ensures k < |inner| && Element(Cropped(inner, mid, to), to.w, to.h, i, x) == inner[k]
  {
    CroppedAt(inner, mid, to, i, x);
  }

  /** How much further on than its centred place row `i` of a cut starts. */
  function Skew(from: Size, to: Size, i: nat): nat
    requires Covers(from, to)
  {
    if EvenWidths(from, to) then 0 else i
  }

  lemma RowIs(from: Size, to: Size, i: nat)
    requires Covers(from, to)
    ensures RowSource(from, to, i)
            == RowStart(from.w, Margin(from.h, to.h) + i) + Margin(from.w, to.w) + Skew(from, to, i)
  {
    RowPlace(from, to, i);
  }

  /** The column of the picture in between at which element (i, x) is looked for. */
  function Column(mid: Size, to: Size, i: nat, x: nat): nat
    requires Covers(mid, to)
  {
    Margin(mid.w, to.w) + Skew(mid, to, i) + x
  }

  /** The part of the shift that comes from the heights. */
  function Down(from: Size, mid: Size, to: Size): nat
    requires Covers(from, mid) && Covers(mid, to)
  {
    if BothOdd(from.h, mid.h, to.h) then from.w else 0
  }

  /** The part that comes from the widths. */
  function Aside(from: Size, mid: Size, to: Size, i: nat): nat
    requires Covers(from, mid) && Covers(mid, to)
  {
    Skew(from, mid, Margin(mid.h, to.h)) + (if BothOdd(from.w, mid.w, to.w) then 2 * i + 1 else 0)
  }

  /** How much further on in the source row `i` starts when it is cut twice. */
  function Shift(from: Size, mid: Size, to: Size, i: nat): nat
    requires Covers(from, mid) && Covers(mid, to)
  {
    Down(from, mid, to) + Aside(from, mid, to, i)
  }

  /** The row in the picture in between that the cut takes as row `i`. */
  function Row(mid: Size, to: Size, i: nat): (r: nat)
    requires Covers(mid, to) && i < to.h
    ensures r < mid.h
  {
    Margin(mid.h, to.h) + i
  }

  lemma PlaceInMiddle(mid: Size, to: Size, i: nat, x: nat)
    requires Covers(mid, to) && i < to.h
    ensures RowSource(mid, to, i) + x == RowStart(mid.w, Row(mid, to, i)) + Column(mid, to, i, x)
  {
    RowIs(mid, to, i);
  }

  /** The rows of the source that the two cuts lead to. */
  lemma RowsCompose(from: Size, mid: Size, to: Size, i: nat)
    requires Covers(from, mid) && Covers(mid, to) && i < to.h
    ensures RowStart(from.w, Margin(from.h, mid.h) + Row(mid, to, i))
            == RowStart(from.w, Margin(from.h, to.h) + i) + Down(from, mid, to)
  {
    MarginsCompose(from.h, mid.h, to.h);
    var row := Margin(from.h, to.h) + i;
    RowStartStep(from.w, row);
    SameRow(from.w, Margin(from.h, mid.h) + Row(mid, to, i), if BothOdd(from.h, mid.h, to.h) then row + 1 else row);
  }

  lemma SameRow(w: nat, row: nat, row': nat)
    requires row == row'
    ensures RowStart(w, row) == RowStart(w, row')
  {
  }

  lemma Parities(from: Size, mid: Size, to: Size)
    requires Covers(from, mid) && Covers(mid, to)
    ensures EvenWidths(from, to) <==> (EvenWidths(from, mid) <==> EvenWidths(mid, to))
    ensures BothOdd(from.w, mid.w, to.w) <==> !EvenWidths(from, mid) && !EvenWidths(mid, to)
  {
  }

  /** Margins and skews of two cuts against those of one. */
  lemma SkewsAdd(from: Size, mid: Size, to: Size, i: nat)
    requires Covers(from, mid) && Covers(mid, to) && i < to.h
    ensures Margin(from.w, mid.w) + Skew(from, mid, Row(mid, to, i)) + Margin(mid.w, to.w) + Skew(mid, to, i)
            == Margin(from.w, to.w) + Skew(from, to, i) + Aside(from, mid, to, i)
  {
    MarginsCompose(from.w, mid.w, to.w);
    Parities(from, mid, to);
  }

  lemma AddUp(start: nat, column: nat, start': nat, x: nat, row: nat, row': nat, side: nat, side': nat, side'': nat, down: nat, aside: nat)
    requires start == row + side && column == side' + x && start' == row' + side''
    requires row == row' + down && side + side' == side'' + aside
    ensures start + column == start' + x + (down + aside)
  {
  }

  /** While the column is inside the picture in between, element (i, x) is shifted by that much. */
  lemma Shifted(from: Size, mid: Size, to: Size, i: nat, x: nat)
    requires Covers(from, mid) && Covers(mid, to) && i < to.h
    ensures RowSource(from, mid, Row(mid, to, i)) + Column(mid, to, i, x) == RowSource(from, to, i) + x + Shift(from, mid, to, i)
  {
    var r := Row(mid, to, i);
    RowIs(from, mid, r);
    RowIs(from, to, i);
    RowsCompose(from, mid, to, i);
    SkewsAdd(from, mid, to, i);
    AddUp(RowSource(from, mid, r), Column(mid, to, i, x), RowSource(from, to, i), x,
          RowStart(from.w, Margin(from.h, mid.h) + r), RowStart(from.w, Margin(from.h, to.h) + i),
          Margin(from.w, mid.w) + Skew(from, mid, r), Margin(mid.w, to.w) + Skew(mid, to, i),
          Margin(from.w, to.w) + Skew(from, to, i), Down(from, mid, to), Aside(from, mid, to, i));
  }

  lemma TwiceShifted<T>(src: seq<T>, from: Size, mid: Size, to: Size, i: nat, x: nat)
    requires CutsDefined(|src|, from, mid, to) && i < to.h && x < to.w && Column(mid, to, i, x) < mid.w
    ensures RowSource(from, to, i) + x + Shift(from, mid, to, i) < |src|
    ensures Element(Twice(src, from, mid, to), to.w, to.h, i, x) == src[RowSource(from, to, i) + x + Shift(from, mid, to, i)]
  {
    PlaceInMiddle(mid, to, i, x);
    Shifted(from, mid, to, i, x);
    TwiceAt(src, from, mid, to, i, x, Row(mid, to, i), Column(mid, to, i, x));
  }

  // ---- When the two cuts are one.

  /** No column leaves the picture in between. */
  predicate InMiddle(from: Size, mid: Size, to: Size)
    requires Covers(from, mid) && Covers(mid, to)
  {
    EvenWidths(mid, to) || to.h <= Margin(mid.w, to.w)
  }

  /**
   The sizes for which two cuts are one: the result is empty; or the height differences are not both
   odd, and both width differences are even, or only the first is odd and the second cut takes all
   rows, or only the second is odd and the first cut takes whole rows or the rows are few.
   */
  predicate Composes(from: Size, mid: Size, to: Size)
    requires Covers(from, mid) && Covers(mid, to)
  {
    || to.w == 0 || to.h == 0
    || (!BothOdd(from.h, mid.h, to.h)
        && if EvenWidths(from, mid) then from.w == mid.w || InMiddle(from, mid, to)
           else EvenWidths(mid, to) && mid.h == to.h)
  }

  /** A first cut to whole rows is a stretch of the source. */
  lemma WholeRows<T>(src: seq<T>, from: Size, mid: Size, p: nat)
    requires Covers(from, mid) && from.w == mid.w && ReadEnd(from, mid) <= |src| && p < Area(mid) && mid.w > 0
    ensures Origin(from, mid) + p < |src| && Cropped(src, from, mid)[p] == src[Origin(from, mid) + p]
  {
    RowBelow(mid.w, mid.h, p);
    CroppedAt(src, from, mid, RowOf(mid.w, p), ColumnOf(mid.w, p));
  }

  lemma WholeRowsTwice<T>(src: seq<T>, from: Size, mid: Size, to: Size, i: nat, x: nat)
    requires CutsDefined(|src|, from, mid, to) && from.w == mid.w && !BothOdd(from.h, mid.h, to.h) && i < to.h && x < to.w
    ensures RowSource(from, to, i) + x < |src|
    ensures Element(Twice(src, from, mid, to), to.w, to.h, i, x) == src[RowSource(from, to, i) + x]
  {
    CutOnce(Cropped(src, from, mid), mid, to, i, x, RowSource(mid, to, i) + x);
    WholeRows(src, from, mid, RowSource(mid, to, i) + x);
    OriginsAdd(from, mid, to, i);
  }

  lemma OriginsAdd(from: Size, mid: Size, to: Size, i: nat)
    requires Covers(from, mid) && Covers(mid, to) && from.w == mid.w && !BothOdd(from.h, mid.h, to.h)
    ensures Origin(from, mid) + RowSource(mid, to, i) == RowSource(from, to, i)
  {
    var v1, v2 := Margin(from.h, mid.h), Margin(mid.h, to.h);
    MarginsCompose(from.h, mid.h, to.h);
    RowStartSum(from.w, v1, v2);
    SameRow(from.w, v1 + v2, Margin(from.h, to.h));
    SameSkew(RowStart(from.w, v1), RowStart(from.w, v2), RowStart(from.w, Margin(from.h, to.h)), from, mid, to, i);
  }

  lemma SameSkew(a: nat, b: nat, c: nat, from: Size, mid: Size, to: Size, i: nat)
    requires Covers(from, mid) && Covers(mid, to) && from.w == mid.w && a + b == c
    requires a == RowStart(from.w, Margin(from.h, mid.h)) && b == RowStart(mid.w, Margin(mid.h, to.h))
    requires c == RowStart(from.w, Margin(from.h, to.h))
    ensures Origin(from, mid) + RowSource(mid, to, i) == RowSource(from, to, i)
  {
    assert Origin(from, mid) == a && Origin(mid, to) == b + Margin(mid.w, to.w) && Origin(from, to) == c + Margin(mid.w, to.w);
    assert Stride(mid, to) == Stride(from, to);
  }

  /** For these sizes an element of the picture cut twice comes from where one cut takes it. */
  lemma TwiceIsOnce<T>(src: seq<T>, from: Size, mid: Size, to: Size, i: nat, x: nat)
    requires CutsDefined(|src|, from, mid, to) && Composes(from, mid, to) && i < to.h && x < to.w
    ensures RowSource(from, to, i) + x < |src|
    ensures Element(Twice(src, from, mid, to), to.w, to.h, i, x) == src[RowSource(from, to, i) + x]
  {
    if EvenWidths(from, mid) && from.w == mid.w {
      WholeRowsTwice(src, from, mid, to, i, x);
    } else {
      NotShifted(from, mid, to, i, x);
      TwiceShifted(src, from, mid, to, i, x);
    }
  }

  /** For these sizes two cuts of any picture are one. */
  lemma CutsCompose<T>(src: seq<T>, from: Size, mid: Size, to: Size)
    requires CutsDefined(|src|, from, mid, to) && Composes(from, mid, to)
    ensures CutsAgree(src, from, mid, to)
  {
    forall i, x | 0 <= i < to.h && 0 <= x < to.w
      ensures Element(Twice(src, from, mid, to), to.w, to.h, i, x) == Element(Cropped(src, from, to), to.w, to.h, i, x)
    {
      TwiceIsOnce(src, from, mid, to, i, x);
      CutOnce(src, from, to, i, x, RowSource(from, to, i) + x);
    }
    SamePicture(Twice(src, from, mid, to), Cropped(src, from, to), to.w, to.h);
  }

  lemma NotShifted(from: Size, mid: Size, to: Size, i: nat, x: nat)
    requires Covers(from, mid) && Covers(mid, to) && Composes(from, mid, to) && from.w != mid.w && i < to.h && x < to.w
    ensures Column(mid, to, i, x) < mid.w && Shift(from, mid, to, i) == 0
  {
    Parities(from, mid, to);
  }

  /** The first element is shifted, unless only the columns of a later row leave the picture in between. */
  lemma FirstShifted(from: Size, mid: Size, to: Size)
    requires Covers(from, mid) && Covers(mid, to) && !Composes(from, mid, to)
    requires !EvenWidths(from, mid) || InMiddle(from, mid, to) || BothOdd(from.h, mid.h, to.h)
    ensures Column(mid, to, 0, 0) < mid.w && Shift(from, mid, to, 0) > 0
  {
    Parities(from, mid, to);
  }

  /** The row whose last column is the first to leave the picture in between. */
  lemma Wraps<T>(src: seq<T>, from: Size, mid: Size, to: Size)
    requires CutsDefined(|src|, from, mid, to) && !Composes(from, mid, to)
    requires EvenWidths(from, mid) && !InMiddle(from, mid, to) && !BothOdd(from.h, mid.h, to.h)
    ensures var i, x := Margin(mid.w, to.w), to.w - 1;
            && RowSource(from, to, i) + x + (from.w - mid.w) < |src|
            && Element(Twice(src, from, mid, to), to.w, to.h, i, x) == src[RowSource(from, to, i) + x + (from.w - mid.w)]
  {
    var i, x := Margin(mid.w, to.w), to.w - 1;
    var r := Row(mid, to, i) + 1;
    LastColumn(mid, to);
    PlaceInMiddle(mid, to, i, x);
    RowStartStep(mid.w, Row(mid, to, i));
    InsideMiddle(|src|, from, mid, to, i, x, r);
    TwiceAt(src, from, mid, to, i, x, r, 0);
    WrappedPlace(from, mid, to, i, x);
  }

  /** The first element of the next row in between, seen from the source. */
  lemma WrappedPlace(from: Size, mid: Size, to: Size, i: nat, x: nat)
    requires Covers(from, mid) && Covers(mid, to) && i < to.h && EvenWidths(from, mid) && !EvenWidths(mid, to)
    requires !BothOdd(from.h, mid.h, to.h) && Column(mid, to, i, x) == mid.w
    ensures RowSource(from, mid, Row(mid, to, i) + 1) == RowSource(from, to, i) + x + (from.w - mid.w)
  {
    Shifted(from, mid, to, i, x);
    NextRow(from, mid, Row(mid, to, i));
    NoShift(from, mid, to, i);
  }

  lemma NoShift(from: Size, mid: Size, to: Size, i: nat)
    requires Covers(from, mid) && Covers(mid, to) && EvenWidths(from, mid) && !BothOdd(from.h, mid.h, to.h)
    ensures Shift(from, mid, to, i) == 0
  {
    Parities(from, mid, to);
  }

  lemma NextRow(from: Size, mid: Size, r: nat)
    requires Covers(from, mid) && EvenWidths(from, mid)
    ensures RowSource(from, mid, r + 1) == RowSource(from, mid, r) + from.w
  {
    EvenStride(from, mid);
    NextStart(from, mid, Stride(from, mid), r);
  }

  lemma EvenStride(from: Size, mid: Size)
    requires Covers(from, mid) && EvenWidths(from, mid)
    ensures Stride(from, mid) == from.w
  {
  }

  lemma NextStart(from: Size, mid: Size, stride: nat, r: nat)
    requires Covers(from, mid) && stride == Stride(from, mid)
    ensures RowSource(from, mid, r + 1) == RowSource(from, mid, r) + stride
  {
    RowStartStep(stride, r);
  }

  lemma LastColumn(mid: Size, to: Size)
    requires Covers(mid, to) && !EvenWidths(mid, to) && to.w > 0
    ensures Column(mid, to, Margin(mid.w, to.w), to.w - 1) == mid.w
  {
  }

  lemma InsideMiddle(n: nat, from: Size, mid: Size, to: Size, i: nat, x: nat, r: nat)
    requires CutsDefined(n, from, mid, to) && i < to.h && x < to.w && RowSource(mid, to, i) + x >= RowStart(mid.w, r)
    ensures r < mid.h
  {
    RowsOrdered(Stride(mid, to), i, to.h - 1);
    if r >= mid.h {
      RowsOrdered(mid.w, mid.h, r);
    }
  }

  lemma Differs(from: Size, mid: Size, to: Size, n: nat, i: nat, x: nat, shift: nat)
    requires CutsDefined(n, from, mid, to) && i < to.h && x < to.w && shift > 0
    requires RowSource(from, to, i) + x + shift < n
    requires Element(Twice(Places(n), from, mid, to), to.w, to.h, i, x) == RowSource(from, to, i) + x + shift
    ensures !CutsAgree(Places(n), from, mid, to)
  {
    CroppedAt(Places(n), from, to, i, x);
    assert Element(Cropped(Places(n), from, to), to.w, to.h, i, x) == RowSource(from, to, i) + x;
  }

  /** Two cuts of every picture are one exactly for these sizes. */
  lemma ComposeExactly(n: nat, from: Size, mid: Size, to: Size)
    requires CutsDefined(n, from, mid, to)
    ensures (forall src: seq<nat> | |src| == n :: CutsAgree(src, from, mid, to)) <==> Composes(from, mid, to)
  {
    if Composes(from, mid, to) {
      forall src: seq<nat> | |src| == n
        ensures CutsAgree(src, from, mid, to)
      {
        CutsCompose(src, from, mid, to);
      }
    } else if !EvenWidths(from, mid) || InMiddle(from, mid, to) || BothOdd(from.h, mid.h, to.h) {
      FirstShifted(from, mid, to);
      TwiceShifted(Places(n), from, mid, to, 0, 0);
      Differs(from, mid, to, n, 0, 0, Shift(from, mid, to, 0));
    } else {
      Wraps(Places(n), from, mid, to);
      Differs(from, mid, to, n, Margin(mid.w, to.w), to.w - 1, from.w - mid.w);
    }
  }

  /** For even width differences: two cuts are one exactly unless both height differences are odd. */
  lemma CropsCompose(n: nat, from: Size, mid: Size, to: Size)
    requires Covers(from, mid) && Covers(mid, to) && EvenWidths(from, mid) && EvenWidths(mid, to)
    requires n >= Area(from)
    ensures CutsDefined(n, from, mid, to)
    ensures (forall src: seq<nat> | |src| == n :: CutsAgree(src, from, mid, to))
            <==> to.w == 0 || to.h == 0 || !BothOdd(from.h, mid.h, to.h)
  {
    CutsInside(n, from, mid, to);
    ComposeExactly(n, from, mid, to);
  }

  /** With both height differences odd, every row of the picture cut twice comes from one row further down. */
  lemma OddHeightsShift<T>(src: seq<T>, from: Size, mid: Size, to: Size, i: nat, x: nat)
    requires Covers(from, mid) && Covers(mid, to) && EvenWidths(from, mid) && EvenWidths(mid, to)
    requires |src| >= Area(from) && i < to.h && x < to.w && BothOdd(from.h, mid.h, to.h)
    ensures CutsDefined(|src|, from, mid, to) && Centred(from, to, i + 1, x) < |src|
    ensures Element(Twice(src, from, mid, to), to.w, to.h, i, x) == src[Centred(from, to, i + 1, x)]
  {
    CutsInside(|src|, from, mid, to);
    TwiceShifted(src, from, mid, to, i, x);
    RowPlace(from, to, i);
    RowStartStep(from.w, Margin(from.h, to.h) + i);
    SameRow(from.w, Margin(from.h, to.h) + i + 1, Margin(from.h, to.h) + (i + 1));
  }

  /** Seen in a picture of places, the two cuts and the one cut differ by a row. */
  lemma OddHeightsPlaces(src: seq<nat>, from: Size, mid: Size, to: Size, i: nat, x: nat, down: nat)
    requires Covers(from, mid) && Covers(mid, to) && EvenWidths(from, mid) && EvenWidths(mid, to)
    requires |src| >= Area(from) && i < to.h && x < to.w && BothOdd(from.h, mid.h, to.h) && down == i + 1
    requires forall k | 0 <= k < |src| :: src[k] == k
    ensures CutsDefined(|src|, from, mid, to)
    ensures Element(Twice(src, from, mid, to), to.w, to.h, i, x) == Centred(from, to, down, x)
    ensures Element(Cropped(src, from, to), to.w, to.h, i, x) == Centred(from, to, i, x)
  {
    CutsInside(|src|, from, mid, to);
    TwicePlaced(src, from, mid, to, i, x, down);
    OncePlaced(src, from, to, i, x);
  }

  lemma TwicePlaced(src: seq<nat>, from: Size, mid: Size, to: Size, i: nat, x: nat, down: nat)
    requires Covers(from, mid) && Covers(mid, to) && EvenWidths(from, mid) && EvenWidths(mid, to)
    requires |src| >= Area(from) && i < to.h && x < to.w && BothOdd(from.h, mid.h, to.h) && down == i + 1
    requires CutsDefined(|src|, from, mid, to) && forall k | 0 <= k < |src| :: src[k] == k
    ensures Element(Twice(src, from, mid, to), to.w, to.h, i, x) == Centred(from, to, down, x)
  {
    OddHeightsShift(src, from, mid, to, i, x);
  }

  lemma OncePlaced(src: seq<nat>, from: Size, to: Size, i: nat, x: nat)
    requires Covers(from, to) && EvenWidths(from, to) && |src| >= Area(from) && ReadEnd(from, to) <= |src|
    requires i < to.h && x < to.w && forall k | 0 <= k < |src| :: src[k] == k
    ensures Element(Cropped(src, from, to), to.w, to.h, i, x) == Centred(from, to, i, x)
  {
    CroppedIsCentred(src, from, to, i, x);
  }

  /** Three rows of two, cut to two rows and then to one, give the last row; cut at once they give the middle one. */
  lemma OddHeightsDiffer(n: nat, from: Size, mid: Size, to: Size, i: nat, x: nat, down: nat)
    requires n == 6 && from == Size(2, 3) && mid == Size(2, 2) && to == Size(2, 1) && i == 0 && x < 2 && down == 1
    ensures CutsDefined(n, from, mid, to)
    ensures Element(Twice(Places(n), from, mid, to), to.w, to.h, i, x) == 4 + x
    ensures Element(Cropped(Places(n), from, to), to.w, to.h, i, x) == 2 + x
  {
    ThreeRows(from, to, i, x, down);
    OddHeightsPlaces(Places(n), from, mid, to, i, x, down);
  }

  lemma ThreeRows(from: Size, to: Size, i: nat, x: nat, down: nat)
    requires from == Size(2, 3) && to == Size(2, 1) && i == 0 && x < 2 && down == 1
    ensures Area(from) == 6 && Centred(from, to, down, x) == 4 + x && Centred(from, to, i, x) == 2 + x
  {
    RowStartStep(from.w, 0);
    RowStartStep(from.w, 1);
    RowStartStep(from.w, 2);
  }
}
