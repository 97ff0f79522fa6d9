/**
 The two converters read the same frame: what the planar frame keeps, decoded pixel by pixel, is
 what the colour converter draws, and planar conversion undoes upsampling by row duplication.
 */
module Agreement {
  import opened Bits
  import opened Grid
  import opened PlanarConverter
  import opened RgbaConverter

  /** The index of the pixel at row `r`, column `c`. */
  function Pixel(w: nat, r: nat, c: nat): nat {
    2 * Macro(w, r, c / 2) + c % 2
  }

  lemma PixelIsRowMajor(w: nat, r: nat, c: nat)
    requires w % 2 == 0
    ensures Pixel(w, r, c) == r * w + c
  {
    SourceIndex(w, r);
    RowStartIs(w / 2, r);
    assert r * w == 2 * (r * (w / 2));
  }

  /** The sample of the pixel at row `r`, column `c` of a planar frame, Cr plane first. */
  function DecodedSample(planar: seq<Byte>, w: nat, h: nat, r: nat, c: nat): Sample
    requires EvenSize(w, h) && |planar| == PlanarSize(w, h) && r < h && c < w
  {
    PixelInFrame(w, h, r, c);
    var k := Macro(w, r / 2, c / 2);
    Sample(planar[Pixel(w, r, c)], planar[SecondChroma(w, h) + k], planar[FirstChroma(w, h) + k])
  }

  lemma PixelInFrame(w: nat, h: nat, r: nat, c: nat)
    requires EvenSize(w, h) && r < h && c < w
    ensures Pixel(w, r, c) < FirstChroma(w, h)
    ensures Macro(w, r, c / 2) < Macros(w, h)
    ensures Macro(w, r / 2, c / 2) < Macros(w, h / 2)
  {
    RowFits(w / 2, r, h);
    RowFits(w / 2, r / 2, h / 2);
  }

  /** The chroma pair of macropixel `m`. */
  function Chroma(packed: seq<Byte>, m: nat): (Byte, Byte)
    requires 4 * m + 3 < |packed|
  {
    (packed[4 * m + 1], packed[4 * m + 3])
  }

  /** The planar frame holds every pixel's own luma, and the chroma of the even row at or above it. */
  lemma DecodedIs(packed: seq<Byte>, w: nat, h: nat, r: nat, c: nat)
    requires EvenSize(w, h) && |packed| >= PackedSize(w, h) && r < h && c < w
    ensures 2 * Pixel(w, r, c) < |packed| && 4 * Macro(w, 2 * (r / 2), c / 2) + 3 < |packed|
    ensures var s := DecodedSample(Planar(packed, w, h), w, h, r, c);
            && s.y == packed[2 * Pixel(w, r, c)]
            && (s.cb, s.cr) == Chroma(packed, Macro(w, 2 * (r / 2), c / 2))
  {
    PixelInFrame(w, h, r, c);
    ChromaOfPlanar(packed, w, h, r / 2, c / 2);
    PlanarAt(packed, w, h, Pixel(w, r, c));
  }

  /** The chroma of the pixel's macropixel repeats that of the even row at or above it. */
  predicate ChromaRepeats(packed: seq<Byte>, w: nat, h: nat, r: nat, c: nat)
    requires EvenSize(w, h) && |packed| >= PackedSize(w, h) && r < h && c < w
  {
    PixelInFrame(w, h, r, c);
    PixelInFrame(w, h, 2 * (r / 2), c);
    Chroma(packed, Macro(w, r, c / 2)) == Chroma(packed, Macro(w, 2 * (r / 2), c / 2))
  }

  /**
   Decoding the planar frame gives the sample that the colour converter uses on every even row,
   and on an odd row exactly where the chroma repeats the row above.
   */
  lemma SamplesAgree(packed: seq<Byte>, w: nat, h: nat, r: nat, c: nat)
    requires EvenSize(w, h) && |packed| >= PackedSize(w, h) && r < h && c < w
    ensures Pixel(w, r, c) < 2 * Macros(w, h)
    ensures DecodedSample(Planar(packed, w, h), w, h, r, c) == Samples(packed, Macros(w, h))[Pixel(w, r, c)]
            <==> ChromaRepeats(packed, w, h, r, c)
    ensures r % 2 == 0 ==> ChromaRepeats(packed, w, h, r, c)
  {
    PixelInFrame(w, h, r, c);
    DecodedIs(packed, w, h, r, c);
    assert Pixel(w, r, c) / 2 == Macro(w, r, c / 2);
  }

  /** Hence both conversions show the same colour word on even rows and on odd rows with repeated chroma. */
  lemma ConvertersAgree(packed: seq<Byte>, w: nat, h: nat, r: nat, c: nat)
    requires EvenSize(w, h) && |packed| >= PackedSize(w, h) && r < h && c < w
    requires r % 2 == 0 || ChromaRepeats(packed, w, h, r, c)
    requires Pixel(w, r, c) < 2 * Macros(w, h)
    ensures FrameWords(packed, Macros(w, h))[Pixel(w, r, c)]
            == PixelWord(DecodedSample(Planar(packed, w, h), w, h, r, c))
  {
    SamplesAgree(packed, w, h, r, c);
    WordOfSample(packed, w, h, Pixel(w, r, c), DecodedSample(Planar(packed, w, h), w, h, r, c));
  }

  lemma WordOfSample(packed: seq<Byte>, w: nat, h: nat, p: nat, s: Sample)
    requires |packed| >= 4 * Macros(w, h) && p < 2 * Macros(w, h)
    ensures s == Samples(packed, Macros(w, h))[p] ==> FrameWords(packed, Macros(w, h))[p] == PixelWord(s)
  {
  }

  lemma RowsOfMacro(w: nat, h: nat, m: nat)
    requires EvenSize(w, h) && m < Macros(w, h)
    ensures w >= 2 && RowOf(w / 2, m) < h
  {
    if w < 2 {
      RowStartIs(w / 2, h);
    }
    RowBelow(w / 2, h, m);
  }

  /** The four bytes of a macropixel whose chroma comes from the chroma row it shares. */
  function UpsampledMacropixel(planar: seq<Byte>, w: nat, h: nat, r: nat, c: nat): (pair: seq<Byte>)
    requires EvenSize(w, h) && |planar| == PlanarSize(w, h) && r < h && c < w / 2
    ensures |pair| == 4
  {
    PixelInFrame(w, h, r, 2 * c);
    var m, k := Macro(w, r, c), Macro(w, r / 2, c);
    [planar[2 * m], planar[SecondChroma(w, h) + k], planar[2 * m + 1], planar[FirstChroma(w, h) + k]]
  }

  /** The first `n` macropixels of the packed frame in which every chroma row serves two rows of pixels. */
  function UpsampledPart(planar: seq<Byte>, w: nat, h: nat, n: nat): (packed: seq<Byte>)
    requires EvenSize(w, h) && |planar| == PlanarSize(w, h) && n <= Macros(w, h)
    ensures |packed| == 4 * n
  {
    if n == 0 then []
    else
      RowsOfMacro(w, h, n - 1);
      UpsampledPart(planar, w, h, n - 1)
      + UpsampledMacropixel(planar, w, h, RowOf(w / 2, n - 1), ColumnOf(w / 2, n - 1))
  }

  /** A packed frame from a planar one. */
  function Upsample(planar: seq<Byte>, w: nat, h: nat): (packed: seq<Byte>)
    requires EvenSize(w, h) && |planar| == PlanarSize(w, h)
    ensures |packed| == PackedSize(w, h)
  {
    UpsampledPart(planar, w, h, Macros(w, h))
  }

  lemma {:induction false} PartAt(planar: seq<Byte>, w: nat, h: nat, n: nat, r: nat, c: nat)
    requires EvenSize(w, h) && |planar| == PlanarSize(w, h) && n <= Macros(w, h)
    requires r < h && c < w / 2 && Macro(w, r, c) < n
    ensures UpsampledPart(planar, w, h, n)[4 * Macro(w, r, c)..4 * Macro(w, r, c) + 4]
            == UpsampledMacropixel(planar, w, h, r, c)
  {
    RowsOfMacro(w, h, n - 1);
    var part := UpsampledPart(planar, w, h, n - 1);
    var last := UpsampledMacropixel(planar, w, h, RowOf(w / 2, n - 1), ColumnOf(w / 2, n - 1));
    assert UpsampledPart(planar, w, h, n) == part + last;
    if Macro(w, r, c) < n - 1 {
      PartAt(planar, w, h, n - 1, r, c);
      SliceOfPart(part, last, 4 * Macro(w, r, c));
    } else {
      RowUnique(w / 2, r, c);
      assert (part + last)[|part|..|part| + 4] == last;
    }
  }

  lemma SliceOfPart(part: seq<Byte>, last: seq<Byte>, i: nat)
    requires i + 4 <= |part|
    ensures (part + last)[i..i + 4] == part[i..i + 4]
  {
  }

  lemma UpsampledAt(planar: seq<Byte>, w: nat, h: nat, r: nat, c: nat)
    requires EvenSize(w, h) && |planar| == PlanarSize(w, h) && r < h && c < w / 2
    ensures var m, k := Macro(w, r, c), Macro(w, r / 2, c);
            && m < Macros(w, h) && 2 * m + 1 < FirstChroma(w, h)
            && FirstChroma(w, h) + k < SecondChroma(w, h) <= SecondChroma(w, h) + k < PlanarSize(w, h)
            && Upsample(planar, w, h)[4 * m..4 * m + 4]
               == [planar[2 * m], planar[SecondChroma(w, h) + k], planar[2 * m + 1], planar[FirstChroma(w, h) + k]]
  {
    PixelInFrame(w, h, r, 2 * c);
    PartAt(planar, w, h, Macros(w, h), r, c);
  }

  /** The same, byte by byte. */
  lemma UpsampledBytes(planar: seq<Byte>, w: nat, h: nat, r: nat, c: nat)
    requires EvenSize(w, h) && |planar| == PlanarSize(w, h) && r < h && c < w / 2
    ensures var m, k := Macro(w, r, c), Macro(w, r / 2, c);
            && m < Macros(w, h) && 2 * m + 1 < FirstChroma(w, h)
            && FirstChroma(w, h) + k < SecondChroma(w, h) <= SecondChroma(w, h) + k < PlanarSize(w, h)
            && Upsample(planar, w, h)[4 * m] == planar[2 * m]
            && Upsample(planar, w, h)[4 * m + 1] == planar[SecondChroma(w, h) + k]
            && Upsample(planar, w, h)[4 * m + 2] == planar[2 * m + 1]
            && Upsample(planar, w, h)[4 * m + 3] == planar[FirstChroma(w, h) + k]
  {
    UpsampledAt(planar, w, h, r, c);
    Quad(Upsample(planar, w, h), 4 * Macro(w, r, c));
  }

  lemma Quad(bytes: seq<Byte>, i: nat)
    requires i + 4 <= |bytes|
    ensures bytes[i..i + 4] == [bytes[i], bytes[i + 1], bytes[i + 2], bytes[i + 3]]
  {
  }

  /** Planar conversion undoes upsampling. */
  lemma PlanarOfUpsampled(planar: seq<Byte>, w: nat, h: nat)
    requires EvenSize(w, h) && |planar| == PlanarSize(w, h)
    ensures Planar(Upsample(planar, w, h), w, h) == planar
  {
    var back := Planar(Upsample(planar, w, h), w, h);
    forall k | 0 <= k < PlanarSize(w, h)
      ensures back[k] == planar[k]
    {
      PlanarOfUpsampledAt(planar, w, h, k);
    }
  }

  lemma PlanarOfUpsampledAt(planar: seq<Byte>, w: nat, h: nat, k: nat)
    requires EvenSize(w, h) && |planar| == PlanarSize(w, h) && k < |planar|
    ensures Planar(Upsample(planar, w, h), w, h)[k] == planar[k]
  {
    PlanarAt(Upsample(planar, w, h), w, h, k);
    if k < FirstChroma(w, h) {
      LumaKept(planar, w, h, k);
    } else if k < SecondChroma(w, h) {
      ChromaKept(planar, w, h, k - FirstChroma(w, h));
    } else {
      ChromaKept(planar, w, h, k - SecondChroma(w, h));
    }
  }

  lemma LumaKept(planar: seq<Byte>, w: nat, h: nat, k: nat)
    requires EvenSize(w, h) && |planar| == PlanarSize(w, h) && k < FirstChroma(w, h)
    ensures k < |planar| && 2 * k < PackedSize(w, h)
    ensures Upsample(planar, w, h)[2 * k] == planar[k]
  {
    RowsOfMacro(w, h, k / 2);
    UpsampledBytes(planar, w, h, RowOf(w / 2, k / 2), ColumnOf(w / 2, k / 2));
    assert k == 2 * (k / 2) || k == 2 * (k / 2) + 1;
  }

  lemma ChromaKept(planar: seq<Byte>, w: nat, h: nat, s: nat)
    requires EvenSize(w, h) && |planar| == PlanarSize(w, h) && s < Macros(w, h / 2)
    ensures FirstChroma(w, h) + s < SecondChroma(w, h) && SecondChroma(w, h) + s < |planar|
    ensures Upsample(planar, w, h)[4 * ChromaMacro(w, h, s) + 3] == planar[FirstChroma(w, h) + s]
    ensures Upsample(planar, w, h)[4 * ChromaMacro(w, h, s) + 1] == planar[SecondChroma(w, h) + s]
  {
    RowStartTwice(w / 2, h / 2);
    RowsOfMacro(w, h, s);
    RowBelow(w / 2, h / 2, s);
    var r, c := RowOf(w / 2, s), ColumnOf(w / 2, s);
    UpsampledBytes(planar, w, h, 2 * r, c);
  }

  /** The macropixel in the same column of the even row at or above `m`. */
  function EvenRowAbove(w: nat, h: nat, m: nat): (e: nat)
    requires EvenSize(w, h) && m < Macros(w, h)
    ensures e < Macros(w, h)
  {
    RowsOfMacro(w, h, m);
    RowFits(w / 2, 2 * (RowOf(w / 2, m) / 2), h);
    Macro(w, 2 * (RowOf(w / 2, m) / 2), ColumnOf(w / 2, m))
  }

  /** A packed frame whose odd rows repeat the chroma of the row above. */
  predicate RowsPaired(packed: seq<Byte>, w: nat, h: nat)
    requires EvenSize(w, h) && |packed| == 4 * Macros(w, h)
  {
    forall m | 0 <= m < Macros(w, h) ::
      Chroma(packed, m) == Chroma(packed, EvenRowAbove(w, h, m))
  }

  /** Upsampled again, macropixel (r, c) has its own lumas and the chroma of the even row at or above it. */
  lemma RestoredAt(packed: seq<Byte>, w: nat, h: nat, r: nat, c: nat)
    requires EvenSize(w, h) && |packed| == PackedSize(w, h) && r < h && c < w / 2
    ensures Restored(Upsample(Planar(packed, w, h), w, h), packed, Macro(w, r, c), Macro(w, 2 * (r / 2), c))
  {
    UpsampledBytes(Planar(packed, w, h), w, h, r, c);
    LumaOfPlanar(packed, w, h, Macro(w, r, c));
    ChromaOfPlanar(packed, w, h, r / 2, c);
  }

  lemma RestoredMacropixel(packed: seq<Byte>, w: nat, h: nat, m: nat)
    requires EvenSize(w, h) && |packed| == PackedSize(w, h) && m < Macros(w, h)
    ensures Restored(Upsample(Planar(packed, w, h), w, h), packed, m, EvenRowAbove(w, h, m))
  {
    RowsOfMacro(w, h, m);
    RestoredAt(packed, w, h, RowOf(w / 2, m), ColumnOf(w / 2, m));
  }

  /** Macropixel `m` of `again` has the lumas of `m` and the chroma of `e` in `packed`. */
  predicate Restored(again: seq<Byte>, packed: seq<Byte>, m: nat, e: nat) {
    && 4 * m + 3 < |again| == |packed| && 4 * e + 3 < |packed|
    && again[4 * m] == packed[4 * m] && again[4 * m + 2] == packed[4 * m + 2]
    && Chroma(again, m) == Chroma(packed, e)
  }

  lemma LumaOfPlanar(packed: seq<Byte>, w: nat, h: nat, m: nat)
    requires EvenSize(w, h) && |packed| == PackedSize(w, h) && m < Macros(w, h)
    ensures 2 * m + 1 < FirstChroma(w, h) <= PlanarSize(w, h) && 4 * m + 3 < |packed|
    ensures Planar(packed, w, h)[2 * m] == packed[4 * m] && Planar(packed, w, h)[2 * m + 1] == packed[4 * m + 2]
  {
    PlanarAt(packed, w, h, 2 * m);
    PlanarAt(packed, w, h, 2 * m + 1);
  }

  /** Upsampling restores a packed frame exactly when its odd rows repeat the chroma above them. */
  lemma UpsampledPlanar(packed: seq<Byte>, w: nat, h: nat)
    requires EvenSize(w, h) && |packed| == PackedSize(w, h)
    ensures Upsample(Planar(packed, w, h), w, h) == packed <==> RowsPaired(packed, w, h)
  {
    var again := Upsample(Planar(packed, w, h), w, h);
    forall m | 0 <= m < Macros(w, h)
      ensures Restored(again, packed, m, EvenRowAbove(w, h, m))
    {
      RestoredMacropixel(packed, w, h, m);
    }
    SameMacropixels(again, packed, w, h);
  }

  lemma SameMacropixels(a: seq<Byte>, b: seq<Byte>, w: nat, h: nat)
    requires EvenSize(w, h) && |a| == |b| == PackedSize(w, h)
    requires forall m | 0 <= m < Macros(w, h) :: Restored(a, b, m, EvenRowAbove(w, h, m))
    ensures a == b <==> RowsPaired(b, w, h)
  {
    if RowsPaired(b, w, h) {
      forall k | 0 <= k < |a|
        ensures a[k] == b[k]
      {
        var m := k / 4;
        assert Restored(a, b, m, EvenRowAbove(w, h, m));
        SameBytes(a, b, m, EvenRowAbove(w, h, m), k);
      }
    } else {
      var m :| 0 <= m < Macros(w, h) && Chroma(b, m) != Chroma(b, EvenRowAbove(w, h, m));
      assert Restored(a, b, m, EvenRowAbove(w, h, m));
    }
  }

  lemma SameBytes(a: seq<Byte>, b: seq<Byte>, m: nat, e: nat, k: nat)
    requires Restored(a, b, m, e) && Chroma(b, m) == Chroma(b, e) && k / 4 == m
    ensures k < |a| && a[k] == b[k]
  {
    assert k == 4 * m || k == 4 * m + 1 || k == 4 * m + 2 || k == 4 * m + 3;
  }
}
