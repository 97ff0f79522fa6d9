/** The byte-level copy loop of copyFrameCenterGravity, and what it does to pixels of several bytes. */
module CropCopy {
  import opened Bits
  import opened Grid
  import opened Crop

  lemma {:induction false} RowStartScaled(p: nat, n: nat, r: nat)
    ensures RowStart(RowStart(p, n), r) == RowStart(p, RowStart(n, r))
  {
    if r > 0 {
      RowStartScaled(p, n, r - 1);
      RowStartSum(p, RowStart(n, r - 1), n);
    }
  }

  /** The bytes of the copy: rows of `to.w` pixels of `p` bytes. */
  function CroppedBytes(src: seq<Byte>, from: Size, to: Size, p: nat): (dest: seq<Byte>)
    requires Covers(from, to) && |src| >= RowStart(p, ReadEnd(from, to))
    ensures |dest| == RowStart(p, Area(to))
  {
    BytesInside(from, to, p);
    RowStartScaled(p, to.w, to.h);
    Rows(src, RowStart(p, Origin(from, to)), RowStart(p, Stride(from, to)), RowStart(p, to.w), to.h)
  }

  /** The reads end where the last row ends. */
  lemma BytesInside(from: Size, to: Size, p: nat)
    requires Covers(from, to)
    ensures RowStart(p, to.w) <= RowStart(p, Stride(from, to))
    ensures to.h == 0 ||
            RowStart(p, Origin(from, to)) + RowStart(RowStart(p, Stride(from, to)), to.h - 1) + RowStart(p, to.w)
            == RowStart(p, ReadEnd(from, to))
  {
    RowsOrdered(p, to.w, Stride(from, to));
    if to.h > 0 {
      PlaceOfPixel(p, Stride(from, to), Origin(from, to), to.h - 1, to.w);
    }
  }

  /** Pixel `k` of a buffer whose pixels take `p` bytes. */
  function PixelAt(bytes: seq<Byte>, p: nat, k: nat): seq<Byte>
    requires RowStart(p, k) + p <= |bytes|
  {
    bytes[RowStart(p, k)..RowStart(p, k) + p]
  }

  lemma PixelInside(p: nat, k: nat, n: nat)
    requires k < n
    ensures RowStart(p, k) + p <= RowStart(p, n)
  {
    RowFits(p, k, n);
  }

  /** The first `n` pixels of a buffer. */
  function Pixels(bytes: seq<Byte>, p: nat, n: nat): (pixels: seq<seq<Byte>>)
    requires RowStart(p, n) <= |bytes|
    ensures |pixels| == n
  {
    seq(n, k requires 0 <= k < n => PixelInside(p, k, n); PixelAt(bytes, p, k))
  }

  lemma SubSlice(a: seq<Byte>, i: nat, len: nat, at: nat, p: nat)
    requires i + len <= |a| && at + p <= len
    ensures a[i + at..i + at + p] == a[i..i + len][at..at + p]
  {
    var s, t := a[i + at..i + at + p], a[i..i + len][at..at + p];
    assert |s| == |t| && forall k | 0 <= k < p :: s[k] == a[i + at + k] && t[k] == a[i..i + len][at + k];
  }

  /** Row `i` of the copied bytes. */
  lemma RowOfCopy(src: seq<Byte>, from: Size, to: Size, p: nat, i: nat)
    requires Covers(from, to) && |src| >= RowStart(p, ReadEnd(from, to)) && i < to.h
    ensures SameStretch(CroppedBytes(src, from, to, p), RowStart(RowStart(p, to.w), i), src,
                        RowStart(p, Origin(from, to)) + RowStart(RowStart(p, Stride(from, to)), i), RowStart(p, to.w))
  {
    BytesInside(from, to, p);
    RowsAt(src, RowStart(p, Origin(from, to)), RowStart(p, Stride(from, to)), RowStart(p, to.w), to.h, i);
  }

  /** A pixel inside two equal rows of `w` pixels. */
  lemma PixelOfRow(a: seq<Byte>, i: nat, b: seq<Byte>, j: nat, w: nat, p: nat, x: nat)
    requires x < w && SameStretch(a, i, b, j, RowStart(p, w))
    ensures SameStretch(a, i + RowStart(p, x), b, j + RowStart(p, x), p)
  {
    PixelInside(p, x, w);
    SubSlice(a, i, RowStart(p, w), RowStart(p, x), p);
    SubSlice(b, j, RowStart(p, w), RowStart(p, x), p);
  }

  /** Pixel (i, x) of the copied bytes is the pixel that the cropped picture has there. */
  lemma PixelOfCopy(src: seq<Byte>, from: Size, to: Size, p: nat, i: nat, x: nat)
    requires Covers(from, to) && |src| >= RowStart(p, ReadEnd(from, to)) && i < to.h && x < to.w
    ensures SameStretch(CroppedBytes(src, from, to, p), RowStart(p, RowStart(to.w, i) + x), src, RowStart(p, RowSource(from, to, i) + x), p)
  {
    var row, rowOfSource := RowStart(RowStart(p, to.w), i), RowStart(p, Origin(from, to)) + RowStart(RowStart(p, Stride(from, to)), i);
    RowOfCopy(src, from, to, p, i);
    PixelOfRow(CroppedBytes(src, from, to, p), row, src, rowOfSource, to.w, p, x);
    PlaceOfPixel(p, to.w, 0, i, x);
    PlaceInSource(from, to, p, i, x);
  }

  lemma PlaceInSource(from: Size, to: Size, p: nat, i: nat, x: nat)
    requires Covers(from, to)
    ensures RowStart(p, RowSource(from, to, i) + x)
            == RowStart(p, Origin(from, to)) + RowStart(RowStart(p, Stride(from, to)), i) + RowStart(p, x)
  {
    PlaceOfPixel(p, Stride(from, to), Origin(from, to), i, x);
  }

  /** Where pixel `x` of row `i` is, in bytes. */
  lemma PlaceOfPixel(p: nat, stride: nat, off: nat, i: nat, x: nat)
    ensures RowStart(p, off + RowStart(stride, i) + x)
            == RowStart(p, off) + RowStart(RowStart(p, stride), i) + RowStart(p, x)
  {
    RowStartScaled(p, stride, i);
    RowStartSum(p, off, RowStart(stride, i));
    RowStartSum(p, off + RowStart(stride, i), x);
  }

  /** Seen as pixels, copying the bytes crops the picture. */
  lemma CopyCrops(src: seq<Byte>, from: Size, to: Size, p: nat, n: nat)
    requires Covers(from, to) && n >= ReadEnd(from, to) && |src| >= RowStart(p, n) >= RowStart(p, ReadEnd(from, to))
    ensures Pixels(CroppedBytes(src, from, to, p), p, Area(to)) == Cropped(Pixels(src, p, n), from, to)
  {
    var copied, cropped := Pixels(CroppedBytes(src, from, to, p), p, Area(to)), Cropped(Pixels(src, p, n), from, to);
    forall i, x | 0 <= i < to.h && 0 <= x < to.w
      ensures Element(copied, to.w, to.h, i, x) == Element(cropped, to.w, to.h, i, x)
    {
      SameElementOfCopy(src, from, to, p, n, i, x);
    }
    SamePicture(copied, cropped, to.w, to.h);
  }

  lemma SameElementOfCopy(src: seq<Byte>, from: Size, to: Size, p: nat, n: nat, i: nat, x: nat)
    requires Covers(from, to) && n >= ReadEnd(from, to) && |src| >= RowStart(p, n) >= RowStart(p, ReadEnd(from, to))
    requires i < to.h && x < to.w
    ensures Element(Pixels(CroppedBytes(src, from, to, p), p, Area(to)), to.w, to.h, i, x)
            == Element(Cropped(Pixels(src, p, n), from, to), to.w, to.h, i, x)
  {
    var k := RowSource(from, to, i) + x;
    ReadPixel(from, to, i, x, n);
    CopiedPixel(src, from, to, p, n, i, x, k);
    CroppedPixel(Pixels(src, p, n), from, to, i, x, k);
  }

  lemma ReadPixel(from: Size, to: Size, i: nat, x: nat, n: nat)
    requires Covers(from, to) && n >= ReadEnd(from, to) && i < to.h && x < to.w
    ensures RowSource(from, to, i) + x < n
  {
    RowsOrdered(Stride(from, to), i, to.h - 1);
  }

  /** An element of the copied bytes, seen as pixels. */
  lemma CopiedPixel(src: seq<Byte>, from: Size, to: Size, p: nat, n: nat, i: nat, x: nat, k: nat)
    requires Covers(from, to) && n >= ReadEnd(from, to) && |src| >= RowStart(p, n) >= RowStart(p, ReadEnd(from, to))
    requires i < to.h && x < to.w && k == RowSource(from, to, i) + x && k < n
    ensures Element(Pixels(CroppedBytes(src, from, to, p), p, Area(to)), to.w, to.h, i, x) == Pixels(src, p, n)[k]
  {
    RowFits(to.w, i, to.h);
    PixelOfCopy(src, from, to, p, i, x);
  }

  lemma CroppedPixel(pixels: seq<seq<Byte>>, from: Size, to: Size, i: nat, x: nat, k: nat)
    requires Covers(from, to) && |pixels| >= ReadEnd(from, to) && i < to.h && x < to.w
    requires k == RowSource(from, to, i) + x && k < |pixels|
    ensures Element(Cropped(pixels, from, to), to.w, to.h, i, x) == pixels[k]
  {
    CroppedAt(pixels, from, to, i, x);
  }

  /** memcpy(dest + d, src + s, n), where `src` is what the source memory holds. */
  method Memcpy(dest: array<Byte>, d: nat, src: seq<Byte>, s: nat, n: nat)
    requires d + n <= dest.Length && s + n <= |src|
    modifies dest
    ensures dest[..d] == old(dest[..d])
    ensures dest[d..d + n] == src[s..s + n]
    ensures dest[d + n..] == old(dest[d + n..])
  {
    forall i | 0 <= i < n {
      dest[d + i] := src[s + i];
    }
  }

  /** `x << k` */
  function Shl(x: nat, k: nat): nat {
    x * Pow2(k)
  }

  /** The source's byte counts, as rows of pixels. */
  lemma ByteCounts(from: Size, to: Size, k: nat)
    requires Covers(from, to)
    ensures Shl(Margin(from.h, to.h) * from.w + Margin(from.w, to.w), k) == RowStart(Pow2(k), Origin(from, to))
    ensures Shl(to.w, k) == RowStart(Pow2(k), to.w)
    ensures Shl(to.w, k) + Shl(Margin(from.w, to.w), k + 1) == RowStart(Pow2(k), Stride(from, to))
  {
    var p, v, m := Pow2(k), Margin(from.h, to.h), Margin(from.w, to.w);
    RowStartIs(from.w, v);
    RowStartIs(p, Origin(from, to));
    RowStartIs(p, to.w);
    RowStartIs(p, Stride(from, to));
    StrideBytes(to.w, m, p);
  }

  lemma StrideBytes(w: nat, m: nat, p: nat)
    ensures w * p + m * (2 * p) == (w + 2 * m) * p
  {
  }

  /** What the loop has copied after `i` rows. */
  ghost predicate CopiedRows(out: seq<Byte>, was: seq<Byte>, src: seq<Byte>, off: nat, stride: nat, len: nat, i: nat) {
    && len <= stride && (i == 0 || off + RowStart(stride, i - 1) + len <= |src|)
    && RowStart(len, i) <= |out| == |was|
    && out[..RowStart(len, i)] == Rows(src, off, stride, len, i)
    && out[RowStart(len, i)..] == was[RowStart(len, i)..]
  }

  lemma CopyStep(out: seq<Byte>, out': seq<Byte>, was: seq<Byte>, src: seq<Byte>, off: nat, stride: nat, len: nat, i: nat)
    requires CopiedRows(out, was, src, off, stride, len, i)
    requires RowStart(len, i) + len <= |out| == |out'| && off + RowStart(stride, i) + len <= |src|
    requires var d, s := RowStart(len, i), off + RowStart(stride, i);
             out'[..d] == out[..d] && out'[d..d + len] == src[s..s + len] && out'[d + len..] == out[d + len..]
    ensures CopiedRows(out', was, src, off, stride, len, i + 1)
  {
    var s := off + RowStart(stride, i);
    if i > 0 {
      RowsOrdered(stride, i - 1, i);
    }
    Spliced(out, out', was, Rows(src, off, stride, len, i), src[s..s + len]);
    RowsStep(src, off, stride, len, i);
  }

  /** One more piece behind the part already copied. */
  lemma Spliced(out: seq<Byte>, out': seq<Byte>, was: seq<Byte>, first: seq<Byte>, piece: seq<Byte>)
    requires |first| + |piece| <= |out| == |out'| == |was|
    requires out[..|first|] == first && out[|first|..] == was[|first|..]
    requires var d, e := |first|, |first| + |piece|;
             out'[..d] == out[..d] && out'[d..e] == piece && out'[e..] == out[e..]
    ensures out'[..|first| + |piece|] == first + piece && out'[|first| + |piece|..] == was[|first| + |piece|..]
  {
    var d, e := |first|, |first| + |piece|;
    assert out'[..e] == out'[..d] + out'[d..e];
    assert out[e..] == out[d..][|piece|..];
    assert was[e..] == was[d..][|piece|..];
  }

  /**
   The reads go on past the end of the source picture where its size says so: `behind` is what lies
   there in memory. They stay inside the picture exactly under the condition of ReadsStay.
   */
  method CopyFrameCenterGravity(dest: array<Byte>, src: array<Byte>, destW: nat, destH: nat,
                                srcW: nat, srcH: nat, bppShift: nat, behind: seq<Byte>)
    requires dest != src
    requires var from, to := Size(srcW, srcH), Size(destW, destH);
             Covers(from, to) ==>
               && dest.Length >= RowStart(Pow2(bppShift), Area(to))
               && src.Length + |behind| >= RowStart(Pow2(bppShift), ReadEnd(from, to))
    modifies dest
    ensures var from, to := Size(srcW, srcH), Size(destW, destH);
            var n := RowStart(Pow2(bppShift), Area(to));
            if Covers(from, to) then
              && dest[..n] == CroppedBytes(src[..] + behind, from, to, Pow2(bppShift))
              && dest[n..] == old(dest[n..])
            else
              dest[..] == old(dest[..])
  {
    if srcW < destW || srcH < destH {
      return;
    }
    ghost var from, to, p := Size(srcW, srcH), Size(destW, destH), Pow2(bppShift);
    var srcOff, copyOnce, gap := ByteOffsets(destW, destH, srcW, srcH, bppShift);
    BytesInside(from, to, p);
    RowStartScaled(p, destW, destH);
    CopyRows(dest, src[..] + behind, destH, srcOff, copyOnce, gap);
  }

  /** The sizes for which all reads stay inside the source picture. */
  predicate ReadsStay(from: Size, to: Size)
    requires Covers(from, to)
  {
    EvenWidths(from, to) || to.h == 0
    || to.h - 1 <= RowStart(from.w, from.h - to.h - Margin(from.h, to.h)) + (from.w - to.w - Margin(from.w, to.w))
  }

  lemma ReadsStayExactly(from: Size, to: Size)
    requires Covers(from, to)
    ensures ReadEnd(from, to) <= Area(from) <==> ReadsStay(from, to)
  {
    if EvenWidths(from, to) {
      ReadsInside(from, to);
    } else if to.h > 0 {
      OddReads(from, to);
    }
  }

  /** What lies behind the read bytes does not matter. */
  lemma BehindUnread(src: seq<Byte>, behind: seq<Byte>, from: Size, to: Size, p: nat)
    requires Covers(from, to) && RowStart(p, ReadEnd(from, to)) <= |src|
    ensures CroppedBytes(src + behind, from, to, p) == CroppedBytes(src, from, to, p)
  {
    BytesInside(from, to, p);
    SameRows(src, behind, RowStart(p, Origin(from, to)), RowStart(p, Stride(from, to)), RowStart(p, to.w), to.h);
  }

  lemma {:induction false} SameRows(src: seq<Byte>, behind: seq<Byte>, off: nat, stride: nat, len: nat, n: nat)
    requires len <= stride && (n == 0 || off + RowStart(stride, n - 1) + len <= |src|)
    ensures Rows(src + behind, off, stride, len, n) == Rows(src, off, stride, len, n)
  {
    if n > 0 {
      if n > 1 {
        RowsOrdered(stride, n - 2, n - 1);
      }
      SameRows(src, behind, off, stride, len, n - 1);
      var at := off + RowStart(stride, n - 1);
      assert (src + behind)[at..at + len] == src[at..at + len];
    }
  }

  /** The offsets that the source computes with shifts, and the gap between copied rows. */
  method ByteOffsets(destW: nat, destH: nat, srcW: nat, srcH: nat, bppShift: nat)
    returns (srcOff: nat, copyOnce: nat, gap: nat)
    requires Covers(Size(srcW, srcH), Size(destW, destH))
    ensures srcOff == RowStart(Pow2(bppShift), Origin(Size(srcW, srcH), Size(destW, destH)))
    ensures copyOnce == RowStart(Pow2(bppShift), destW)
    ensures copyOnce + gap == RowStart(Pow2(bppShift), Stride(Size(srcW, srcH), Size(destW, destH)))
  {
    var horizontalMargin := (srcW - destW + 1) / 2;
    var verticalMargin := (srcH - destH + 1) / 2;
    srcOff := Shl(verticalMargin * srcW + horizontalMargin, bppShift);
    copyOnce := Shl(destW, bppShift);
    gap := Shl(horizontalMargin, bppShift + 1);
    ByteCounts(Size(srcW, srcH), Size(destW, destH), bppShift);
  }

  /** One round of the copy loop. */
  method CopyRow(dest: array<Byte>, src: seq<Byte>, i: nat, copyed: nat, srcOff: nat, copyOnce: nat,
                 ghost was: seq<Byte>, ghost off: nat, ghost stride: nat)
    requires CopiedRows(dest[..], was, src, off, stride, copyOnce, i)
    requires copyed == RowStart(copyOnce, i) && srcOff == off + RowStart(stride, i)
    requires copyed + copyOnce <= dest.Length && srcOff + copyOnce <= |src|
    modifies dest
    ensures CopiedRows(dest[..], was, src, off, stride, copyOnce, i + 1)
  {
    ghost var out := dest[..];
    Memcpy(dest, copyed, src, srcOff, copyOnce);
    CopyStep(out, dest[..], was, src, off, stride, copyOnce, i);
  }

  /** The copy loop. */
  method CopyRows(dest: array<Byte>, src: seq<Byte>, destH: nat, srcOff0: nat, copyOnce: nat, gap: nat)
    requires dest.Length >= RowStart(copyOnce, destH)
    requires destH == 0 || srcOff0 + RowStart(copyOnce + gap, destH - 1) + copyOnce <= |src|
    modifies dest
    ensures CopiedRows(dest[..], old(dest[..]), src, srcOff0, copyOnce + gap, copyOnce, destH)
  {
    ghost var was := dest[..];
    ghost var stride := copyOnce + gap;
    var srcOff, copyed := srcOff0, 0;
    for i := 0 to destH
      invariant srcOff == srcOff0 + RowStart(stride, i) && copyed == RowStart(copyOnce, i)
      invariant CopiedRows(dest[..], was, src, srcOff0, stride, copyOnce, i)
    {
      RowFits(copyOnce, i, destH);
      RowsOrdered(stride, i, destH - 1);
      CopyRow(dest, src, i, copyed, srcOff, copyOnce, was, srcOff0, stride);
      copyed := copyed + copyOnce;
      srcOff := srcOff + (copyOnce + gap);
    }
  }
}
