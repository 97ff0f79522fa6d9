/**
 The camera object between its frames and its surfaces: which window gets which bytes when a frame
 is drawn, for any preview window, any list of encoder windows and any answers of the windows.
 */
module Surfaces {
  import opened Bits
  import opened Sequences
  import opened PlanarConverter
  import opened Crop
  import opened CropCopy
  import opened Windows
  import opened Preview

  /** An encoder window and the memory behind it, whose rows are `stride` pixels apart. */
  class Window {
    const size: Size
    const stride: nat
    const bits: array<Byte>

    constructor (size: Size, stride: nat, bits: array<Byte>)
      requires stride >= size.w
      ensures this.size == size && this.stride == stride && this.bits == bits
    {
      this.size := size;
      this.stride := stride;
      this.bits := bits;
    }
  }

  /** Whether one of the first `n` visits of the list found this window and could lock it. */
  ghost predicate Locked(encoders: seq<Window>, locks: seq<bool>, n: nat, w: Window)
    requires n <= |encoders| <= |locks|
  {
    exists k :: 0 <= k < n && encoders[k] == w && locks[k]
  }

  lemma LockedNext(encoders: seq<Window>, locks: seq<bool>, n: nat, w: Window)
    requires n < |encoders| <= |locks|
    ensures Locked(encoders, locks, n + 1, w) <==> Locked(encoders, locks, n, w) || (encoders[n] == w && locks[n])
  {
    if Locked(encoders, locks, n, w) {
      var k :| 0 <= k < n && encoders[k] == w && locks[k];
      assert 0 <= k < n + 1;
    }
    if encoders[n] == w && locks[n] {
      assert 0 <= n < n + 1;
    }
  }

  lemma OthersStay(list: seq<Window>, window: Window)
    ensures forall w :: w in Without(list, window) <==> w in list && w != window
  {
    WithoutKeepsOthers(list, window);
    forall w
      ensures w in Without(list, window) <==> w in list && w != window
    {
      assert w in Without(list, window) <==> w in multiset(Without(list, window));
      assert w in list <==> w in multiset(list);
    }
  }

  class Camera {
    const size: Size
    var yuv420: array?<Byte>
    var rgba: array?<Byte>
    var preview: bool               // a preview window is set
    var encoders: seq<Window>

    ghost predicate Valid()
      reads this
    {
      && EvenSize(size.w, size.h)
      && (yuv420 != null ==> yuv420.Length == PlanarSize(size.w, size.h))
      && (rgba != null ==> rgba.Length == 8 * Macros(size.w, size.h))
      && (forall w | w in encoders :: w.bits != rgba && w.bits != yuv420)
      && (forall w, w' | w in encoders && w' in encoders && w != w' :: w.bits != w'.bits)
    }

    /** Each listed window has the memory that its copy needs, and the copy's reads end in the memory behind the image. */
    ghost predicate WindowsFit(behind: nat)
      reads this
    {
      forall w | w in encoders :: Room(w.bits.Length, 8 * Macros(size.w, size.h) + behind, size, w.size)
    }

    constructor (width: nat, height: nat)
      requires EvenSize(width, height)
      ensures Valid() && size == Size(width, height) && encoders == [] && !preview
    {
      size := Size(width, height);
      yuv420, rgba, preview, encoders := null, null, false, [];
    }

    /** One visit of the encoder loop; `behind` is what lies behind the image in memory. */
    method DrawWindow(w: Window, locked: bool, image: array<Byte>, behind: seq<Byte>)
      requires Valid() && w.bits != image && image.Length == 8 * Macros(size.w, size.h)
      requires Room(w.bits.Length, image.Length + |behind|, size, w.size)
      modifies w.bits
      ensures w.bits[..] == if locked then Shown(old(w.bits[..]), image[..] + behind, size, w.size) else old(w.bits[..])
    {
      if locked {
        ghost var was := w.bits[..];
        ImageBytes(size.w, size.h);
        if size.w == w.size.w && size.h == w.size.h {
          WholeImage(image[..], size);
          BehindUnread(image[..], behind, size, size, PIXEL);
          Memcpy(w.bits, 0, image[..], 0, image.Length);
          TwoParts(w.bits[..], image[..], was);
        } else {
          CopyFrameCenterGravity(w.bits, image, w.size.w, w.size.h, size.w, size.h, PIXEL_SHIFT, behind);
          if Covers(size, w.size) {
            TwoParts(w.bits[..], CroppedBytes(image[..] + behind, size, w.size, PIXEL), was);
          }
        }
      }
    }

    /** What a window shows once the first `n` entries of the list have been visited. */
    ghost predicate Visited(w: Window, was: seq<Byte>, image: seq<Byte>, locks: seq<bool>, n: nat)
      reads this, w.bits
      requires n <= |encoders| <= |locks| && Room(|was|, |image|, size, w.size)
    {
      w.bits[..] == if Locked(encoders, locks, n, w) then Shown(was, image, size, w.size) else was
    }

    lemma VisitedNext(w: Window, was: seq<Byte>, image: seq<Byte>, locks: seq<bool>, n: nat, before: seq<Byte>)
      requires n < |encoders| <= |locks| && Room(|was|, |image|, size, w.size)
      requires before == if Locked(encoders, locks, n, w) then Shown(was, image, size, w.size) else was
      requires w.bits[..] == if encoders[n] == w && locks[n] then Shown(before, image, size, w.size) else before
      ensures Visited(w, was, image, locks, n + 1)
    {
      LockedNext(encoders, locks, n, w);
      ShownTwice(was, image, size, w.size);
    }

    /** The encoder loop. */
    method DrawWindows(image: array<Byte>, locks: seq<bool>, behind: seq<Byte>)
      requires Valid() && WindowsFit(|behind|) && |locks| >= |encoders|
      requires image.Length == 8 * Macros(size.w, size.h)
      requires forall w | w in encoders :: w.bits != image
      modifies set w | w in encoders :: w.bits
      ensures image[..] == old(image[..])
      ensures forall w | w in encoders :: Visited(w, old(w.bits[..]), image[..] + behind, locks, |encoders|)
    {
      for i := 0 to |encoders|
        invariant image[..] == old(image[..])
        invariant forall w | w in encoders :: Visited(w, old(w.bits[..]), image[..] + behind, locks, i)
      {
        label Before:
        DrawWindow(encoders[i], locks[i], image, behind);
        forall w | w in encoders
          ensures Visited(w, old(w.bits[..]), image[..] + behind, locks, i + 1)
        {
          VisitedNext(w, old(w.bits[..]), image[..] + behind, locks, i, old@Before(w.bits[..]));
        }
      }
    }

    /**
     drawEncoderSurface: every listed window whose lock succeeds shows the crop of this frame's image,
     every other one what it showed before; without windows the image buffer is given up. Where the
     sizes make the copy read on past the image, it shows what lies `behind` it; FromFrameExactly says
     when it does not.
     */
    method DrawEncoderSurface(frame: array<Byte>, locks: seq<bool>, behind: seq<Byte>)
      requires Valid() && WindowsFit(|behind|) && |locks| >= |encoders|
      requires frame.Length >= PackedSize(size.w, size.h) && frame != rgba
      requires forall w | w in encoders :: w.bits != frame
      modifies this`rgba, rgba, set w | w in encoders :: w.bits
      ensures Valid()
      ensures rgba == null <==> encoders == []
      ensures rgba != null ==> (rgba == old(rgba) || fresh(rgba)) && rgba[..] == FrameImage(frame[..], size)
      ensures forall w | w in encoders :: Visited(w, old(w.bits[..]), FrameImage(frame[..], size) + behind, locks, |encoders|)
    {
      if |encoders| == 0 {
        rgba := null;
        return;
      }
      var image: array<Byte>;
      if rgba == null {
        image := new Byte[8 * Macros(size.w, size.h)];
        rgba := image;
      } else {
        image := rgba;
      }
      RgbaConverter.Yvyu2RGBA(image, frame, size.w, size.h);
      assert image[..] == FrameImage(frame[..], size);
      DrawWindows(image, locks, behind);
    }

    /** setPreviewSurface: a null surface takes the preview away, an invalid one is ignored. */
    method SetPreviewSurface(given: bool, isValid: bool)
      requires Valid()
      modifies this`preview
      ensures Valid() && preview == if given && !isValid then old(preview) else given
    {
      if !given {
        preview := false;
        return;
      }
      if !isValid {
        return;
      }
      preview := true;
    }

    /** addEncoderSurface: a null or invalid surface is ignored. */
    method AddEncoderSurface(window: Window?, isValid: bool)
      requires Valid()
      requires window != null ==> window.bits != rgba && window.bits != yuv420
      requires window != null ==> forall w | w in encoders && w != window :: w.bits != window.bits
      modifies this`encoders
      ensures Valid()
      ensures encoders == old(encoders) + (if window == null || !isValid then [] else [window])
    {
      if window == null {
        return;
      }
      if !isValid {
        return;
      }
      encoders := encoders + [window];
    }

    /** removeEncoderSurface: all entries of a valid window go, all others stay in order. */
    method RemoveEncoderSurface(window: Window?, isValid: bool)
      requires Valid()
      modifies this`encoders
      ensures Valid()
      ensures window == null || !isValid ==> encoders == old(encoders)
      ensures window != null && isValid ==> var w: Window := window; w !in encoders && exists at :: Picks(old(encoders), w, encoders, at)
    {
      if window == null {
        return;
      }
      if !isValid {
        return;
      }
      var w: Window := window;
      OthersStay(encoders, w);
      ghost var at := WithoutPicks(encoders, w);
      encoders := Without(encoders, w);
    }

    /**
     drawPreviewSurface: with a preview window the frame is converted, and copied if the window has
     a buffer for it; without one the planar buffer is given up. The copy takes as many bytes as the
     stride and height of the window buffer say, and where that is more than the planar frame it goes
     on into whatever lies `behind` it in memory; `inside` says that it does not.
     */
    method DrawPreviewSurface(frame: array<Byte>, dequeued: bool, dst: array<Byte>, stride: nat, height: nat, behind: seq<Byte>)
      returns (inside: bool)
      requires Valid()
      requires frame.Length >= PackedSize(size.w, size.h) && frame != yuv420 && frame != dst && dst != yuv420
      requires preview && dequeued ==>
                 CopyLength(stride, height) <= dst.Length && CopyLength(stride, height) <= PlanarSize(size.w, size.h) + |behind|
      requires forall w | w in encoders :: w.bits != dst
      modifies this`yuv420, yuv420, dst
      ensures Valid()
      ensures yuv420 == null <==> !preview
      ensures yuv420 != null ==> (yuv420 == old(yuv420) || fresh(yuv420)) && yuv420[..] == Planar(frame[..], size.w, size.h)
      ensures dst[..] == if preview && dequeued then Overwritten(old(dst[..]), Planar(frame[..], size.w, size.h) + behind, CopyLength(stride, height))
                         else old(dst[..])
      ensures inside <==> !(preview && dequeued) || CopyLength(stride, height) <= PlanarSize(size.w, size.h)
      ensures size.w > 0 && size.h > 0 && stride >= size.w && height >= size.h ==>
                (inside <==> !(preview && dequeued) || CopyInside(size.w, size.h, stride, height))
    {
      if !preview {
        yuv420 := null;
        return true;
      }
      var planar: array<Byte>;
      if yuv420 == null {
        planar := new Byte[PlanarSize(size.w, size.h)];
        yuv420 := planar;
      } else {
        planar := yuv420;
      }
      var y, u, v, fetched, writes := Yvyu2Yuv420(frame, planar, size.w, size.h);
      assert planar[..] == Planar(frame[..], size.w, size.h);
      if !dequeued {
        return true;
      }
      inside := CopyPlanar(dst, planar, CopyLength(stride, height), behind);
      if size.w > 0 && size.h > 0 && stride >= size.w && height >= size.h {
        CopyFits(size.w, size.h, stride, height);
      }
    }

    /** memcpy of `n` bytes from the planar buffer and what lies behind it. */
    method CopyPlanar(dst: array<Byte>, planar: array<Byte>, n: nat, behind: seq<Byte>) returns (inside: bool)
      requires dst != planar && n <= dst.Length && n <= planar.Length + |behind|
      modifies dst
      ensures dst[..] == Overwritten(old(dst[..]), planar[..] + behind, n)
      ensures inside <==> n <= planar.Length
    {
      ghost var was := dst[..];
      var memory := planar[..] + behind;
      forall i | 0 <= i < n {
        dst[i] := memory[i];
      }
      inside := n <= planar.Length;
      assert dst[..n] == memory[..n] && dst[n..] == was[n..];
      TwoParts(dst[..], memory[..n], was);
    }
  }
}
