/**
 Camera::Yvyu2RGBA: packed 4:2:2 to one 32-bit word per pixel, by shifts and adds. The words are
 kept in a byte buffer, as the class does, in little-endian order.
 */
module RgbaConverter {
  import opened Bits
  import opened PlanarConverter

  /** Bring an unsigned chroma byte to the range around zero; a negative byte would be shifted the other way. */
  function Centre(c: int): int {
    if c < 0 then c + 127 else c - 128
  }

  // A right shift of a C int by k rounds down, as `/` does in Dafny for the positive divisor 2^k.

  function DiffR(cr: int): int {
    cr + cr / 4 + cr / 8 + cr / 32
  }

  function DiffG(cb: int, cr: int): int {
    0 - cb / 4 + cb / 16 + cb / 32 - cr / 2 + cr / 8 + cr / 16 + cr / 32
  }

  function DiffB(cb: int): int {
    cb + cb / 2 + cb / 4 + cb / 64
  }

  function Clamp(x: int): Byte {
    if x < 0 then 0 else if x > 255 then 255 else x
  }

  /** Luma and the two differences of chroma give a colour word: alpha, blue, green, red from the top. */
  function Pack(y: int, diffR: int, diffG: int, diffB: int): Word {
    0xff000000 + Clamp(y + diffB) * 0x10000 + Clamp(y + diffG) * 0x100 + Clamp(y + diffR)
  }

  datatype Sample = Sample(y: Byte, cb: Byte, cr: Byte)

  function PixelWord(s: Sample): Word {
    Pack(s.y, DiffR(Centre(s.cr)), DiffG(Centre(s.cb), Centre(s.cr)), DiffB(Centre(s.cb)))
  }

  /** Byte `i` of a word in memory. */
  function WordByte(x: Word, i: nat): Byte
    requires i < 4
  {
    if i == 0 then x % 0x100
    else if i == 1 then x / 0x100 % 0x100
    else if i == 2 then x / 0x10000 % 0x100
    else x / 0x1000000
  }

  lemma UnpackUnique(x: Word, r: Byte, g: Byte, b: Byte, a: Byte)
    requires x == a * 0x1000000 + b * 0x10000 + g * 0x100 + r
    ensures WordByte(x, 0) == r && WordByte(x, 1) == g && WordByte(x, 2) == b && WordByte(x, 3) == a
  {
    var h, t := (a * 0x100 + b) * 0x100 + g, a * 0x100 + b;
    DivUnique(x, 0x100, h, r);
    DivUnique(x, 0x10000, t, g * 0x100 + r);
    DivUnique(x, 0x1000000, a, b * 0x10000 + g * 0x100 + r);
    DivUnique(h, 0x100, t, g);
    DivUnique(t, 0x100, a, b);
  }

  lemma PackBytes(y: int, diffR: int, diffG: int, diffB: int)
    ensures var x := Pack(y, diffR, diffG, diffB);
            && WordByte(x, 0) == Clamp(y + diffR) && WordByte(x, 1) == Clamp(y + diffG)
            && WordByte(x, 2) == Clamp(y + diffB) && WordByte(x, 3) == 255
  {
    UnpackUnique(Pack(y, diffR, diffG, diffB), Clamp(y + diffR), Clamp(y + diffG), Clamp(y + diffB), 255);
  }

  /** `b` is `x` cut off at the ends of the byte range. */
  predicate Saturated(b: int, x: int) {
    && (0 <= x <= 255 ==> b == x)
    && (x < 0 ==> b == 0)
    && (x > 255 ==> b == 255)
  }

  lemma ClampSaturates(x: int)
    ensures Saturated(Clamp(x), x)
  {
  }

  /** A pixel's four bytes in memory are red, green, blue, each cut off at 0 and 255, and full alpha. */
  lemma PixelBytes(s: Sample)
    ensures Saturated(WordByte(PixelWord(s), 0), s.y + DiffR(s.cr - 128))
    ensures Saturated(WordByte(PixelWord(s), 1), s.y + DiffG(s.cb - 128, s.cr - 128))
    ensures Saturated(WordByte(PixelWord(s), 2), s.y + DiffB(s.cb - 128))
    ensures WordByte(PixelWord(s), 3) == 255
  {
    PackBytes(s.y, DiffR(s.cr - 128), DiffG(s.cb - 128, s.cr - 128), DiffB(s.cb - 128));
    ClampSaturates(s.y + DiffR(s.cr - 128));
    ClampSaturates(s.y + DiffG(s.cb - 128, s.cr - 128));
    ClampSaturates(s.y + DiffB(s.cb - 128));
  }

  /** The exact values of the shift sums: what the shifts drop are the remainders. */
  lemma DiffExactly(cb: int, cr: int)
    ensures 32 * DiffR(cr) == 45 * cr - 8 * (cr % 4) - 4 * (cr % 8) - cr % 32
    ensures 64 * DiffB(cb) == 113 * cb - 32 * (cb % 2) - 16 * (cb % 4) - cb % 64
    ensures 32 * DiffG(cb, cr) == -5 * cb - 9 * cr + 8 * (cb % 4) - 2 * (cb % 16) - cb % 32
                                  + 16 * (cr % 2) - 4 * (cr % 8) - 2 * (cr % 16) - cr % 32
  {
  }

  /** The shifts of a number, in thirty-seconds. */
  lemma Shifts(x: int, q: int, r: int)
    requires x == 32 * q + r && 0 <= r < 32
    ensures x / 2 == 16 * q + r / 2 && x / 4 == 8 * q + r / 4 && x / 8 == 4 * q + r / 8
    ensures x / 16 == 2 * q + r / 16 && x / 32 == q
  {
    DivUnique(x, 2, 16 * q + r / 2, r % 2);
    DivUnique(x, 4, 8 * q + r / 4, r % 4);
    DivUnique(x, 8, 4 * q + r / 8, r % 8);
    DivUnique(x, 16, 2 * q + r / 16, r % 16);
    DivUnique(x, 32, q, r);
  }

  /** The contribution of one chroma value to the green difference, within its rounding of -5/32. */
  lemma GreenOfCb(cb: int)
    ensures -5 * cb - 52 <= 32 * (-(cb / 4) + cb / 16 + cb / 32) <= -5 * cb + 15
  {
    Shifts(cb, cb / 32, cb % 32);
    CbRounding(cb % 32);
  }

  lemma CbRounding(r: int)
    requires 0 <= r < 32
    ensures -5 * r - 52 <= 32 * (-(r / 4) + r / 16) <= -5 * r + 15
  {
  }

  /** The contribution of the other one, within its rounding of -9/32. */
  lemma GreenOfCr(cr: int)
    ensures -9 * cr - 82 <= 32 * (-(cr / 2) + cr / 8 + cr / 16 + cr / 32) <= -9 * cr + 9
  {
    Shifts(cr, cr / 32, cr % 32);
    CrRounding(cr % 32);
  }

  lemma CrRounding(r: int)
    requires 0 <= r < 32
    ensures -9 * r - 82 <= 32 * (-(r / 2) + r / 8 + r / 16) <= -9 * r + 9
  {
  }

  /**
   How far the shift sums may fall short of, or exceed, the exact multiples 45/32, 113/64 and
   -(5 cb + 9 cr)/32. DiffBoundsTight shows that no bound can be improved.
   */
  lemma DiffBounds(cb: int, cr: int)
    ensures 45 * cr - 83 <= 32 * DiffR(cr) <= 45 * cr
    ensures 113 * cb - 143 <= 64 * DiffB(cb) <= 113 * cb
    ensures -5 * cb - 9 * cr - 134 <= 32 * DiffG(cb, cr) <= -5 * cb - 9 * cr + 24
  {
    GreenOfCb(cb);
    GreenOfCr(cr);
  }

  lemma DiffBoundsTight()
    ensures 32 * DiffR(31) == 45 * 31 - 83 && 32 * DiffR(32) == 45 * 32
    ensures 64 * DiffB(63) == 113 * 63 - 143 && 64 * DiffB(64) == 113 * 64
    ensures 32 * DiffG(28, 30) == -5 * 28 - 9 * 30 - 134 && 32 * DiffG(3, 1) == -5 * 3 - 9 * 1 + 24
  {
  }

  /** What the frame says of pixel `p`: its own luma, and the chroma of macropixel `p / 2`. */
  function SampleAt(packed: seq<Byte>, p: nat): Sample
    requires 4 * (p / 2) + 3 < |packed|
  {
    Sample(packed[2 * p], packed[4 * (p / 2) + 1], packed[4 * (p / 2) + 3])
  }

  /** The samples of the first `n` macropixels. */
  function Samples(packed: seq<Byte>, n: nat): (samples: seq<Sample>)
    requires 4 * n <= |packed|
    ensures |samples| == 2 * n
    ensures forall p | 0 <= p < 2 * n :: samples[p] == SampleAt(packed, p)
  {
    seq(2 * n, p requires 0 <= p < 2 * n => SampleAt(packed, p))
  }

  function Words(samples: seq<Sample>): (words: seq<Word>)
    ensures |words| == |samples|
  {
    seq(|samples|, p requires 0 <= p < |samples| => PixelWord(samples[p]))
  }

  /** The colour words of a packed frame of `n` macropixels. */
  function FrameWords(packed: seq<Byte>, n: nat): (words: seq<Word>)
    requires 4 * n <= |packed|
    ensures |words| == 2 * n
  {
    Words(Samples(packed, n))
  }

  /** Word `p` is the colour of pixel `p`. */
  ghost predicate IsColour(words: seq<Word>, packed: seq<Byte>, p: nat) {
    p < |words| && 4 * (p / 2) + 3 < |packed| && words[p] == PixelWord(SampleAt(packed, p))
  }

  /** `words` are the colour words of the frame. */
  ghost predicate IsFrame(words: seq<Word>, packed: seq<Byte>) {
    && |words| % 2 == 0 && 2 * |words| <= |packed|
    && forall p | 0 <= p < |words| :: IsColour(words, packed, p)
  }

  /** FrameWords gives the colour words of the frame. */
  lemma WordsOfFrame(packed: seq<Byte>, n: nat)
    requires 4 * n <= |packed|
    ensures IsFrame(FrameWords(packed, n), packed)
  {
    var samples := Samples(packed, n);
    forall p | 0 <= p < 2 * n
      ensures IsColour(Words(samples), packed, p)
    {
      assert samples[p] == SampleAt(packed, p);
      SameColour(Words(samples), packed, p, samples[p]);
    }
  }

  lemma SameColour(words: seq<Word>, packed: seq<Byte>, p: nat, s: Sample)
    requires p < |words| && 4 * (p / 2) + 3 < |packed| && words[p] == PixelWord(s) && s == SampleAt(packed, p)
    ensures IsColour(words, packed, p)
  {
  }

  /** A word in memory. */
  function WordBytes(x: Word): seq<Byte> {
    [WordByte(x, 0), WordByte(x, 1), WordByte(x, 2), WordByte(x, 3)]
  }

  /** Words in memory. */
  function Image(words: seq<Word>): (image: seq<Byte>)
    ensures |image| == 4 * |words|
  {
    if words == [] then [] else Image(words[..|words| - 1]) + WordBytes(words[|words| - 1])
  }

  /** Each word's bytes are in its own four places of the image. */
  lemma {:induction false} ImageAt(words: seq<Word>, p: nat, b: nat)
    requires p < |words| && b < 4
    ensures Image(words)[4 * p + b] == WordByte(words[p], b)
    decreases |words|
  {
    if p < |words| - 1 {
      ImageAt(words[..|words| - 1], p, b);
    }
  }

  /** Four bytes show a pixel: red, green and blue, each cut off at 0 and 255, and full alpha. */
  predicate ShowsPixel(bytes: seq<Byte>, y: int, cb: int, cr: int) {
    && |bytes| == 4
    && Saturated(bytes[0], y + DiffR(cr)) && Saturated(bytes[1], y + DiffG(cb, cr)) && Saturated(bytes[2], y + DiffB(cb))
    && bytes[3] == 255
  }

  lemma WordShows(s: Sample)
    ensures ShowsPixel(WordBytes(PixelWord(s)), s.y, s.cb - 128, s.cr - 128)
  {
    PixelBytes(s);
  }

  lemma {:induction false} ImageOfWord(words: seq<Word>, p: nat)
    requires p < |words|
    ensures Image(words)[4 * p..4 * p + 4] == WordBytes(words[p])
    decreases |words|
  {
    if p < |words| - 1 {
      ImageOfWord(words[..|words| - 1], p);
      SliceOfFirst(Image(words[..|words| - 1]), WordBytes(words[|words| - 1]), 4 * p);
    }
  }

  lemma SliceOfFirst(a: seq<Byte>, b: seq<Byte>, i: nat)
    requires i + 4 <= |a|
    ensures (a + b)[i..i + 4] == a[i..i + 4]
  {
  }

  lemma ImageOfPixel(words: seq<Word>, p: nat, x: Word)
    requires p < |words| && words[p] == x
    ensures Image(words)[4 * p..4 * p + 4] == WordBytes(x)
  {
    ImageOfWord(words, p);
  }

  /**
   In the image of a packed frame pixel `p` is the red, green and blue of its own luma and of the
   chroma of macropixel `p / 2`, each cut off at 0 and 255, with full alpha.
   */
  lemma PixelInImage(packed: seq<Byte>, n: nat, p: nat)
    requires 4 * n <= |packed| && p < 2 * n
    ensures var y: int, cb: int, cr: int := packed[2 * p], packed[4 * (p / 2) + 1], packed[4 * (p / 2) + 3];
            ShowsPixel(Image(FrameWords(packed, n))[4 * p..4 * p + 4], y, cb - 128, cr - 128)
  {
    var s := Sample(packed[2 * p], packed[4 * (p / 2) + 1], packed[4 * (p / 2) + 3]);
    WordShows(s);
    WordsOfFrame(packed, n);
    SampleWord(FrameWords(packed, n), packed, p, s);
    ImageOfPixel(FrameWords(packed, n), p, PixelWord(s));
  }

  lemma SampleWord(words: seq<Word>, packed: seq<Byte>, p: nat, s: Sample)
    requires IsFrame(words, packed) && p < |words| && s == SampleAt(packed, p)
    ensures words[p] == PixelWord(s)
  {
    assert IsColour(words, packed, p);
  }

  /** `rgbData[pixPtr] = x`. */
  method StoreWord(rgb: array<Byte>, pixPtr: nat, x: Word)
    requires 4 * pixPtr + 4 <= rgb.Length
    modifies rgb
    ensures rgb[..4 * pixPtr] == old(rgb[..4 * pixPtr])
    ensures rgb[4 * pixPtr..4 * pixPtr + 4] == WordBytes(x)
    ensures rgb[4 * pixPtr + 4..] == old(rgb[4 * pixPtr + 4..])
  {
    rgb[4 * pixPtr] := WordByte(x, 0);
    rgb[4 * pixPtr + 1] := WordByte(x, 1);
    rgb[4 * pixPtr + 2] := WordByte(x, 2);
    rgb[4 * pixPtr + 3] := WordByte(x, 3);
  }

  /** `out` starts with the image of the first `n` words, and is unchanged after that. */
  predicate Drawn(out: seq<Byte>, was: seq<Byte>, words: seq<Word>, n: nat) {
    && n <= |words| && 4 * |words| <= |out| == |was|
    && out[..4 * n] == Image(words[..n])
    && out[4 * n..] == was[4 * n..]
  }

  lemma DrawnStep(out: seq<Byte>, out': seq<Byte>, was: seq<Byte>, words: seq<Word>, n: nat)
    requires Drawn(out, was, words, n) && n < |words| && |out'| == |out|
    requires out'[..4 * n] == out[..4 * n]
    requires out'[4 * n..4 * n + 4] == WordBytes(words[n])
    requires out'[4 * n + 4..] == out[4 * n + 4..]
    ensures Drawn(out', was, words, n + 1)
  {
    assert words[..n + 1][..n] == words[..n];
    assert out'[..4 * n + 4] == out'[..4 * n] + out'[4 * n..4 * n + 4];
    assert out[4 * n + 4..] == out[4 * n..][4..];
    assert was[4 * n + 4..] == was[4 * n..][4..];
  }

  /** The clamping and packing of one pixel, with the source's variables. */
  method Compose(y: Byte, diffR: int, diffG: int, diffB: int) returns (p: Word)
    ensures p == Pack(y, diffR, diffG, diffB)
  {
    var r := y + diffR;
    if r < 0 { r := 0; } else if r > 255 { r := 255; }
    var g := y + diffG;
    if g < 0 { g := 0; } else if g > 255 { g := 255; }
    var b := y + diffB;
    if b < 0 { b := 0; } else if b > 255 { b := 255; }
    p := 0xff000000 + b * 0x10000 + g * 0x100 + r;
  }

  /** The arithmetic on one macropixel, with the source's variables. */
  method PairWords(y0: Byte, cb0: Byte, y1: Byte, cr0: Byte) returns (p0: Word, p1: Word)
    ensures p0 == PixelWord(Sample(y0, cb0, cr0)) && p1 == PixelWord(Sample(y1, cb0, cr0))
  {
    var cb: int, cr: int := cb0, cr0;
    if cb < 0 { cb := cb + 127; } else { cb := cb - 128; }
    if cr < 0 { cr := cr + 127; } else { cr := cr - 128; }
    assert cb == Centre(cb0) && cr == Centre(cr0);
    var diffR := DiffR(cr);
    var diffG := DiffG(cb, cr);
    var diffB := DiffB(cb);
    p0 := Compose(y0, diffR, diffG, diffB);
    p1 := Compose(y1, diffR, diffG, diffB);
  }

  lemma PairSamples(packed: seq<Byte>, p: nat)
    requires p % 2 == 0 && 2 * p + 3 < |packed|
    ensures SampleAt(packed, p) == Sample(packed[2 * p], packed[2 * p + 1], packed[2 * p + 3])
    ensures SampleAt(packed, p + 1) == Sample(packed[2 * p + 2], packed[2 * p + 1], packed[2 * p + 3])
  {
    assert 4 * (p / 2) == 2 * p && (p + 1) / 2 == p / 2;
  }

  /** The two words of the macropixel at `ptr`, whose first pixel is number `p`. */
  method MacropixelWords(yvyu: array<Byte>, ptr: nat, ghost p: nat, ghost words: seq<Word>) returns (p0: Word, p1: Word)
    requires IsFrame(words, yvyu[..]) && p % 2 == 0 && ptr == 2 * p && p + 1 < |words|
    ensures p0 == words[p] && p1 == words[p + 1]
  {
    p0, p1 := PairWords(yvyu[ptr], yvyu[ptr + 1], yvyu[ptr + 2], yvyu[ptr + 3]);
    PairSamples(yvyu[..], p);
    assert IsColour(words, yvyu[..], p) && IsColour(words, yvyu[..], p + 1);
  }

  /** `rgbData[pixPtr++] = x`, where `x` is the next word of the frame. */
  method StorePixel(rgb: array<Byte>, pixPtr0: nat, x: Word, ghost was: seq<Byte>, ghost words: seq<Word>)
    returns (pixPtr: nat)
    requires Drawn(rgb[..], was, words, pixPtr0) && pixPtr0 < |words| && x == words[pixPtr0]
    modifies rgb
    ensures pixPtr == pixPtr0 + 1 && Drawn(rgb[..], was, words, pixPtr)
  {
    ghost var out := rgb[..];
    StoreWord(rgb, pixPtr0, x);
    DrawnStep(out, rgb[..], was, words, pixPtr0);
    pixPtr := pixPtr0 + 1;
  }

  /** The inner loop: one row of `w / 2` macropixels. */
  method ConvertRow(rgb: array<Byte>, yvyu: array<Byte>, w: nat, ptr0: nat, pixPtr0: nat,
                    ghost was: seq<Byte>, ghost words: seq<Word>)
    returns (ptr: nat, pixPtr: nat)
    requires rgb != yvyu && ptr0 == 2 * pixPtr0 && pixPtr0 % 2 == 0
    requires pixPtr0 + 2 * (w / 2) <= |words|
    requires IsFrame(words, yvyu[..])
    requires Drawn(rgb[..], was, words, pixPtr0)
    modifies rgb
    ensures pixPtr == pixPtr0 + 2 * (w / 2) && ptr == 2 * pixPtr
    ensures Drawn(rgb[..], was, words, pixPtr)
  {
    ptr, pixPtr := ptr0, pixPtr0;
    for i := 0 to w / 2
      invariant pixPtr == pixPtr0 + 2 * i && ptr == 2 * pixPtr
      invariant Drawn(rgb[..], was, words, pixPtr)
    {
      var p0, p1 := MacropixelWords(yvyu, ptr, pixPtr, words);
      ptr := ptr + 4;
      pixPtr := StorePixel(rgb, pixPtr, p0, was, words);
      pixPtr := StorePixel(rgb, pixPtr, p1, was, words);
    }
  }

  /** The outer loop. */
  method ConvertRows(rgb: array<Byte>, yvyu: array<Byte>, w: nat, h: nat, ghost words: seq<Word>)
    requires rgb != yvyu && rgb.Length >= 8 * Macros(w, h)
    requires IsFrame(words, yvyu[..]) && |words| == 2 * Macros(w, h)
    modifies rgb
    ensures Drawn(rgb[..], old(rgb[..]), words, |words|)
  {
    ghost var was := rgb[..];
    var ptr, pixPtr := 0, 0;
    ghost var rowsLeft: nat := Macros(w, h);
    for j := 0 to h
      invariant rowsLeft == Macros(w, h - j)
      invariant pixPtr + 2 * rowsLeft == |words| && ptr == 2 * pixPtr
      invariant Drawn(rgb[..], was, words, pixPtr)
    {
      ptr, pixPtr := ConvertRow(rgb, yvyu, w, ptr, pixPtr, was, words);
      rowsLeft := rowsLeft - w / 2;
    }
  }

  method Yvyu2RGBA(rgb: array<Byte>, yvyu: array<Byte>, w: nat, h: nat)
    requires rgb != yvyu
    requires yvyu.Length >= 4 * Macros(w, h) && rgb.Length >= 8 * Macros(w, h)
    modifies rgb
    ensures rgb[..8 * Macros(w, h)] == Image(FrameWords(yvyu[..], Macros(w, h)))
    ensures rgb[8 * Macros(w, h)..] == old(rgb[8 * Macros(w, h)..])
  {
    ghost var words := FrameWords(yvyu[..], Macros(w, h));
    WordsOfFrame(yvyu[..], Macros(w, h));
    ConvertRows(rgb, yvyu, w, h, words);
    assert words[..|words|] == words;
  }
}
