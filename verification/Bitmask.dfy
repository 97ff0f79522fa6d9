/**
 The bitmask resource map of bitops.h: an array of 32-bit words stands for the set of resource
 ids in use. The methods update the words in place, and each is proved against that set.
 */
module Bitmask {
  import opened Bits
  import opened Sequences

  const BITS_PER_WORD: nat := 32

  /** BITS_TO_WORDS. */
  function BitsToWords(x: nat): nat {
    (x + BITS_PER_WORD - 1) / BITS_PER_WORD
  }

  /** That is the least number of words that hold `x` bits. */
  lemma FewestWords(x: nat)
    ensures x <= 32 * BitsToWords(x)
    ensures forall n: nat | x <= 32 * n :: BitsToWords(x) <= n
  {
  }

  /** BIT_MASK: the single bit of an id within its word. */
  function BitMask(id: nat): Word {
    Pow2Of32();
    PowerMonotone(id % BITS_PER_WORD, 32);
    Pow2(id % BITS_PER_WORD)
  }

  // ---- The set that the words stand for.

  predicate Has(words: seq<Word>, id: nat)
    requires id < BITS_PER_WORD * |words|
  {
    Bit(words[id / BITS_PER_WORD], id % BITS_PER_WORD)
  }

  /** The ids in use. */
  function Ids(words: seq<Word>): (ids: set<nat>)
    ensures forall id: nat :: id in ids <==> id < BITS_PER_WORD * |words| && Has(words, id)
  {
    set id: nat | id < BITS_PER_WORD * |words| && Has(words, id)
  }

  /** `words` and the outcome differ in one word at most, and within it in one bit at most. */
  lemma OneBit(words: seq<Word>, id: nat, w: Word)
    requires id < BITS_PER_WORD * |words|
    requires forall i | 0 <= i < BITS_PER_WORD && i != id % BITS_PER_WORD :: Bit(w, i) <==> Bit(words[id / BITS_PER_WORD], i)
    ensures Ids(words[id / BITS_PER_WORD := w])
         == if Bit(w, id % BITS_PER_WORD) then Ids(words) + {id} else Ids(words) - {id}
  {
  }

  // ---- Single bits of a word.

  lemma {:induction false} PowerBit(k: nat, i: nat)
    ensures Bit(Pow2(k), i) <==> i == k
    decreases k
  {
    if k == 0 {
      if i > 0 {
        DivPow2Step(1, i);
        NoBits(i - 1);
      } else {
        LowBit(1);
      }
    } else if i == 0 {
      LowBit(Pow2(k));
    } else {
      DivPow2Step(Pow2(k), i);
      PowerBit(k - 1, i - 1);
    }
  }

  lemma {:induction false} NotBit(x: int, i: nat)
    ensures Bit(Not(x), i) <==> !Bit(x, i)
    decreases i
  {
    if i == 0 {
      LowBit(x);
      LowBit(Not(x));
    } else {
      DivPow2Step(x, i);
      DivPow2Step(Not(x), i);
      assert Not(x) / 2 == Not(x / 2);
      NotBit(x / 2, i - 1);
    }
  }

  lemma {:induction false} ComplementBit(x: nat, k: nat, i: nat)
    requires x < Pow2(k) && i < k
    ensures Bit(Pow2(k) - 1 - x, i) <==> !Bit(x, i)
    decreases k
  {
    if i == 0 {
      LowBit(x);
      LowBit(Pow2(k) - 1 - x);
    } else {
      DivPow2Step(x, i);
      DivPow2Step(Pow2(k) - 1 - x, i);
      assert (Pow2(k) - 1 - x) / 2 == Pow2(k - 1) - 1 - x / 2;
      ComplementBit(x / 2, k - 1, i - 1);
    }
  }

  /** ffs: one more than the position of the least set bit, 0 when there is none. */
  function Ffs(x: nat): nat {
    if x == 0 then 0 else if x % 2 == 1 then 1 else 1 + Ffs(x / 2)
  }

  lemma {:induction false} FfsFinds(x: nat, k: nat)
    requires 0 < x < Pow2(k)
    ensures 0 < Ffs(x) <= k && Bit(x, Ffs(x) - 1)
    ensures forall i | 0 <= i < Ffs(x) - 1 :: !Bit(x, i)
  {
    LowBit(x);
    if x % 2 == 0 {
      FfsFinds(x / 2, k - 1);
      FfsDoubled(x, Ffs(x / 2) - 1);
    }
  }

  lemma FfsDoubled(x: nat, low: nat)
    requires x % 2 == 0 && Bit(x / 2, low)
    requires forall i | 0 <= i < low :: !Bit(x / 2, i)
    ensures Bit(x, low + 1)
    ensures forall i | 0 <= i < low + 1 :: !Bit(x, i)
  {
    DivPow2Step(x, low + 1);
    forall i | 0 <= i < low + 1
      ensures !Bit(x, i)
    {
      if i == 0 {
        LowBit(x);
      } else {
        DivPow2Step(x, i);
        assert !Bit(x / 2, i - 1);
      }
    }
  }

  // ---- bitmask_set, bitmask_clear, bitmask_test.

  function SetWord(w: Word, mask: Word): Word {
    Pow2Of32();
    BitwiseBounds(w, mask, 32);
    Or(w, mask)
  }

  function ClearWord(w: Word, mask: Word): Word {
    AndBelow(w, Not(mask));
    And(w, Not(mask))
  }

  lemma {:induction false} AndBelow(a: nat, m: int)
    ensures And(a, m) <= a
  {
    if a > 0 {
      AndBelow(a / 2, m / 2);
    }
  }

  lemma {:induction false} PowerMonotone(a: nat, b: nat)
    requires a < b
    ensures Pow2(a) < Pow2(b)
  {
    if a + 1 < b {
      PowerMonotone(a, b - 1);
    }
  }

  function SetBit(words: seq<Word>, id: nat): (words': seq<Word>)
    requires id < BITS_PER_WORD * |words|
    ensures |words'| == |words|
  {
    words[id / BITS_PER_WORD := SetWord(words[id / BITS_PER_WORD], BitMask(id))]
  }

  function ClearBit(words: seq<Word>, id: nat): (words': seq<Word>)
    requires id < BITS_PER_WORD * |words|
    ensures |words'| == |words|
  {
    words[id / BITS_PER_WORD := ClearWord(words[id / BITS_PER_WORD], BitMask(id))]
  }

  lemma SetAdds(words: seq<Word>, id: nat)
    requires id < BITS_PER_WORD * |words|
    ensures Ids(SetBit(words, id)) == Ids(words) + {id}
  {
    var w := words[id / BITS_PER_WORD];
    forall i: nat
      ensures Bit(SetWord(w, BitMask(id)), i) <==> Bit(w, i) || i == id % BITS_PER_WORD
    {
      OrIsBitwise(w, BitMask(id), i);
      PowerBit(id % BITS_PER_WORD, i);
    }
    OneBit(words, id, SetWord(w, BitMask(id)));
  }

  lemma ClearRemoves(words: seq<Word>, id: nat)
    requires id < BITS_PER_WORD * |words|
    ensures Ids(ClearBit(words, id)) == Ids(words) - {id}
  {
    var w := words[id / BITS_PER_WORD];
    forall i: nat
      ensures Bit(ClearWord(w, BitMask(id)), i) <==> Bit(w, i) && i != id % BITS_PER_WORD
    {
      AndIsBitwise(w, Not(BitMask(id)), i);
      NotBit(BitMask(id), i);
      PowerBit(id % BITS_PER_WORD, i);
    }
    OneBit(words, id, ClearWord(w, BitMask(id)));
  }

  predicate Test(words: seq<Word>, id: nat)
    requires id < BITS_PER_WORD * |words|
  {
    And(words[id / BITS_PER_WORD], BitMask(id)) != 0
  }

  lemma TestIsMember(words: seq<Word>, id: nat)
    requires id < BITS_PER_WORD * |words|
    ensures Test(words, id) <==> id in Ids(words)
  {
    var w, k := words[id / BITS_PER_WORD], id % BITS_PER_WORD;
    var a := And(w, BitMask(id));
    forall i: nat
      ensures Bit(a, i) <==> Bit(w, i) && i == k
    {
      AndIsBitwise(w, BitMask(id), i);
      PowerBit(k, i);
    }
    if a == 0 {
      NoBits(k);
    } else {
      AndBelow(w, BitMask(id));
      Pow2Of32();
      FfsFinds(a, 32);
    }
  }

  function Zeros(n: nat): seq<Word> {
    seq(n, i => 0)
  }

  lemma NoneInZeros(n: nat)
    ensures Ids(Zeros(n)) == {}
  {
    forall id: nat | id < BITS_PER_WORD * n
      ensures !Has(Zeros(n), id)
    {
      NoBits(id % BITS_PER_WORD);
    }
  }

  method Init(bitmask: array<Word>, numBits: nat)
    requires bitmask.Length == BitsToWords(numBits)
    modifies bitmask
    ensures bitmask[..] == Zeros(BitsToWords(numBits)) && Ids(bitmask[..]) == {}
  {
    for i := 0 to bitmask.Length
      invariant forall j | 0 <= j < i :: bitmask[j] == 0
    {
      bitmask[i] := 0;
    }
    assert bitmask[..] == Zeros(BitsToWords(numBits));
    NoneInZeros(BitsToWords(numBits));
  }

  method Set(bitmask: array<Word>, bit: nat)
    requires bit < BITS_PER_WORD * bitmask.Length
    modifies bitmask
    ensures bitmask[..] == SetBit(old(bitmask[..]), bit)
    ensures Ids(bitmask[..]) == old(Ids(bitmask[..])) + {bit}
  {
    SetAdds(bitmask[..], bit);
    bitmask[bit / BITS_PER_WORD] := SetWord(bitmask[bit / BITS_PER_WORD], BitMask(bit));
  }

  method Clear(bitmask: array<Word>, bit: nat)
    requires bit < BITS_PER_WORD * bitmask.Length
    modifies bitmask
    ensures bitmask[..] == ClearBit(old(bitmask[..]), bit)
    ensures Ids(bitmask[..]) == old(Ids(bitmask[..])) - {bit}
  {
    ClearRemoves(bitmask[..], bit);
    bitmask[bit / BITS_PER_WORD] := ClearWord(bitmask[bit / BITS_PER_WORD], BitMask(bit));
  }

  // ---- bitmask_ffz.

  /** The first clear bit of a word, as `ffs(~word)` reports it. */
  lemma FirstClear(w: Word)
    ensures Ffs(0xffff_ffff - w) == 0 ==> forall i | 0 <= i < BITS_PER_WORD :: Bit(w, i)
    ensures Ffs(0xffff_ffff - w) > 0 ==>
              var bit := Ffs(0xffff_ffff - w) - 1;
              bit < BITS_PER_WORD && !Bit(w, bit) && forall i | 0 <= i < bit :: Bit(w, i)
  {
    var x := 0xffff_ffff - w;
    Pow2Of32();
    if x != 0 {
      FfsFinds(x, 32);
    }
    forall i: nat | i < BITS_PER_WORD
      ensures Bit(x, i) <==> !Bit(w, i)
      ensures x == 0 ==> Bit(w, i)
    {
      ComplementBit(w, 32, i);
      NoBits(i);
    }
  }

  /** All ids below `k` are in use. */
  ghost predicate UsedBelow(words: seq<Word>, k: nat) {
    forall id: nat :: id < k ==> id in Ids(words)
  }

  /** `id` is the least free id below `n`; -1 says that there is none. */
  ghost predicate LeastFree(words: seq<Word>, n: nat, id: int) {
    if id == -1 then UsedBelow(words, n) else 0 <= id < n && id !in Ids(words) && UsedBelow(words, id)
  }

  lemma UsedInWord(words: seq<Word>, i: nat, bit: nat)
    requires i < |words| && bit <= BITS_PER_WORD && UsedBelow(words, BITS_PER_WORD * i)
    requires forall j | 0 <= j < bit :: Bit(words[i], j)
    ensures UsedBelow(words, BITS_PER_WORD * i + bit)
  {
    forall id: nat | id < BITS_PER_WORD * i + bit
      ensures id in Ids(words)
    {
      if id >= BITS_PER_WORD * i {
        assert id / BITS_PER_WORD == i && id % BITS_PER_WORD < bit;
      }
    }
  }

  lemma FreeInWord(words: seq<Word>, i: nat, bit: nat)
    requires i < |words| && bit < BITS_PER_WORD && !Bit(words[i], bit)
    ensures BITS_PER_WORD * i + bit !in Ids(words)
  {
    var id := BITS_PER_WORD * i + bit;
    assert id / BITS_PER_WORD == i && id % BITS_PER_WORD == bit;
  }

  method Ffz(bitmask: array<Word>, numBits: nat) returns (result: int)
    requires bitmask.Length == BitsToWords(numBits)
    ensures LeastFree(bitmask[..], numBits, result)
  {
    var i := 0;
    while i < BitsToWords(numBits)
      invariant 0 <= i <= bitmask.Length
      invariant UsedBelow(bitmask[..], BITS_PER_WORD * i)
    {
      var bit := Ffs(0xffff_ffff - bitmask[i]);
      FirstClear(bitmask[i]);
      if bit != 0 {
        bit := bit - 1;
        UsedInWord(bitmask[..], i, bit);
        result := BITS_PER_WORD * i + bit;
        if result >= numBits {
          return -1;
        }
        FreeInWord(bitmask[..], i, bit);
        return result;
      }
      UsedInWord(bitmask[..], i, BITS_PER_WORD);
      i := i + 1;
    }
    return -1;
  }

  // ---- bitmask_weight.

  /** __builtin_popcount. */
  function PopCount(x: nat): nat {
    if x == 0 then 0 else PopCount(x / 2) + x % 2
  }

  /** The set bits of `x` below position `k`. */
  function CountBits(x: nat, k: nat): nat {
    if k == 0 then 0 else CountBits(x, k - 1) + (if Bit(x, k - 1) then 1 else 0)
  }

  lemma {:induction false} CountFromLow(x: nat, k: nat)
    ensures CountBits(x, k + 1) == CountBits(x / 2, k) + x % 2
  {
    if k == 0 {
      LowBit(x);
    } else {
      CountFromLow(x, k - 1);
      DivPow2Step(x, k);
    }
  }

  lemma {:induction false} CountZero(k: nat)
    ensures CountBits(0, k) == 0
  {
    if k > 0 {
      CountZero(k - 1);
      NoBits(k - 1);
    }
  }

  lemma {:induction false} PopCountCounts(x: nat, k: nat)
    requires x < Pow2(k)
    ensures PopCount(x) == CountBits(x, k)
  {
    if x == 0 {
      CountZero(k);
    } else {
      PopCountCounts(x / 2, k - 1);
      CountFromLow(x, k - 1);
    }
  }

  /** The ids in use below `k`. */
  function Below(ids: set<nat>, k: nat): set<nat> {
    set id | id in ids && id < k
  }

  lemma BelowNext(ids: set<nat>, k: nat)
    ensures |Below(ids, k + 1)| == |Below(ids, k)| + if k in ids then 1 else 0
  {
    if k in ids {
      assert Below(ids, k + 1) == Below(ids, k) + {k};
    } else {
      assert Below(ids, k + 1) == Below(ids, k);
    }
  }

  lemma {:induction false} BelowInWord(words: seq<Word>, i: nat, k: nat)
    requires i < |words| && k <= BITS_PER_WORD
    ensures |Below(Ids(words), BITS_PER_WORD * i + k)| == |Below(Ids(words), BITS_PER_WORD * i)| + CountBits(words[i], k)
  {
    if k > 0 {
      BelowInWord(words, i, k - 1);
      var id := BITS_PER_WORD * i + (k - 1);
      BelowNext(Ids(words), id);
      assert id / BITS_PER_WORD == i && id % BITS_PER_WORD == k - 1;
    }
  }

  method Weight(bitmask: array<Word>, numBits: nat) returns (weight: nat)
    requires bitmask.Length == BitsToWords(numBits)
    ensures weight == |Ids(bitmask[..])|
  {
    var i := 0;
    weight := 0;
    assert Below(Ids(bitmask[..]), 0) == {};
    while i < BitsToWords(numBits)
      invariant 0 <= i <= bitmask.Length
      invariant weight == |Below(Ids(bitmask[..]), BITS_PER_WORD * i)|
    {
      Pow2Of32();
      PopCountCounts(bitmask[i], 32);
      BelowInWord(bitmask[..], i, 32);
      weight := weight + PopCount(bitmask[i]);
      i := i + 1;
    }
    assert Below(Ids(bitmask[..]), BITS_PER_WORD * i) == Ids(bitmask[..]);
  }

  /** No bit beyond the last id is set. */
  ghost predicate PaddingClear(words: seq<Word>, n: nat) {
    forall id :: id in Ids(words) ==> id < n
  }

  lemma {:induction false} BelowAtMost(ids: set<nat>, n: nat)
    ensures |Below(ids, n)| <= n
    ensures |Below(ids, n)| == n <==> forall id: nat :: id < n ==> id in ids
  {
    if n == 0 {
      assert Below(ids, 0) == {};
    } else {
      BelowAtMost(ids, n - 1);
      BelowNext(ids, n - 1);
      assert n - 1 in ids || !(forall id: nat :: id < n ==> id in ids);
    }
  }

  /**
   The number of ids in use is the cardinality of the whole word set exactly when the padding is
   clear; then a search fails exactly when the weight has reached the number of ids.
   */
  lemma WeightCountsIds(words: seq<Word>, n: nat)
    ensures |Ids(words)| == |Below(Ids(words), n)| <==> PaddingClear(words, n)
    ensures PaddingClear(words, n) ==> (LeastFree(words, n, -1) <==> |Ids(words)| == n)
  {
    var ids := Ids(words);
    BelowAtMost(ids, n);
    assert ids == Below(ids, n) + (ids - Below(ids, n));
    if |ids| == |Below(ids, n)| {
      assert ids - Below(ids, n) == {};
      forall id | id in ids
        ensures id < n
      {
        assert id in Below(ids, n);
      }
    }
    if PaddingClear(words, n) {
      assert ids == Below(ids, n);
    }
  }

  // ---- The allocator of the header's example: bitmask_ffz and bitmask_set hand out, bitmask_clear frees.

  datatype Event = Granted(id: nat) | Exhausted | Freed(id: nat)

  /** The words after a run of the allocator that started with bitmask_init. */
  ghost function After(n: nat, es: seq<Event>): (words: seq<Word>)
    ensures |words| == BitsToWords(n)
  {
    if es == [] then Zeros(BitsToWords(n))
    else
      var words := After(n, Front(es));
      match Last(es)
      case Granted(id) => if id < n then SetBit(words, id) else words
      case Exhausted => words
      case Freed(id) => if id < n then ClearBit(words, id) else words
  }

  /** What the search finds is handed out; only an id in range may be freed, whether handed out or not. */
  ghost predicate CanHappen(words: seq<Word>, n: nat, e: Event) {
    match e
    case Granted(id) => LeastFree(words, n, id)
    case Exhausted => LeastFree(words, n, -1)
    case Freed(id) => id < n
  }

  ghost predicate Run(n: nat, es: seq<Event>) {
    es == [] || (Run(n, Front(es)) && CanHappen(After(n, Front(es)), n, Last(es)))
  }

  /** The id was handed out at `i` and has not been freed since. */
  predicate HeldSince(es: seq<Event>, id: nat, i: nat) {
    i < |es| && es[i] == Granted(id) && Freed(id) !in es[i + 1..]
  }

  ghost predicate Held(es: seq<Event>, id: nat) {
    exists i: nat :: HeldSince(es, id, i)
  }

  lemma HeldStep(es: seq<Event>, id: nat)
    requires es != []
    ensures Held(es, id) <==> Last(es) == Granted(id) || (Held(Front(es), id) && Last(es) != Freed(id))
  {
    forall i: nat | i < |es| - 1
      ensures HeldSince(es, id, i) <==> HeldSince(Front(es), id, i) && Last(es) != Freed(id)
    {
      assert es[i + 1..] == Front(es)[i + 1..] + [Last(es)];
    }
    if Last(es) == Granted(id) {
      assert HeldSince(es, id, |es| - 1);
    }
    if Held(es, id) {
      var i: nat :| HeldSince(es, id, i);
      assert i < |es| - 1 ==> HeldSince(Front(es), id, i);
    }
    if Held(Front(es), id) {
      var i: nat :| HeldSince(Front(es), id, i);
      assert Last(es) != Freed(id) ==> HeldSince(es, id, i);
    }
  }

  /** In every run the words stand for the ids handed out and not yet freed, all of them in range. */
  lemma {:induction false} IdsAreHeld(n: nat, es: seq<Event>)
    requires Run(n, es)
    ensures forall id: nat :: id in Ids(After(n, es)) <==> Held(es, id)
    ensures PaddingClear(After(n, es), n)
  {
    if es == [] {
      NoneInZeros(BitsToWords(n));
    } else {
      IdsAreHeld(n, Front(es));
      var words := After(n, Front(es));
      if Last(es).Granted? {
        SetAdds(words, Last(es).id);
      } else if Last(es).Freed? {
        ClearRemoves(words, Last(es).id);
      }
      forall id: nat
        ensures id in Ids(After(n, es)) <==> Held(es, id)
      {
        HeldStep(es, id);
      }
    }
  }

  /** The step at `i` found the words that the events before it left. */
  lemma {:induction false} HappenedAt(n: nat, es: seq<Event>, i: nat)
    requires Run(n, es) && i < |es|
    ensures Run(n, es[..i]) && CanHappen(After(n, es[..i]), n, es[i])
  {
    if i < |es| - 1 {
      HappenedAt(n, Front(es), i);
      assert Front(es)[..i] == es[..i];
    }
  }

  /** Between two hand-outs of an id it is freed. */
  lemma FreedBetween(n: nat, es: seq<Event>, i: nat, j: nat, id: nat)
    requires Run(n, es) && i < j < |es| && es[i] == Granted(id) && es[j] == Granted(id)
    ensures exists k | i < k < j :: es[k] == Freed(id)
  {
    HappenedAt(n, es, j);
    IdsAreHeld(n, es[..j]);
    if Freed(id) !in es[..j][i + 1..] {
      assert HeldSince(es[..j], id, i);
      assert Held(es[..j], id);
    } else {
      var k :| 0 <= k < j - i - 1 && es[..j][i + 1..][k] == Freed(id);
      assert es[i + 1 + k] == Freed(id);
    }
  }

  /** A request hands out the least id that is not held, and fails exactly when the weight has reached the number of ids. */
  lemma GrantsTheLeast(n: nat, es: seq<Event>)
    requires Run(n, es) && es != []
    ensures Last(es).Granted? ==> !Held(Front(es), Last(es).id) && forall id: nat :: id < Last(es).id < n ==> Held(Front(es), id)
    ensures Last(es) == Exhausted ==> |Ids(After(n, Front(es)))| == n
    ensures Last(es).Granted? ==> |Ids(After(n, Front(es)))| < n
  {
    IdsAreHeld(n, Front(es));
    var words := After(n, Front(es));
    WeightCountsIds(words, n);
    BelowAtMost(Ids(words), n);
    if Last(es).Granted? {
      assert !LeastFree(words, n, -1) by {
        assert Last(es).id < n;
      }
    }
  }
}
