/** Range updates and the aligned free-area search of bitmap.c. */
module Bitmap {
  import opened Words
  import opened Bitops

  /** `b` is `a` with exactly the bits `start..start + nr` set to `value`. */
  ghost predicate RangeSet(a: seq<Word>, b: seq<Word>, start: nat, nr: nat, value: bool) {
    && |a| == |b|
    && forall p: nat | p < 64 * |a| ::
         BitAt(b, p) == (if start <= p < start + nr then value else BitAt(a, p))
  }

  /** Every word below `k` is final and every word from `k` on is still the original. */
  ghost predicate RangeDone(a: seq<Word>, b: seq<Word>, start: nat, end: nat, k: nat, value: bool)
  {
    && |a| == |b|
    && (forall j: nat, i: nat | j < |a| && j < k && i < 64 ::
          b[j][i] == (if start <= 64 * j + i < end then value else a[j][i]))
    && (forall j: nat | k <= j < |a| :: b[j] == a[j])
  }

  lemma RangeIsSet(a: seq<Word>, b: seq<Word>, start: nat, nr: nat, k: nat, value: bool)
    requires RangeDone(a, b, start, start + nr, k, value)
    requires start + nr <= 64 * k || nr == 0
    ensures RangeSet(a, b, start, nr, value)
  {
    forall p: nat | p < 64 * |a|
      ensures BitAt(b, p) == (if start <= p < start + nr then value else BitAt(a, p))
    {
      assert p == 64 * (p / 64) + p % 64;
    }
  }

  /** BITMAP_FIRST_WORD_MASK */
  function FirstWordMask(start: nat): Word {
    Shl(ONES, start % 64)
  }

  /** BITMAP_LAST_WORD_MASK */
  function LastWordMask(nbits: nat): Word {
    if nbits % 64 != 0 then LowBits(nbits % 64) else ONES
  }

  /** The mask of the current step holds exactly the bits of the range that fall in word `k`. */
  ghost predicate MasksRange(start: nat, end: nat, k: nat, mask: Word) {
    forall i: nat | i < 64 :: mask[i] == (start <= 64 * k + i < end)
  }

  lemma StepMask(start: nat, end: nat, k: nat, mask: Word)
    requires start / 64 <= k && start <= end
    requires mask == if k == start / 64 then FirstWordMask(start) else ONES
    ensures 64 * (k + 1) <= end ==> MasksRange(start, end, k, mask)
    ensures 64 * k <= end < 64 * (k + 1) && end % 64 != 0 ==>
              MasksRange(start, end, k, And(mask, LastWordMask(end)))
  {
  }

  lemma SetWord(a: seq<Word>, b: seq<Word>, start: nat, end: nat, k: nat, mask: Word)
    requires k < |a| && RangeDone(a, b, start, end, k, true) && MasksRange(start, end, k, mask)
    ensures RangeDone(a, b[k := Or(b[k], mask)], start, end, k + 1, true)
  {
  }

  lemma ClearWord(a: seq<Word>, b: seq<Word>, start: nat, end: nat, k: nat, mask: Word)
    requires k < |a| && RangeDone(a, b, start, end, k, false) && MasksRange(start, end, k, mask)
    ensures RangeDone(a, b[k := And(b[k], Not(mask))], start, end, k + 1, false)
  {
  }

  method BitmapSet(bitmap: array<Word>, start: nat, nr: nat)
    requires Covers(bitmap[..], start + nr)
    modifies bitmap
    ensures RangeSet(old(bitmap[..]), bitmap[..], start, nr, true)
  {
    var p := start / 64;
    var size := start + nr;
    var left: int := nr;
    var bits := 64 - start % 64;
    var mask := FirstWordMask(start);
    ghost var orig := bitmap[..];
    while left - bits >= 0
      invariant 0 <= left && size - left == (if p == start / 64 then start else 64 * p)
      invariant start / 64 <= p
      invariant bits == if p == start / 64 then 64 - start % 64 else 64
      invariant mask == if p == start / 64 then FirstWordMask(start) else ONES
      invariant RangeDone(orig, bitmap[..], start, size, p, true)
    {
      StepMask(start, size, p, mask);
      SetWord(orig, bitmap[..], start, size, p, mask);
      bitmap[p] := Or(bitmap[p], mask);
      left := left - bits;
      bits := 64;
      mask := ONES;
      p := p + 1;
    }
    if left != 0 {
      StepMask(start, size, p, mask);
      mask := And(mask, LastWordMask(size));
      SetWord(orig, bitmap[..], start, size, p, mask);
      bitmap[p] := Or(bitmap[p], mask);
      p := p + 1;
    }
    RangeIsSet(orig, bitmap[..], start, nr, p, true);
  }

  method BitmapClear(bitmap: array<Word>, start: nat, nr: nat)
    requires Covers(bitmap[..], start + nr)
    modifies bitmap
    ensures RangeSet(old(bitmap[..]), bitmap[..], start, nr, false)
  {
    var p := start / 64;
    var size := start + nr;
    var left: int := nr;
    var bits := 64 - start % 64;
    var mask := FirstWordMask(start);
    ghost var orig := bitmap[..];
    while left - bits >= 0
      invariant 0 <= left && size - left == (if p == start / 64 then start else 64 * p)
      invariant start / 64 <= p
      invariant bits == if p == start / 64 then 64 - start % 64 else 64
      invariant mask == if p == start / 64 then FirstWordMask(start) else ONES
      invariant RangeDone(orig, bitmap[..], start, size, p, false)
    {
      StepMask(start, size, p, mask);
      ClearWord(orig, bitmap[..], start, size, p, mask);
      bitmap[p] := And(bitmap[p], Not(mask));
      left := left - bits;
      bits := 64;
      mask := ONES;
      p := p + 1;
    }
    if left != 0 {
      StepMask(start, size, p, mask);
      mask := And(mask, LastWordMask(size));
      ClearWord(orig, bitmap[..], start, size, p, mask);
      bitmap[p] := And(bitmap[p], Not(mask));
      p := p + 1;
    }
    RangeIsSet(orig, bitmap[..], start, nr, p, false);
  }

  // ---- aligned free areas ----

  const ULONG_RANGE: nat := 0x1_0000_0000_0000_0000

  ghost predicate IsAlignMask(mask: nat) {
    exists j: nat :: Pow2(j) == mask + 1
  }

  predicate Aligned(q: nat, mask: nat) {
    q % (mask + 1) == 0
  }

  /** ALIGN_MASK on an `unsigned long`: `(x + mask) & ~mask`. */
  function AlignMask(x: nat, mask: nat): nat {
    Value(And(WordOf(x + mask), Not(WordOf(mask))))
  }

  /** Clearing the bits of a mask of low bits rounds down to a multiple of `mask + 1`. */
  lemma AlignMaskRoundsDown(x: nat, mask: nat)
    requires IsAlignMask(mask) && x + mask < ULONG_RANGE
    ensures AlignMask(x, mask) == (x + mask) - (x + mask) % (mask + 1)
  {
    var j: nat :| Pow2(j) == mask + 1;
    MaskIsLowBits(mask, j);
    Pow2Of64();
    BitsValue(x + mask, 64);
    AndNotLowBits(WordOf(x + mask), j);
  }

  /** Aligning gives the least multiple at or after `x`. */
  lemma AlignMaskRoundsUp(x: nat, mask: nat)
    requires IsAlignMask(mask) && x + mask < ULONG_RANGE
    ensures Aligned(AlignMask(x, mask), mask)
    ensures x <= AlignMask(x, mask) <= x + mask
    ensures forall q: nat | x <= q && Aligned(q, mask) :: AlignMask(x, mask) <= q
  {
    hide AlignMask, IsAlignMask;
    var r := AlignMask(x, mask);
    AlignMaskRoundsDown(x, mask);
    RoundDown(x + mask, mask + 1);
    forall q: nat | x <= q && Aligned(q, mask)
      ensures r <= q
    {
      LeastMultiple(x, mask, r, q);
    }
  }

  lemma LeastMultiple(x: nat, mask: nat, r: nat, q: nat)
    requires Aligned(q, mask) && Aligned(r, mask) && r <= x + mask && x <= q
    ensures r <= q
  {
    if q < r {
      MultiplesApart(q, r, mask + 1);
    }
  }

  lemma RoundDown(n: nat, a: nat)
    requires a > 0
    ensures (n - n % a) % a == 0
  {
    QuotientUnique(n - n % a, a, n / a, 0);
    assert n - n % a == a * (n / a);
  }

  lemma MultiplesApart(q: nat, r: nat, a: nat)
    requires a > 0 && q % a == 0 && r % a == 0 && q < r
    ensures q + a <= r
  {
    var i, j := q / a, r / a;
    assert q == a * i && r == a * j;
    assert a * (j - i) == r - q;
    assert j - i <= 0 ==> a * (j - i) <= 0;
    assert j - i >= 1 ==> a * (j - i) >= a;
  }

  /** `r` starts an aligned run of `nr` clear bits at or after `start`, inside the bitmap. */
  ghost predicate IsFreeArea(words: seq<Word>, size: nat, start: nat, nr: nat, mask: nat, r: nat)
    requires Covers(words, size)
  {
    && start <= r && Aligned(r, mask) && r + nr <= size
    && forall p: nat | r <= p < r + nr :: !BitAt(words, p)
  }

  /** No area starts before `k`. */
  ghost predicate NoAreaBefore(words: seq<Word>, size: nat, start: nat, nr: nat, mask: nat, k: nat)
    requires Covers(words, size)
  {
    forall q: nat | q < k :: !IsFreeArea(words, size, start, nr, mask, q)
  }

  /** No area starts before the aligned index: up to the next clear bit it would hold a set bit,
      and from there on it would not be aligned. */
  lemma BeforeIndex(words: seq<Word>, size: nat, start: nat, nr: nat, mask: nat, from: nat, zero: nat,
                    index: nat)
    requires Covers(words, size) && nr > 0 && start <= from
    requires NoAreaBefore(words, size, start, nr, mask, from)
    requires IsNext(words, false, from, size, zero)
    requires forall q: nat | zero <= q && Aligned(q, mask) :: index <= q
    ensures from < size ==> from <= zero
    ensures NoAreaBefore(words, size, start, nr, mask, index)
  {
    forall q: nat | q < index
      ensures !IsFreeArea(words, size, start, nr, mask, q)
    {
      if from <= q < zero && q < size {
        assert BitAt(words, q) != false;
      }
    }
  }

  /** Past `size - nr` no area fits. */
  lemma NoRoom(words: seq<Word>, size: nat, start: nat, nr: nat, mask: nat, index: nat)
    requires Covers(words, size) && index + nr > size
    requires NoAreaBefore(words, size, start, nr, mask, index)
    ensures forall q: nat :: !IsFreeArea(words, size, start, nr, mask, q)
  {
  }

  /** The second search finds either that the area is free or a bit that every area starting
      no later than it would contain. */
  lemma AreaFreeOrBlocked(words: seq<Word>, size: nat, start: nat, nr: nat, mask: nat, index: nat,
                          i: nat)
    requires Covers(words, size) && index + nr <= size && start <= index && Aligned(index, mask)
    requires IsNext(words, true, index, index + nr, i)
    requires NoAreaBefore(words, size, start, nr, mask, index)
    ensures nr > 0 && i >= index + nr ==> IsFreeArea(words, size, start, nr, mask, index)
    ensures i < index + nr ==> index <= i && NoAreaBefore(words, size, start, nr, mask, i + 1)
  {
    if i < index + nr {
      forall q: nat | index <= q < i + 1
        ensures !IsFreeArea(words, size, start, nr, mask, q)
      {
        assert BitAt(words, i) && q <= i < q + nr;
      }
    }
  }

  lemma NothingBeforeStart(words: seq<Word>, size: nat, start: nat, nr: nat, mask: nat)
    requires Covers(words, size)
    ensures NoAreaBefore(words, size, start, nr, mask, start)
  {
  }

  lemma NextBounds(words: seq<Word>, value: bool, lo: nat, size: nat, r: nat)
    requires Covers(words, size) && IsNext(words, value, lo, size, r)
    ensures r <= size && (lo < size ==> lo <= r) && (size <= lo ==> r == size)
  {
  }

  /** bitmap_find_next_zero_area. The result is the least suitable index, or a value above `size`
      exactly when there is none. */
  method BitmapFindNextZeroArea(bitmap: seq<Word>, size: nat, start: nat, nr: nat, alignMask: nat)
    returns (r: nat)
    requires Covers(bitmap, size) && IsAlignMask(alignMask)
    requires size + alignMask + nr < ULONG_RANGE
    ensures nr > 0 && r <= size ==>
              && IsFreeArea(bitmap, size, start, nr, alignMask, r)
              && NoAreaBefore(bitmap, size, start, nr, alignMask, r)
    ensures nr > 0 ==>
              (r > size <==> forall q: nat :: !IsFreeArea(bitmap, size, start, nr, alignMask, q))
  {
    hide IsNext, BitAt, AlignMask, Aligned, NoAreaBefore;
    var from := start;
    NothingBeforeStart(bitmap, size, start, nr, alignMask);
    while true
      invariant start <= from
      invariant nr > 0 ==> NoAreaBefore(bitmap, size, start, nr, alignMask, from)
      decreases if from < size then size - from else 0
    {
      var zero := FindNextZeroBit(bitmap, size, from);
      NextBounds(bitmap, false, from, size, zero);
      AlignMaskRoundsUp(zero, alignMask);
      var index := AlignMask(zero, alignMask);
      var end := (index + nr) % ULONG_RANGE;
      if nr > 0 {
        BeforeIndex(bitmap, size, start, nr, alignMask, from, zero, index);
      }
      if end > size {
        if nr > 0 {
          NoRoom(bitmap, size, start, nr, alignMask, index);
        }
        return end;
      }
      var i := FindNextBit(bitmap, end, index);
      NextBounds(bitmap, true, index, end, i);
      if nr > 0 {
        AreaFreeOrBlocked(bitmap, size, start, nr, alignMask, index, i);
      }
      if i >= end {
        return index;
      }
      from := i + 1;
    }
  }
}
