/** The word-level searches of bitops.h and bitops.c, proved against a search that looks at
    one bit at a time. */
module Bitops {
  import opened Words

  // ---- what a bitmap means ----

  /** Bit `p` of a bitmap stored as words. */
  predicate BitAt(words: seq<Word>, p: nat)
    requires p / 64 < |words|
  {
    words[p / 64][p % 64]
  }

  /** The words cover bit positions `0..size`. */
  predicate Covers(words: seq<Word>, size: nat) {
    size <= 64 * |words|
  }

  /** `r` is the least position in `lo..size` whose bit is `value`, or `size` if there is none. */
  ghost predicate IsNext(words: seq<Word>, value: bool, lo: nat, size: nat, r: nat)
    requires Covers(words, size)
  {
    && (lo < size ==> lo <= r <= size)
    && (size <= lo ==> r == size)
    && (r < size ==> BitAt(words, r) == value)
    && (forall p: nat | lo <= p < r && p < size :: BitAt(words, p) != value)
  }

  /** `r` is the greatest set position below `size`, or `size` if there is none. */
  ghost predicate IsLast(words: seq<Word>, size: nat, r: nat)
    requires Covers(words, size)
  {
    && r <= size
    && (r < size ==> BitAt(words, r) && forall p: nat | r < p < size :: !BitAt(words, p))
    && (r == size ==> forall p: nat | p < size :: !BitAt(words, p))
  }

  lemma SetBitExists(w: Word) returns (i: nat)
    requires w != ZERO
    ensures i < 64 && w[i]
  {
    i :| i < 64 && w[i] != ZERO[i];
  }

  // ---- binary search inside one word ----

  /** `w` is `word` shifted right by `num`, nothing set was shifted out, and one of its lowest
      `width` bits is set. */
  ghost predicate LowNarrowed(word: Word, w: Word, num: nat, width: nat) {
    && num + width <= 64
    && (forall i: nat | i < num :: !word[i])
    && (forall i: nat | i < 64 - num :: w[i] == word[num + i])
    && (exists i: nat :: i < width && w[i])
  }

  /** `w` is `word` shifted left by `63 - num`, nothing set was shifted out, and one of its
      highest `width` bits is set. */
  ghost predicate HighNarrowed(word: Word, w: Word, num: nat, width: nat) {
    && width <= num + 1 <= 64
    && (forall i: nat | num < i < 64 :: !word[i])
    && (forall i: nat | i <= num :: w[i + 63 - num] == word[i])
    && (exists i: nat :: 64 - width <= i < 64 && w[i])
  }

  lemma LowClear(w: Word, width: nat)
    requires width <= 64 && And(w, LowBits(width)) == ZERO
    ensures forall i: nat | i < width :: !w[i]
  {
    forall i: nat | i < width
      ensures !w[i]
    {
      assert And(w, LowBits(width))[i] == ZERO[i];
    }
  }

  lemma HighClear(w: Word, width: nat)
    requires width <= 64 && And(w, Shl(ONES, 64 - width)) == ZERO
    ensures forall i: nat | 64 - width <= i < 64 :: !w[i]
  {
    forall i: nat | 64 - width <= i < 64
      ensures !w[i]
    {
      assert And(w, Shl(ONES, 64 - width))[i] == ZERO[i];
    }
  }

  /** One test of bitops_ffsl: skip the low half of the window when it is clear. */
  method LowStep(ghost word: Word, w: Word, num: nat, width: nat) returns (w': Word, num': nat)
    requires width > 0 && LowNarrowed(word, w, num, 2 * width)
    ensures LowNarrowed(word, w', num', width)
  {
    w', num' := w, num;
    if And(w, LowBits(width)) == ZERO {
      LowClear(w, width);
      ghost var i: nat :| i < 2 * width && w[i];
      num' := num + width;
      w' := Shr(w, width);
      assert w'[i - width];
      forall j: nat | j < num'
        ensures !word[j]
      {
        assert j >= num ==> !w[j - num];
      }
    } else {
      ghost var j := SetBitExists(And(w, LowBits(width)));
      assert w[j];
    }
  }

  /** One test of bitops_flsl: skip the high half of the window when it is clear. */
  method HighStep(ghost word: Word, w: Word, num: nat, width: nat) returns (w': Word, num': nat)
    requires width > 0 && HighNarrowed(word, w, num, 2 * width)
    ensures HighNarrowed(word, w', num', width)
  {
    w', num' := w, num;
    if And(w, Shl(ONES, 64 - width)) == ZERO {
      HighClear(w, width);
      ghost var i: nat :| 64 - 2 * width <= i < 64 && w[i];
      num' := num - width;
      w' := Shl(w, width);
      assert w'[i + width];
      forall j: nat | num' < j < 64
        ensures !word[j]
      {
        assert j <= num ==> !w[j + 63 - num];
      }
    } else {
      ghost var j := SetBitExists(And(w, Shl(ONES, 64 - width)));
      assert w[j];
    }
  }

  /** bitops_ffsl: the least set bit of a nonzero word. */
  method Ffsl(word: Word) returns (num: nat)
    requires word != ZERO
    ensures num < 64 && word[num]
    ensures forall i: nat | i < num :: !word[i]
  {
    ghost var i := SetBitExists(word);
    assert LowNarrowed(word, word, 0, 64);
    var w;
    w, num := LowStep(word, word, 0, 32);
    w, num := LowStep(word, w, num, 16);
    w, num := LowStep(word, w, num, 8);
    w, num := LowStep(word, w, num, 4);
    w, num := LowStep(word, w, num, 2);
    w, num := LowStep(word, w, num, 1);
  }

  /** bitops_flsl: the greatest set bit of a nonzero word. */
  method Flsl(word: Word) returns (num: nat)
    requires word != ZERO
    ensures num < 64 && word[num]
    ensures forall i: nat | num < i < 64 :: !word[i]
  {
    ghost var i := SetBitExists(word);
    assert HighNarrowed(word, word, 63, 64);
    var w;
    w, num := HighStep(word, word, 63, 32);
    w, num := HighStep(word, w, num, 16);
    w, num := HighStep(word, w, num, 8);
    w, num := HighStep(word, w, num, 4);
    w, num := HighStep(word, w, num, 2);
    w, num := HighStep(word, w, num, 1);
    assert word[num] by {
      assert w[63] == word[num];
    }
  }

  /** ffz: the least clear bit of a word that has one. */
  method Ffz(word: Word) returns (num: nat)
    requires word != ONES
    ensures num < 64 && !word[num]
    ensures forall i: nat | i < num :: word[i]
  {
    FullIffComplementEmpty(word);
    num := Ffsl(Not(word));
    forall i: nat | i < num
      ensures word[i]
    {
      assert !Not(word)[i];
    }
  }

  lemma FullIffComplementEmpty(w: Word)
    ensures Not(w) == ZERO <==> w == ONES
  {
    if Not(w) == ZERO {
      forall i | 0 <= i < 64
        ensures w[i] == ONES[i]
      {
        assert Not(w)[i] == ZERO[i];
      }
    } else {
      var i := SetBitExists(Not(w));
      assert !w[i];
    }
  }

  // ---- searches over a bitmap ----

  /** `tmp` holds, in word position `k`, exactly the bits of `lo..hi` whose value is `value`. */
  ghost predicate Selected(words: seq<Word>, value: bool, lo: nat, hi: nat, k: nat, tmp: Word)
    requires Covers(words, hi)
  {
    forall i: nat | i < 64 ::
      tmp[i] <==> lo <= 64 * k + i < hi && BitAt(words, 64 * k + i) == value
  }

  /** All of `lo..64 * k` is known not to have `value`. */
  ghost predicate Skipped(words: seq<Word>, value: bool, lo: nat, hi: nat, k: nat)
    requires Covers(words, hi)
  {
    forall p: nat | lo <= p < 64 * k && p < hi :: BitAt(words, p) != value
  }

  /** `tmp` holds the bits of word `k` that have `value` and lie at or after `lo`. */
  ghost predicate FromOffset(words: seq<Word>, value: bool, lo: nat, k: nat, tmp: Word)
    requires k < |words|
  {
    forall i: nat | i < 64 :: tmp[i] <==> lo <= 64 * k + i && words[k][i] == value
  }

  lemma WholeWord(words: seq<Word>, value: bool, lo: nat, hi: nat, k: nat, tmp: Word)
    requires Covers(words, hi) && k < |words| && 64 * (k + 1) <= hi
    requires FromOffset(words, value, lo, k, tmp)
    ensures Selected(words, value, lo, hi, k, tmp)
  {
    forall i: nat | i < 64
      ensures tmp[i] <==> lo <= 64 * k + i < hi && BitAt(words, 64 * k + i) == value
    {
      assert (64 * k + i) / 64 == k && (64 * k + i) % 64 == i;
    }
  }

  /** The masks that drop the bits before the starting offset. */
  lemma HeadMask(words: seq<Word>, lo: nat)
    requires lo / 64 < |words|
    ensures FromOffset(words, true, lo, lo / 64, And(words[lo / 64], Shl(ONES, lo % 64)))
    ensures FromOffset(words, false, lo, lo / 64, Not(Or(words[lo / 64], Shr(ONES, 64 - lo % 64))))
  {
  }

  /** After the first word no mask is needed. */
  lemma NoHeadMask(words: seq<Word>, lo: nat, k: nat)
    requires k < |words| && lo <= 64 * k
    ensures FromOffset(words, true, lo, k, words[k])
    ensures FromOffset(words, false, lo, k, Not(words[k]))
  {
  }

  /** The masks that drop the bits after the end of the bitmap. */
  lemma TailMask(words: seq<Word>, value: bool, lo: nat, hi: nat, k: nat, tmp: Word, masked: Word)
    requires Covers(words, hi) && k < |words| && 64 * k < hi < 64 * (k + 1)
    requires FromOffset(words, value, lo, k, tmp)
    requires masked == And(tmp, Shr(ONES, 64 - (hi - 64 * k)))
    ensures Selected(words, value, lo, hi, k, masked)
  {
    forall i: nat | i < 64
      ensures masked[i] <==> lo <= 64 * k + i < hi && BitAt(words, 64 * k + i) == value
    {
      assert (64 * k + i) / 64 == k && (64 * k + i) % 64 == i;
    }
  }

  lemma ComplementedTailMask(tmp: Word, rest: nat)
    requires 0 < rest < 64
    ensures Not(Or(tmp, Shl(ONES, rest))) == And(Not(tmp), Shr(ONES, 64 - rest))
  {
  }

  /** Nothing lies between the offset and the start of its own word. */
  lemma NothingSkipped(words: seq<Word>, value: bool, lo: nat, hi: nat)
    requires Covers(words, hi)
    ensures Skipped(words, value, lo, hi, lo / 64)
    ensures hi <= lo ==> IsNext(words, value, lo, hi, hi)
  {
  }

  /** Nothing is left to look at. */
  lemma AllSkipped(words: seq<Word>, value: bool, lo: nat, hi: nat, k: nat)
    requires Covers(words, hi) && lo < hi <= 64 * k
    requires Skipped(words, value, lo, hi, k)
    ensures IsNext(words, value, lo, hi, hi)
  {
  }

  lemma ComplementBits(w: Word, i: nat)
    requires i < 64 && !w[i] && forall j: nat | j < i :: w[j]
    ensures Not(w)[i] && forall j: nat | j < i :: !Not(w)[j]
  {
  }

  /** A selection with no bit lets the search move on to the next word. */
  lemma SkipWord(words: seq<Word>, value: bool, lo: nat, hi: nat, k: nat, tmp: Word)
    requires Covers(words, hi)
    requires Skipped(words, value, lo, hi, k) && Selected(words, value, lo, hi, k, tmp)
    requires tmp == ZERO
    ensures Skipped(words, value, lo, hi, k + 1)
  {
    forall p: nat | lo <= p < 64 * (k + 1) && p < hi
      ensures BitAt(words, p) != value
    {
      if 64 * k <= p {
        assert !tmp[p - 64 * k];
        assert 64 * k + (p - 64 * k) == p;
      }
    }
  }

  /** The least bit of the selection is the answer. */
  lemma FoundInWord(words: seq<Word>, value: bool, lo: nat, hi: nat, k: nat, tmp: Word, i: nat)
    requires Covers(words, hi) && lo < hi
    requires Skipped(words, value, lo, hi, k) && Selected(words, value, lo, hi, k, tmp)
    requires i < 64 && tmp[i] && forall j: nat | j < i :: !tmp[j]
    ensures IsNext(words, value, lo, hi, 64 * k + i)
  {
    forall p: nat | lo <= p < 64 * k + i && p < hi
      ensures BitAt(words, p) != value
    {
      if 64 * k <= p {
        assert !tmp[p - 64 * k];
        assert 64 * k + (p - 64 * k) == p;
      }
    }
  }

  /** find_next_bit. The labelled blocks are the source's goto targets: leaving `first` reaches
      found_first, leaving `middle` reaches found_middle. */
  method FindNextBit(addr: seq<Word>, size: nat, offset: nat) returns (r: nat)
    requires Covers(addr, size)
    ensures IsNext(addr, true, offset, size, r)
  {
    hide FromOffset, Selected, Skipped, IsNext, BitAt, And, Or, Shl, Shr, Not;
    NothingSkipped(addr, true, offset, size);
    var p := offset / 64;
    var result := 64 * (offset / 64);
    var tmp: Word;
    if offset >= size {
      return size;
    }
    var rest := size - result;
    var shift := offset % 64;
    ghost var k := p;
    label middle: {
      label first: {
        if shift != 0 {
          tmp := addr[p];
          p := p + 1;
          tmp := And(tmp, Shl(ONES, shift));
          HeadMask(addr, offset);
          if rest < 64 {
            break first;
          }
          WholeWord(addr, true, offset, size, k, tmp);
          if tmp != ZERO {
            break middle;
          }
          SkipWord(addr, true, offset, size, k, tmp);
          rest := rest - 64;
          result := result + 64;
          k := k + 1;
        }
        while rest >= 64
          invariant result == 64 * k && p == k && result + rest == size && 0 <= rest && offset <= result
          invariant Skipped(addr, true, offset, size, k)
        {
          tmp := addr[p];
          p := p + 1;
          NoHeadMask(addr, offset, k);
          WholeWord(addr, true, offset, size, k, tmp);
          if tmp != ZERO {
            break middle;
          }
          SkipWord(addr, true, offset, size, k, tmp);
          result := result + 64;
          rest := rest - 64;
          k := k + 1;
        }
        if rest == 0 {
          AllSkipped(addr, true, offset, size, k);
          return result;
        }
        tmp := addr[p];
        NoHeadMask(addr, offset, k);
      }
      TailMask(addr, true, offset, size, k, tmp, And(tmp, Shr(ONES, 64 - rest)));
      tmp := And(tmp, Shr(ONES, 64 - rest));
      if tmp == ZERO {
        SkipWord(addr, true, offset, size, k, tmp);
        AllSkipped(addr, true, offset, size, k + 1);
        return result + rest;
      }
    }
    var i := Ffsl(tmp);
    FoundInWord(addr, true, offset, size, k, tmp, i);
    return result + i;
  }

  /** find_next_zero_bit: the same walk over the complemented words. */
  method FindNextZeroBit(addr: seq<Word>, size: nat, offset: nat) returns (r: nat)
    requires Covers(addr, size)
    ensures IsNext(addr, false, offset, size, r)
  {
    hide FromOffset, Selected, Skipped, IsNext, BitAt, And, Or, Shl, Shr, Not;
    NothingSkipped(addr, false, offset, size);
    var p := offset / 64;
    var result := 64 * (offset / 64);
    var tmp: Word;
    if offset >= size {
      return size;
    }
    var rest := size - result;
    var shift := offset % 64;
    ghost var k := p;
    label middle: {
      label first: {
        if shift != 0 {
          tmp := addr[p];
          p := p + 1;
          tmp := Or(tmp, Shr(ONES, 64 - shift));
          HeadMask(addr, offset);
          if rest < 64 {
            break first;
          }
          WholeWord(addr, false, offset, size, k, Not(tmp));
          if Not(tmp) != ZERO {
            break middle;
          }
          SkipWord(addr, false, offset, size, k, Not(tmp));
          rest := rest - 64;
          result := result + 64;
          k := k + 1;
        }
        while rest >= 64
          invariant result == 64 * k && p == k && result + rest == size && 0 <= rest && offset <= result
          invariant Skipped(addr, false, offset, size, k)
        {
          tmp := addr[p];
          p := p + 1;
          NoHeadMask(addr, offset, k);
          WholeWord(addr, false, offset, size, k, Not(tmp));
          if Not(tmp) != ZERO {
            break middle;
          }
          SkipWord(addr, false, offset, size, k, Not(tmp));
          result := result + 64;
          rest := rest - 64;
          k := k + 1;
        }
        if rest == 0 {
          AllSkipped(addr, false, offset, size, k);
          return result;
        }
        tmp := addr[p];
        NoHeadMask(addr, offset, k);
      }
      ComplementedTailMask(tmp, rest);
      TailMask(addr, false, offset, size, k, Not(tmp), Not(Or(tmp, Shl(ONES, rest))));
      tmp := Or(tmp, Shl(ONES, rest));
      FullIffComplementEmpty(tmp);
      if tmp == ONES {
        SkipWord(addr, false, offset, size, k, Not(tmp));
        AllSkipped(addr, false, offset, size, k + 1);
        return result + rest;
      }
    }
    FullIffComplementEmpty(tmp);
    var i := Ffz(tmp);
    ComplementBits(tmp, i);
    FoundInWord(addr, false, offset, size, k, Not(tmp), i);
    return result + i;
  }

  /** No bit from word `k` on is set. */
  ghost predicate ClearFrom(words: seq<Word>, size: nat, k: nat)
    requires Covers(words, size)
  {
    forall p: nat | 64 * k <= p < size :: !BitAt(words, p)
  }

  lemma ClearBelowWord(words: seq<Word>, size: nat, k: nat, tmp: Word)
    requires Covers(words, size)
    requires ClearFrom(words, size, k + 1) && Selected(words, true, 0, size, k, tmp) && tmp == ZERO
    ensures ClearFrom(words, size, k)
  {
    forall p: nat | 64 * k <= p < size
      ensures !BitAt(words, p)
    {
      if p < 64 * (k + 1) {
        assert !tmp[p - 64 * k];
        assert 64 * k + (p - 64 * k) == p;
      }
    }
  }

  lemma ClearPastEnd(words: seq<Word>, size: nat)
    requires Covers(words, size)
    ensures ClearFrom(words, size, size / 64 + 1)
    ensures size % 64 == 0 ==> ClearFrom(words, size, size / 64)
  {
  }

  lemma NoneSet(words: seq<Word>, size: nat)
    requires Covers(words, size) && ClearFrom(words, size, 0)
    ensures IsLast(words, size, size)
  {
  }

  /** The greatest bit of the selection is the answer. */
  lemma LastInWord(words: seq<Word>, size: nat, k: nat, tmp: Word, i: nat)
    requires Covers(words, size)
    requires ClearFrom(words, size, k + 1) && Selected(words, true, 0, size, k, tmp)
    requires i < 64 && tmp[i] && forall j: nat | i < j < 64 :: !tmp[j]
    ensures IsLast(words, size, 64 * k + i)
  {
    forall p: nat | 64 * k + i < p < size
      ensures !BitAt(words, p)
    {
      if p < 64 * (k + 1) {
        assert !tmp[p - 64 * k];
        assert 64 * k + (p - 64 * k) == p;
      }
    }
  }

  /** find_last_bit: walks down from the final, possibly partial, word. */
  method FindLastBit(addr: seq<Word>, size: nat) returns (r: nat)
    requires Covers(addr, size)
    ensures IsLast(addr, size, r)
  {
    hide FromOffset, Selected, ClearFrom, IsLast, BitAt, And, Shr;
    var words: nat := size / 64;
    var tmp: Word;
    ClearPastEnd(addr, size);
    label found: {
      if size % 64 != 0 {
        tmp := And(addr[words], Shr(ONES, 64 - size % 64));
        NoHeadMask(addr, 0, words);
        TailMask(addr, true, 0, size, words, addr[words], tmp);
        if tmp != ZERO {
          break found;
        }
        ClearBelowWord(addr, size, words, tmp);
      }
      while words > 0
        invariant 64 * words <= size
        invariant ClearFrom(addr, size, words)
      {
        words := words - 1;
        tmp := addr[words];
        NoHeadMask(addr, 0, words);
        WholeWord(addr, true, 0, size, words, tmp);
        if tmp != ZERO {
          break found;
        }
        ClearBelowWord(addr, size, words, tmp);
      }
      NoneSet(addr, size);
      return size;
    }
    var i := Flsl(tmp);
    LastInWord(addr, size, words, tmp, i);
    return words * 64 + i;
  }
}
