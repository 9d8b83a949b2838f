/** Dirty tracking of a block device (block.c): the word-level chunk bitmap and its counter. */
module DirtyBitmap {
  import opened Words
  import opened Bitops
  import opened Sectors

  // ---- histories ----

  /** A request that touched a range of sectors: a write marks it dirty, the migration resets it. */
  datatype Touch = Touch(sector: nat, count: nat, dirty: bool)

  predicate Touches(t: Touch, c: nat) {
    0 < t.count && t.sector / CHUNK <= c <= (t.sector + t.count - 1) / CHUNK
  }

  /** Whether the last request that touched chunk `c` was a write. */
  predicate DirtyAfter(history: seq<Touch>, c: nat) {
    if history == [] then false
    else
      var t := history[|history| - 1];
      if Touches(t, c) then t.dirty else DirtyAfter(history[..|history| - 1], c)
  }

  lemma DirtyAfterSnoc(history: seq<Touch>, t: Touch, c: nat)
    ensures DirtyAfter(history + [t], c) == if Touches(t, c) then t.dirty else DirtyAfter(history, c)
  {
    assert (history + [t])[..|history|] == history;
  }

  /** Written since its last reset: some write touched the chunk and no later reset did. */
  ghost predicate WrittenSinceReset(history: seq<Touch>, c: nat) {
    exists i :: 0 <= i < |history| && Touches(history[i], c) && history[i].dirty &&
      forall j | i < j < |history| && Touches(history[j], c) :: history[j].dirty
  }

  lemma {:induction false} DirtyAfterMeans(history: seq<Touch>, c: nat)
    ensures DirtyAfter(history, c) <==> WrittenSinceReset(history, c)
  {
    if history != [] {
      var n := |history| - 1;
      var front := history[..n];
      DirtyAfterMeans(front, c);
      if Touches(history[n], c) {
        if history[n].dirty {
          assert Touches(history[n], c) && history[n].dirty;
        }
      } else {
        if WrittenSinceReset(front, c) {
          var i :| 0 <= i < n && Touches(front[i], c) && front[i].dirty &&
                   forall j | i < j < n && Touches(front[j], c) :: front[j].dirty;
          assert Touches(history[i], c) && history[i].dirty;
        }
        if WrittenSinceReset(history, c) {
          var i :| 0 <= i < |history| && Touches(history[i], c) && history[i].dirty &&
                   forall j | i < j < |history| && Touches(history[j], c) :: history[j].dirty;
          assert Touches(front[i], c) && front[i].dirty;
        }
      }
    }
  }

  // ---- counting bits ----

  ghost function SetBits(words: seq<Word>): set<nat> {
    set p: nat | p < 64 * |words| && BitAt(words, p)
  }

  /** `b` is `a` with bit `p` set to `value`. */
  ghost predicate OneBitSet(a: seq<Word>, b: seq<Word>, p: nat, value: bool) {
    && |a| == |b| && p < 64 * |a| && BitAt(b, p) == value
    && forall q: nat | q < 64 * |a| && q != p :: BitAt(b, q) == BitAt(a, q)
  }

  lemma SetBitsOne(a: seq<Word>, b: seq<Word>, p: nat, value: bool)
    requires OneBitSet(a, b, p, value)
    ensures SetBits(b) == if value then SetBits(a) + {p} else SetBits(a) - {p}
    ensures |SetBits(b)| == |SetBits(a)| + (if BitAt(a, p) == value then 0 else if value then 1 else -1)
  {
    assert SetBits(b) == if value then SetBits(a) + {p} else SetBits(a) - {p};
  }

  /** `val |= 1UL << bit` and `val &= ~(1UL << bit)` change exactly one bit of the bitmap. */
  lemma WordUpdate(words: seq<Word>, p: nat, value: bool)
    requires p < 64 * |words|
    ensures (var w := words[p / 64];
             var m := Shl(ONE, p % 64);
             OneBitSet(words, words[p / 64 := if value then Or(w, m) else And(w, Not(m))], p, value))
  {
    var w := words[p / 64];
    var m := Shl(ONE, p % 64);
    var w' := if value then Or(w, m) else And(w, Not(m));
    var b := words[p / 64 := w'];
    forall q: nat | q < 64 * |words|
      ensures BitAt(b, q) == if q == p then value else BitAt(words, q)
    {
      assert m[q % 64] == (q % 64 == p % 64);
      if q / 64 == p / 64 {
        assert q % 64 == p % 64 ==> q == p;
      }
    }
  }

  /** `val & (1UL << bit)` tests that bit. */
  lemma WordTest(words: seq<Word>, p: nat)
    requires p < 64 * |words|
    ensures (And(words[p / 64], Shl(ONE, p % 64)) != ZERO) == BitAt(words, p)
  {
    var v := And(words[p / 64], Shl(ONE, p % 64));
    assert v[p % 64] == BitAt(words, p);
    if !BitAt(words, p) {
      assert forall i | 0 <= i < 64 :: v[i] == ZERO[i];
    }
  }

  // ---- the device ----

  /** The bitmap shows exactly the history, and the counter counts its bits. */
  ghost predicate Shows(words: seq<Word>, count: int, history: seq<Touch>) {
    && count == |SetBits(words)|
    && forall c: nat | c < 64 * |words| :: BitAt(words, c) == DirtyAfter(history, c)
  }

  /** The loop of set_dirty_bitmap has done the chunks below `next`. */
  ghost predicate ShowsUpTo(words: seq<Word>, count: int, history: seq<Touch>, t: Touch, next: nat) {
    && count == |SetBits(words)|
    && forall c: nat | c < 64 * |words| ::
         BitAt(words, c) == if Touches(t, c) && c < next then t.dirty else DirtyAfter(history, c)
  }

  lemma ShowsStep(words: seq<Word>, count: int, history: seq<Touch>, t: Touch, p: nat, words': seq<Word>)
    requires ShowsUpTo(words, count, history, t, p) && Touches(t, p) && p < 64 * |words|
    requires BitAt(words, p) == t.dirty ==> words' == words
    requires BitAt(words, p) != t.dirty ==> OneBitSet(words, words', p, t.dirty)
    ensures ShowsUpTo(words', count + (if BitAt(words, p) == t.dirty then 0 else if t.dirty then 1 else -1),
                      history, t, p + 1)
  {
    if BitAt(words, p) != t.dirty {
      SetBitsOne(words, words', p, t.dirty);
    }
  }

  lemma ShowsDone(words: seq<Word>, count: int, history: seq<Touch>, t: Touch, next: nat)
    requires ShowsUpTo(words, count, history, t, next)
    requires forall c: nat | Touches(t, c) :: c < next
    ensures Shows(words, count, history + [t])
  {
    forall c: nat | c < 64 * |words|
      ensures BitAt(words, c) == DirtyAfter(history + [t], c)
    {
      DirtyAfterSnoc(history, t, c);
    }
  }

  class TrackedDevice {
    const totalSectors: nat
    var dirtyBitmap: array?<Word>
    var dirtyCount: int
    ghost var history: seq<Touch>

    constructor (sectors: nat)
      ensures Valid() && totalSectors == sectors && dirtyBitmap == null
    {
      totalSectors, dirtyBitmap, dirtyCount, history := sectors, null, 0, [];
    }

    ghost predicate Valid()
      reads this, if dirtyBitmap == null then {} else {dirtyBitmap}
    {
      if dirtyBitmap == null then dirtyCount == 0
      else totalSectors <= 64 * CHUNK * dirtyBitmap.Length && Shows(dirtyBitmap[..], dirtyCount, history)
    }

    /** set_dirty_bitmap, for a request inside the device. */
    method SetDirtyBitmap(sector: nat, count: nat, dirty: bool)
      requires Valid() && dirtyBitmap != null && 0 < count && sector + count <= totalSectors
      modifies `dirtyCount, `history, dirtyBitmap
      ensures Valid() && history == old(history) + [Touch(sector, count, dirty)]
    {
      hide Shows, DirtyAfter, SetBits, ShowsUpTo, OneBitSet;
      ghost var t := Touch(sector, count, dirty);
      var start, end := sector / CHUNK, (sector + count - 1) / CHUNK;
      ShowsNothing(dirtyBitmap[..], dirtyCount, history, t, start);
      while start <= end
        invariant sector / CHUNK <= start <= end + 1 && history == old(history)
        invariant ShowsUpTo(dirtyBitmap[..], dirtyCount, history, t, start)
      {
        ghost var words, n := dirtyBitmap[..], dirtyCount;
        WordTest(words, start);
        WordUpdate(words, start, dirty);
        var idx, bit := start / 64, start % 64;
        var val := dirtyBitmap[idx];
        var mask := Shl(ONE, bit);
        if dirty {
          if And(val, mask) == ZERO {
            dirtyCount := dirtyCount + 1;
            val := Or(val, mask);
          }
        } else {
          if And(val, mask) != ZERO {
            dirtyCount := dirtyCount - 1;
            val := And(val, Not(mask));
          }
        }
        dirtyBitmap[idx] := val;
        assert dirtyBitmap[..] == words[idx := val];
        ShowsStep(words, n, history, t, start, dirtyBitmap[..]);
        start := start + 1;
      }
      ShowsDone(dirtyBitmap[..], dirtyCount, history, t, start);
      history := history + [t];
    }

    /** bdrv_set_dirty_tracking. Switching on a device that is already tracked zeroes the counter but
        keeps the bitmap, so the counter stays right exactly when no chunk was dirty. */
    method SetDirtyTracking(enable: bool)
      requires Valid()
      modifies this
      ensures dirtyCount == 0 && (dirtyBitmap != null <==> enable)
      ensures !enable ==> Valid()
      ensures enable && old(dirtyBitmap) == null ==>
                Valid() && fresh(dirtyBitmap) && history == [] && SetBits(dirtyBitmap[..]) == {}
      ensures enable && old(dirtyBitmap) != null ==>
                && dirtyBitmap == old(dirtyBitmap) && history == old(history)
                && (Valid() <==> old(SetBits(dirtyBitmap[..])) == {})
    {
      dirtyCount := 0;
      if enable {
        if dirtyBitmap == null {
          var words := (totalSectors + CHUNK * 64 - 1) / (CHUNK * 64);
          dirtyBitmap := new Word[words](_ => ZERO);
          history := [];
          CleanBitmap(dirtyBitmap[..]);
        }
      } else {
        dirtyBitmap := null;
      }
    }

    /** bdrv_get_dirty */
    method GetDirty(sector: nat) returns (r: bool)
      requires Valid()
      ensures r <==> dirtyBitmap != null && sector < totalSectors && WrittenSinceReset(history, sector / CHUNK)
    {
      hide SetBits, DirtyAfter, WrittenSinceReset;
      var chunk := sector / CHUNK;
      DirtyAfterMeans(history, chunk);
      if dirtyBitmap != null && sector * SECTOR_SIZE < totalSectors * SECTOR_SIZE {
        WordTest(dirtyBitmap[..], chunk);
        r := And(dirtyBitmap[chunk / 64], Shl(ONE, chunk % 64)) != ZERO;
      } else {
        r := false;
      }
    }
  }

  lemma ShowsNothing(words: seq<Word>, count: int, history: seq<Touch>, t: Touch, start: nat)
    requires Shows(words, count, history) && start == t.sector / CHUNK
    ensures ShowsUpTo(words, count, history, t, start)
  {
  }

  lemma CleanBitmap(words: seq<Word>)
    requires forall i | 0 <= i < |words| :: words[i] == ZERO
    ensures SetBits(words) == {} && Shows(words, 0, [])
  {
    assert forall p: nat | p < 64 * |words| :: !BitAt(words, p);
    assert SetBits(words) == {};
  }

  // ---- several devices ----

  ghost function DirtyChunks(device: TrackedDevice): set<nat>
    reads device, if device.dirtyBitmap == null then {} else {device.dirtyBitmap}
  {
    if device.dirtyBitmap == null then {} else SetBits(device.dirtyBitmap[..])
  }

  function Sum(counts: seq<int>): int {
    if counts == [] then 0 else Sum(counts[..|counts| - 1]) + counts[|counts| - 1]
  }

  lemma {:induction false} SumZero(counts: seq<int>)
    requires forall i | 0 <= i < |counts| :: counts[i] >= 0
    ensures Sum(counts) >= 0
    ensures Sum(counts) == 0 <==> forall i | 0 <= i < |counts| :: counts[i] == 0
  {
    if counts != [] {
      SumZero(counts[..|counts| - 1]);
    }
  }

  /**
   * get_remaining_dirty, in chunks: the dirty chunks of all devices together, so it is zero exactly
   * when no chunk of any device is dirty. `counts` are the sizes of the sets of dirty chunks.
   */
  method RemainingDirty(devices: seq<TrackedDevice>) returns (sum: nat, ghost counts: seq<int>)
    requires forall i | 0 <= i < |devices| :: devices[i].Valid()
    ensures |counts| == |devices| && forall i | 0 <= i < |devices| :: counts[i] == |DirtyChunks(devices[i])|
    ensures sum == Sum(counts)
    ensures sum == 0 <==> forall i | 0 <= i < |devices| :: DirtyChunks(devices[i]) == {}
  {
    sum, counts := 0, [];
    for i := 0 to |devices|
      invariant |counts| == i && forall j | 0 <= j < i :: counts[j] == |DirtyChunks(devices[j])|
      invariant sum == Sum(counts)
    {
      assert (counts + [devices[i].dirtyCount])[..i] == counts;
      sum, counts := sum + devices[i].dirtyCount, counts + [devices[i].dirtyCount];
    }
    SumZero(counts);
    assert forall i | 0 <= i < |devices| :: counts[i] == 0 <==> DirtyChunks(devices[i]) == {};
  }
}
