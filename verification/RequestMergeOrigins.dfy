/** Whose byte each byte of a merged list is, for any joins, and exactly when that is the right one. */
module RequestMergeOrigins {
  import opened RequestMerge

  /** A byte of the disk after some writes: as it was, a zero of a joined gap, or a byte of write `i`. */
  datatype Origin = Disk | Filler | By(i: nat)

  function ValueOf(o: Origin, ws: seq<Write>, p: nat, base: bv8): bv8
    requires o.By? ==> o.i < |ws| && ws[o.i].Covers(p)
  {
    match o
    case Disk => base
    case Filler => 0
    case By(i) => ws[i].data[p - ws[i].start]
  }

  predicate Sound(o: Origin, ws: seq<Write>, p: nat) {
    o.By? ==> o.i < |ws| && ws[o.i].Covers(p)
  }

  /** Writing one after another, a byte is that of the last write that covers it. */
  function Origins(ws: seq<Write>, p: nat): (o: Origin)
    ensures Sound(o, ws, p) && !o.Filler?
  {
    if ws == [] then Disk
    else if Last(ws).Covers(p) then By(|ws| - 1)
    else
      var o := Origins(Front(ws), p);
      assert Sound(o, Front(ws), p);
      o
  }

  /** Where the last group of joined writes starts. */
  function GroupStart(ws: seq<Write>, joins: seq<bool>): nat
    requires |joins| == |ws| > 0
  {
    if |ws| == 1 then ws[0].start
    else if Last(joins) then GroupStart(Front(ws), Front(joins))
    else Last(ws).start
  }

  /** Whose byte the merged list leaves, and whose it would leave without its last group. */
  function MergedOrigins(ws: seq<Write>, joins: seq<bool>, p: nat): (r: (Origin, Origin))
    requires |joins| == |ws| > 0
    ensures Sound(r.0, ws, p) && Sound(r.1, ws, p)
  {
    var w := Last(ws);
    if |ws| == 1 then (if w.Covers(p) then By(0) else Disk, Disk)
    else
      var f := MergedOrigins(Front(ws), Front(joins), p);
      assert Sound(f.0, Front(ws), p) && Sound(f.1, Front(ws), p);
      if !Last(joins) then (if w.Covers(p) then By(|ws| - 1) else f.0, f.0)
      else if w.Covers(p) then (By(|ws| - 1), f.1)
      else if p < GroupStart(Front(ws), Front(joins)) then (f.0, f.1)
      else if p >= w.start then (f.1, f.1)
      else if p < Last(Front(ws)).Stop() then (f.0, f.1)
      else (Filler, f.1)
  }

  lemma {:induction false} GroupStartMeans(ws: seq<Write>, joins: seq<bool>)
    requires Sorted(ws) && |joins| == |ws| > 0
    ensures Last(Merged(ws, joins)).start == GroupStart(ws, joins)
  {
    if |ws| > 1 {
      GroupStartMeans(Front(ws), Front(joins));
    }
  }

  lemma OriginFront(o: Origin, ws: seq<Write>, p: nat, base: bv8)
    requires ws != [] && Sound(o, Front(ws), p)
    ensures Sound(o, ws, p) && ValueOf(o, ws, p, base) == ValueOf(o, Front(ws), p, base)
  {
  }

  lemma {:induction false} AfterMeans(ws: seq<Write>, p: nat, base: bv8)
    ensures After(ws, p, base) == ValueOf(Origins(ws, p), ws, p, base)
  {
    if ws != [] && !Last(ws).Covers(p) {
      AfterMeans(Front(ws), p, base);
    }
  }

  /** The origins are right: they give the bytes the merged list leaves. */
  lemma {:induction false} MergedMeans(ws: seq<Write>, joins: seq<bool>, p: nat, base: bv8)
    requires Sorted(ws) && |joins| == |ws| > 0
    ensures var out, o := Merged(ws, joins), MergedOrigins(ws, joins, p);
            && After(out, p, base) == ValueOf(o.0, ws, p, base)
            && After(Front(out), p, base) == ValueOf(o.1, ws, p, base)
  {
    hide Merged, After, Join, ValueOf, GroupStart, Sorted;
    SortedFront(ws);
    if |ws| == 1 {
      MergedOne(ws, joins, p, base);
    } else {
      var front, w := Front(ws), Last(ws);
      var out, f := Merged(front, Front(joins)), MergedOrigins(front, Front(joins), p);
      MergedMeans(front, Front(joins), p, base);
      MergedUnfolds(ws, joins);
      GroupStartMeans(front, Front(joins));
      OriginFront(f.0, ws, p, base);
      OriginFront(f.1, ws, p, base);
      ValueByLast(ws, p, base);
      Splits(out);
      AfterSnoc(Front(out), Last(out), p, base);
      if Last(joins) {
        var j := Join(Last(out), w);
        JoinedByte(Last(out), w, p);
        AfterSnoc(Front(out), j, p, base);
        SplitsSnoc(Front(out), j);
      } else {
        AfterSnoc(out, w, p, base);
        SplitsSnoc(out, w);
      }
    }
  }

  lemma SortedFront(ws: seq<Write>)
    requires Sorted(ws) && ws != []
    ensures Sorted(Front(ws))
    ensures |ws| > 1 ==> Last(Front(ws)).start <= Last(ws).start
  {
  }

  lemma ValueByLast(ws: seq<Write>, p: nat, base: bv8)
    requires ws != []
    ensures Last(ws).Covers(p) ==> ValueOf(By(|ws| - 1), ws, p, base) == Last(ws).data[p - Last(ws).start]
    ensures ValueOf(Filler, ws, p, base) == 0
  {
  }

  lemma Splits(out: seq<Write>)
    requires out != []
    ensures out == Front(out) + [Last(out)]
  {
  }

  lemma SplitsSnoc(out: seq<Write>, w: Write)
    ensures Front(out + [w]) == out && Last(out + [w]) == w
  {
  }

  lemma MergedOne(ws: seq<Write>, joins: seq<bool>, p: nat, base: bv8)
    requires Sorted(ws) && |joins| == |ws| == 1
    ensures var out, o := Merged(ws, joins), MergedOrigins(ws, joins, p);
            && After(out, p, base) == ValueOf(o.0, ws, p, base)
            && After(Front(out), p, base) == ValueOf(o.1, ws, p, base)
  {
    hide After, Sorted;
    assert Merged(ws, joins) == ws && Front(ws) == [];
    assert [] + [ws[0]] == ws;
    AfterSnoc([], ws[0], p, base);
    AfterNone([], p, base);
  }

  // ---- when a byte is the right one ----

  /** Where the last group begins in the list. */
  function GroupIndex(ws: seq<Write>, joins: seq<bool>): (g: nat)
    requires |joins| == |ws| > 0
    ensures g < |ws| && (g > 0 ==> !joins[g]) && forall i | g < i < |ws| :: joins[i]
  {
    if |ws| == 1 || !Last(joins) then |ws| - 1 else GroupIndex(Front(ws), Front(joins))
  }

  lemma {:induction false} GroupStartsAt(ws: seq<Write>, joins: seq<bool>)
    requires |joins| == |ws| > 0
    ensures GroupStart(ws, joins) == ws[GroupIndex(ws, joins)].start
  {
    if |ws| > 1 && Last(joins) {
      GroupStartsAt(Front(ws), Front(joins));
    }
  }

  /** Without its last group the merged list is that of the writes before the group. */
  lemma {:induction false} WithoutGroup(ws: seq<Write>, joins: seq<bool>, p: nat)
    requires |joins| == |ws| > 0
    ensures var g := GroupIndex(ws, joins);
            MergedOrigins(ws, joins, p).1 == if g == 0 then Disk else MergedOrigins(ws[..g], joins[..g], p).0
  {
    if |ws| > 1 && Last(joins) {
      var g := GroupIndex(ws, joins);
      WithoutGroup(Front(ws), Front(joins), p);
      assert Front(ws)[..g] == ws[..g] && Front(joins)[..g] == joins[..g];
    }
  }

  /** The first write after the last one that covers the byte. */
  function Since(ws: seq<Write>, p: nat): nat {
    if Origins(ws, p).By? then Origins(ws, p).i + 1 else 0
  }

  /** Write `k` is joined across a gap that holds the byte. */
  predicate GapAt(ws: seq<Write>, joins: seq<bool>, k: nat, p: nat)
    requires |joins| == |ws|
  {
    0 < k < |ws| && joins[k] && ws[k - 1].Stop() <= p < ws[k].start
  }

  /** Write `k` ends before the byte, and is in the group of the last write that covers it. */
  ghost predicate CutAt(ws: seq<Write>, joins: seq<bool>, k: nat, p: nat)
    requires |joins| == |ws|
  {
    k < |ws| && Since(ws, p) > 0 && ws[k].Stop() <= p && forall i | Since(ws, p) <= i <= k :: joins[i]
  }

  /** After the last write that covers it the byte is cut off with a tail or filled with a gap. */
  ghost predicate Spoiled(ws: seq<Write>, joins: seq<bool>, p: nat)
    requires |joins| == |ws|
  {
    exists k | Since(ws, p) <= k < |ws| :: GapAt(ws, joins, k, p) || CutAt(ws, joins, k, p)
  }

  /** One more write that does not cover the byte. */
  lemma SpoiledSnoc(ws: seq<Write>, joins: seq<bool>, p: nat)
    requires |joins| == |ws| > 1 && !Last(ws).Covers(p)
    ensures Since(ws, p) == Since(Front(ws), p)
    ensures Spoiled(ws, joins, p) <==>
              || Spoiled(Front(ws), Front(joins), p)
              || GapAt(ws, joins, |ws| - 1, p) || CutAt(ws, joins, |ws| - 1, p)
  {
    var front, n := Front(ws), |ws| - 1;
    forall k | 0 <= k < n
      ensures GapAt(ws, joins, k, p) == GapAt(front, Front(joins), k, p)
      ensures CutAt(ws, joins, k, p) == CutAt(front, Front(joins), k, p)
    {
    }
    if Spoiled(front, Front(joins), p) {
      var k :| Since(front, p) <= k < n && (GapAt(front, Front(joins), k, p) || CutAt(front, Front(joins), k, p));
      assert GapAt(ws, joins, k, p) || CutAt(ws, joins, k, p);
    }
  }

  /** The bytes of the writes before a group that nothing in the group covers, cuts or fills. */
  lemma {:induction false} BeforeGroup(ws: seq<Write>, joins: seq<bool>, g: nat, p: nat)
    requires |joins| == |ws| && 0 < g <= |ws| && (g < |ws| ==> !joins[g])
    requires forall i | g <= i < |ws| :: !ws[i].Covers(p) && !GapAt(ws, joins, i, p)
    ensures Origins(ws, p) == Origins(ws[..g], p)
    ensures Spoiled(ws, joins, p) <==> Spoiled(ws[..g], joins[..g], p)
    decreases |ws|
  {
    if g == |ws| {
      assert ws[..g] == ws && joins[..g] == joins;
    } else {
      var front := Front(ws);
      forall i | g <= i < |front| ensures !front[i].Covers(p) && !GapAt(front, Front(joins), i, p) {
        assert !GapAt(ws, joins, i, p);
      }
      BeforeGroup(front, Front(joins), g, p);
      assert front[..g] == ws[..g] && Front(joins)[..g] == joins[..g];
      if |front| > 0 {
        SpoiledSnoc(ws, joins, p);
      }
      SinceBefore(ws[..g], p);
    }
  }

  lemma SinceBefore(ws: seq<Write>, p: nat)
    ensures Since(ws, p) <= |ws|
  {
  }

  /** The byte is that of the right write exactly when it is neither cut off nor filled. */
  lemma {:induction false} OriginExact(ws: seq<Write>, joins: seq<bool>, p: nat)
    requires Sorted(ws) && |joins| == |ws| > 0
    ensures MergedOrigins(ws, joins, p).0 == Origins(ws, p) <==> !Spoiled(ws, joins, p)
    decreases |ws|
  {
    var n := |ws| - 1;
    if ws[n].Covers(p) {
      LastCovers(ws, joins, p);
    } else if n == 0 {
      OriginExactOne(ws, joins, p);
    } else {
      hide MergedOrigins, Origins, Spoiled, GroupIndex, GroupStart;
      OriginExact(Front(ws), Front(joins), p);
      SpoiledSnoc(ws, joins, p);
      Uncovered(ws, joins, p);
      GroupStartsAt(Front(ws), Front(joins));
      if joins[n] && ws[n].start <= p {
        var g := GroupIndex(ws, joins);
        if g > 0 {
          OriginExact(ws[..g], joins[..g], p);
        }
        Dropped(ws, joins, g, p);
      } else {
        Kept(ws, joins, p);
      }
    }
  }

  lemma LastCovers(ws: seq<Write>, joins: seq<bool>, p: nat)
    requires |joins| == |ws| > 0 && Last(ws).Covers(p)
    ensures MergedOrigins(ws, joins, p).0 == Origins(ws, p) && !Spoiled(ws, joins, p)
  {
  }

  lemma OriginExactOne(ws: seq<Write>, joins: seq<bool>, p: nat)
    requires |joins| == |ws| == 1 && !Last(ws).Covers(p)
    ensures MergedOrigins(ws, joins, p).0 == Origins(ws, p) && !Spoiled(ws, joins, p)
  {
    assert Origins(Front(ws), p) == Disk;
  }

  /** What one more write that does not cover the byte does to its origins. */
  lemma Uncovered(ws: seq<Write>, joins: seq<bool>, p: nat)
    requires |joins| == |ws| > 1 && !Last(ws).Covers(p)
    ensures Origins(ws, p) == Origins(Front(ws), p)
    ensures var f, r := MergedOrigins(Front(ws), Front(joins), p), MergedOrigins(ws, joins, p).0;
            r == if !Last(joins) || p < GroupStart(Front(ws), Front(joins)) then f.0
                 else if p >= Last(ws).start then f.1
                 else if p < Last(Front(ws)).Stop() then f.0
                 else Filler
  {
  }

  /** The write is not joined, or starts after the byte: the byte stays as it was, or a gap is filled. */
  lemma Kept(ws: seq<Write>, joins: seq<bool>, p: nat)
    requires Sorted(ws) && |joins| == |ws| > 1 && !Last(ws).Covers(p) && (Last(joins) ==> p < Last(ws).start)
    requires MergedOrigins(Front(ws), Front(joins), p).0 == Origins(Front(ws), p) <==> !Spoiled(Front(ws), Front(joins), p)
    ensures MergedOrigins(ws, joins, p).0 == Origins(ws, p) <==> !Spoiled(ws, joins, p)
  {
    hide MergedOrigins, Origins, Spoiled, GroupIndex, GroupStart;
    var n := |ws| - 1;
    Uncovered(ws, joins, p);
    SpoiledSnoc(ws, joins, p);
    GroupStartsAt(Front(ws), Front(joins));
    assert !CutAt(ws, joins, n, p) by {
      SinceBefore(Front(ws), p);
    }
    var g := GroupIndex(Front(ws), Front(joins));
    assert ws[g].start <= ws[n - 1].start;
  }

  lemma {:induction false} LastCoverOf(ws: seq<Write>, p: nat)
    ensures forall i | 0 <= i < |ws| :: ws[i].Covers(p) ==> Origins(ws, p).By? && i <= Origins(ws, p).i
  {
    if ws != [] && !Last(ws).Covers(p) {
      LastCoverOf(Front(ws), p);
      forall i | 0 <= i < |ws| && ws[i].Covers(p) ensures Origins(ws, p).By? && i <= Origins(ws, p).i {
        assert Front(ws)[i].Covers(p);
      }
    }
  }

  /** Nothing covers the byte from `g` on, so its last cover comes before. */
  lemma CoverBefore(ws: seq<Write>, g: nat, p: nat)
    requires Origins(ws, p).By? ==> Origins(ws, p).i < g
    ensures forall i | g <= i < |ws| :: !ws[i].Covers(p)
  {
    LastCoverOf(ws, p);
  }

  /** The joined write ends before the byte: what remains is what was there before the group. */
  lemma Dropped(ws: seq<Write>, joins: seq<bool>, g: nat, p: nat)
    requires Sorted(ws) && |joins| == |ws| > 1 && !Last(ws).Covers(p) && Last(joins) && Last(ws).start <= p
    requires g == GroupIndex(ws, joins)
    requires g > 0 ==>
               (MergedOrigins(ws[..g], joins[..g], p).0 == Origins(ws[..g], p) <==> !Spoiled(ws[..g], joins[..g], p))
    ensures MergedOrigins(ws, joins, p).0 == Origins(ws, p) <==> !Spoiled(ws, joins, p)
  {
    hide MergedOrigins, Origins;
    var n := |ws| - 1;
    FrontGroup(ws, joins, p);
    var o := Origins(ws, p);
    if o.By? && o.i >= g {
      assert CutAt(ws, joins, n, p);
    } else {
      CoverBefore(ws, g, p);
      forall i | g <= i < |ws| ensures !GapAt(ws, joins, i, p) {
        assert ws[i].start <= ws[n].start;
      }
      if g > 0 {
        BeforeGroup(ws, joins, g, p);
      }
    }
  }

  /** The byte comes to be as it was before the group, which is a byte of no write of the group. */
  lemma FrontGroup(ws: seq<Write>, joins: seq<bool>, p: nat)
    requires Sorted(ws) && |joins| == |ws| > 1 && !Last(ws).Covers(p) && Last(joins) && Last(ws).start <= p
    ensures var g, r := GroupIndex(ws, joins), MergedOrigins(ws, joins, p).0;
            && r == (if g == 0 then Disk else MergedOrigins(ws[..g], joins[..g], p).0)
            && (r.By? ==> r.i < g)
  {
    hide MergedOrigins, Origins;
    var g := GroupIndex(ws, joins);
    Uncovered(ws, joins, p);
    GroupStartsAt(Front(ws), Front(joins));
    WithoutGroup(Front(ws), Front(joins), p);
    assert g == GroupIndex(Front(ws), Front(joins));
    assert Front(ws)[..g] == ws[..g] && Front(joins)[..g] == joins[..g];
    assert Front(ws)[g].start <= ws[|ws| - 1].start;
  }

  // ---- for all contents ----

  /** The same places with other data. */
  ghost predicate SameSpans(ws: seq<Write>, vs: seq<Write>) {
    |vs| == |ws| && forall i | 0 <= i < |ws| :: vs[i].start == ws[i].start && |vs[i].data| == |ws[i].data|
  }

  lemma {:induction false} SpansOnly(ws: seq<Write>, vs: seq<Write>, p: nat)
    requires SameSpans(ws, vs)
    ensures Origins(vs, p) == Origins(ws, p)
  {
    if ws != [] {
      SpansOnly(Front(ws), Front(vs), p);
    }
  }

  lemma {:induction false} MergedSpansOnly(ws: seq<Write>, vs: seq<Write>, joins: seq<bool>, p: nat)
    requires SameSpans(ws, vs) && |joins| == |ws| > 0
    ensures GroupStart(vs, joins) == GroupStart(ws, joins)
    ensures MergedOrigins(vs, joins, p) == MergedOrigins(ws, joins, p)
  {
    if |ws| > 1 {
      MergedSpansOnly(Front(ws), Front(vs), Front(joins), p);
    }
  }

  /** Whatever the writes hold and whatever is on the disk, merging leaves byte `p` as writing does. */
  ghost predicate KeepsByte(ws: seq<Write>, joins: seq<bool>, p: nat)
    requires Sorted(ws) && |joins| == |ws| > 0
  {
    forall vs: seq<Write>, base: bv8 | SameSpans(ws, vs) && Sorted(vs) ::
      After(Merged(vs, joins), p, base) == After(vs, p, base)
  }

  /** Every write blank but write `j`. */
  function Painted(ws: seq<Write>, j: nat): (vs: seq<Write>) {
    seq(|ws|, i requires 0 <= i < |ws| => Write(ws[i].start, seq(|ws[i].data|, _ => if i == j then 1 else 0)))
  }

  lemma PaintedSpans(ws: seq<Write>, j: nat)
    requires Sorted(ws)
    ensures SameSpans(ws, Painted(ws, j)) && Sorted(Painted(ws, j))
  {
  }

  lemma PaintedValue(ws: seq<Write>, j: nat, o: Origin, p: nat)
    requires Sound(o, Painted(ws, j), p)
    ensures ValueOf(o, Painted(ws, j), p, 0) == if o == By(j) then 1 else 0
  {
  }

  /** A wrong origin shows for some contents. */
  lemma WrongShows(ws: seq<Write>, joins: seq<bool>, p: nat)
    requires Sorted(ws) && |joins| == |ws| > 0 && MergedOrigins(ws, joins, p).0 != Origins(ws, p)
    ensures !KeepsByte(ws, joins, p)
  {
    hide MergedOrigins, Origins, Merged, After;
    if Origins(ws, p).By? {
      var j := Origins(ws, p).i;
      var vs := Painted(ws, j);
      PaintedSpans(ws, j);
      SpansOnly(ws, vs, p);
      MergedSpansOnly(ws, vs, joins, p);
      hide Painted;
      MergedMeans(vs, joins, p, 0);
      AfterMeans(vs, p, 0);
      PaintedValue(ws, j, MergedOrigins(vs, joins, p).0, p);
      PaintedValue(ws, j, Origins(vs, p), p);
      assert After(Merged(vs, joins), p, 0) != After(vs, p, 0);
    } else {
      MergedMeans(ws, joins, p, 1);
      AfterMeans(ws, p, 1);
      NoStranger(ws, joins, p);
      assert SameSpans(ws, ws) && After(Merged(ws, joins), p, 1) != After(ws, p, 1);
    }
  }

  /** A byte that no write covers is not a byte of a write in the merged list either. */
  lemma NoStranger(ws: seq<Write>, joins: seq<bool>, p: nat)
    requires |joins| == |ws| > 0 && !Origins(ws, p).By?
    ensures !MergedOrigins(ws, joins, p).0.By?
  {
    LastCoverOf(ws, p);
  }

  lemma RightKeeps(ws: seq<Write>, joins: seq<bool>, p: nat)
    requires Sorted(ws) && |joins| == |ws| > 0 && MergedOrigins(ws, joins, p).0 == Origins(ws, p)
    ensures KeepsByte(ws, joins, p)
  {
    hide MergedOrigins, Origins, Merged, After;
    forall vs: seq<Write>, base: bv8 | SameSpans(ws, vs) && Sorted(vs)
      ensures After(Merged(vs, joins), p, base) == After(vs, p, base)
    {
      SpansOnly(ws, vs, p);
      MergedSpansOnly(ws, vs, joins, p);
      MergedMeans(vs, joins, p, base);
      AfterMeans(vs, p, base);
    }
  }

  /**
   * For any joins, capped or agreed to by a driver or not: merging leaves a byte as writing the
   * requests one after another does, whatever they hold, exactly when after the last write that
   * covers it no write of its group ends before it and no gap that holds it is joined over.
   */
  lemma AnyMergeExact(ws: seq<Write>, joins: seq<bool>, p: nat)
    requires Sorted(ws) && |joins| == |ws| > 0
    ensures KeepsByte(ws, joins, p) <==> !Spoiled(ws, joins, p)
  {
    hide KeepsByte, Spoiled, MergedOrigins, Origins;
    OriginExact(ws, joins, p);
    if MergedOrigins(ws, joins, p).0 == Origins(ws, p) {
      RightKeeps(ws, joins, p);
    } else {
      WrongShows(ws, joins, p);
    }
  }
}
