/** multiwrite_merge: joining neighbouring write requests, and when that keeps what is written. */
module RequestMerge {
  function Min(a: nat, b: nat): nat {
    if a < b then a else b
  }

  /** What a request does to the disk: bytes `data` go to byte address `start`. */
  datatype Write = Write(start: nat, data: seq<bv8>) {
    function Stop(): nat {
      start + |data|
    }

    predicate Covers(p: nat) {
      start <= p < Stop()
    }
  }

  function Last<T>(s: seq<T>): T
    requires s != []
  {
    s[|s| - 1]
  }

  function Front<T>(s: seq<T>): seq<T>
    requires s != []
  {
    s[..|s| - 1]
  }

  /** Byte `p` of a disk that held `base` there, after the writes have been made in order. */
  function After(ws: seq<Write>, p: nat, base: bv8): bv8 {
    if ws == [] then base
    else if Last(ws).Covers(p) then Last(ws).data[p - Last(ws).start]
    else After(Front(ws), p, base)
  }

  lemma AfterSnoc(ws: seq<Write>, w: Write, p: nat, base: bv8)
    ensures After(ws + [w], p, base) == if w.Covers(p) then w.data[p - w.start] else After(ws, p, base)
  {
    assert Front(ws + [w]) == ws;
  }

  ghost predicate Sorted(ws: seq<Write>) {
    forall i, j | 0 <= i <= j < |ws| :: ws[i].start <= ws[j].start
  }

  // ---- the merged list ----

  function Zeros(n: nat): seq<bv8> {
    seq(n, _ => 0)
  }

  /** Two writes made one: the head of the first, zeros for a gap, and the second. */
  function Join(a: Write, b: Write): Write
    requires a.start <= b.start
  {
    Write(a.start, a.data[..Min(b.start - a.start, |a.data|)]
                   + (if b.start > a.Stop() then Zeros(b.start - a.Stop()) else [])
                   + b.data)
  }

  /** The list the merge leaves: write `i` is joined to the last one standing when `joins[i]`. */
  ghost function Merged(ws: seq<Write>, joins: seq<bool>): (out: seq<Write>)
    requires Sorted(ws) && |joins| == |ws| > 0
    ensures 0 < |out| <= |ws|
    ensures Last(out).start <= Last(ws).start && Last(out).Stop() == Last(ws).Stop()
  {
    if |ws| == 1 then ws
    else
      var out := Merged(Front(ws), Front(joins));
      if Last(joins) then Front(out) + [Join(Last(out), Last(ws))] else out + [Last(ws)]
  }

  lemma MergedUnfolds(ws: seq<Write>, joins: seq<bool>)
    requires Sorted(ws) && |joins| == |ws| > 1 && Sorted(Front(ws))
    ensures var out := Merged(Front(ws), Front(joins));
            && Last(out).start <= Last(ws).start
            && Merged(ws, joins) ==
               if Last(joins) then Front(out) + [Join(Last(out), Last(ws))] else out + [Last(ws)]
  {
    hide Join;
  }

  /** Every byte of a joined write. */
  lemma JoinedByte(a: Write, b: Write, p: nat)
    requires a.start <= b.start
    ensures Join(a, b).start == a.start && (Join(a, b).Covers(p) <==> a.start <= p < b.Stop())
    ensures b.Covers(p) ==> Join(a, b).data[p - a.start] == b.data[p - b.start]
    ensures a.start <= p < b.start ==>
              Join(a, b).data[p - a.start] == if a.Covers(p) then a.data[p - a.start] else 0
  {
  }

  /** The bytes a driver agreed to have zeroed: those between two joined writes. */
  ghost predicate InGap(ws: seq<Write>, joins: seq<bool>, p: nat)
    requires |joins| == |ws|
  {
    exists i | 1 <= i < |ws| :: joins[i] && ws[i - 1].Stop() <= p < ws[i].start
  }

  lemma InGapSnoc(ws: seq<Write>, joins: seq<bool>, p: nat)
    requires |joins| == |ws| > 1
    ensures InGap(ws, joins, p) <==>
              || InGap(Front(ws), Front(joins), p)
              || (Last(joins) && Last(Front(ws)).Stop() <= p < Last(ws).start)
  {
    if InGap(Front(ws), Front(joins), p) {
      var i :| 1 <= i < |ws| - 1 && Front(joins)[i] && Front(ws)[i - 1].Stop() <= p < Front(ws)[i].start;
      assert joins[i] && ws[i - 1].Stop() <= p < ws[i].start;
    }
    if InGap(ws, joins, p) {
      var i :| 1 <= i < |ws| && joins[i] && ws[i - 1].Stop() <= p < ws[i].start;
      if i < |ws| - 1 {
        assert Front(joins)[i] && Front(ws)[i - 1].Stop() <= p < Front(ws)[i].start;
      }
    }
  }

  /** No write ends before one that starts earlier. */
  ghost predicate EndsInOrder(ws: seq<Write>) {
    forall i | 1 <= i < |ws| :: ws[i - 1].Stop() <= ws[i].Stop()
  }

  /**
   * Writes that end in the order they start lose nothing by merging, whichever joins are made:
   * every byte is what writing them one after another leaves, except that gaps joined over are zero.
   */
  lemma {:induction false} MergeKeepsWrites(ws: seq<Write>, joins: seq<bool>, p: nat, base: bv8)
    requires Sorted(ws) && EndsInOrder(ws) && |joins| == |ws| > 0
    ensures After(Merged(ws, joins), p, base) == if InGap(ws, joins, p) then 0 else After(ws, p, base)
  {
    if |ws| > 1 {
      var front, w := Front(ws), Last(ws);
      var out := Merged(front, Front(joins));
      MergeKeepsWrites(front, Front(joins), p, base);
      InGapSnoc(ws, joins, p);
      assert Last(front) == ws[|ws| - 2];
      NoGapInside(ws, joins, p);
      if Last(joins) {
        JoinedByte(Last(out), w, p);
        AfterSnoc(Front(out), Join(Last(out), w), p, base);
      } else {
        AfterSnoc(out, w, p, base);
      }
    }
  }

  /** A byte of the last write lies in no gap. */
  lemma NoGapInside(ws: seq<Write>, joins: seq<bool>, p: nat)
    requires Sorted(ws) && |joins| == |ws| > 0
    ensures Last(ws).Covers(p) ==> !InGap(ws, joins, p)
  {
  }

  // ---- writes that end out of order ----

  /** The joins made when no vector is too long and no driver asks for more: touching writes. */
  ghost function Touching(ws: seq<Write>): (joins: seq<bool>)
    ensures |joins| == |ws|
  {
    seq(|ws|, i requires 0 <= i < |ws| => i > 0 && ws[i].start <= ws[i - 1].Stop())
  }

  ghost predicate CoveredFrom(ws: seq<Write>, i: nat, p: nat) {
    exists m | i <= m < |ws| :: ws[m].Covers(p)
  }

  /** Byte `p` belongs to the tail of some write: a later write ends before it, and none covers it. */
  ghost predicate TailLost(ws: seq<Write>, p: nat) {
    exists j, k | 0 <= j < k < |ws| ::
      ws[j].Covers(p) && ws[k].Stop() <= p && !CoveredFrom(ws, j + 1, p)
  }

  /** Each write left over starts past the end of the ones before it. */
  ghost predicate Apart(out: seq<Write>) {
    forall g, h | 0 <= g < h < |out| :: out[g].Stop() < out[h].start
  }

  /** No touching pair was left unjoined, as happens when a vector would grow too long. */
  ghost predicate NeverCapped(ws: seq<Write>, joins: seq<bool>)
    requires |joins| == |ws|
  {
    forall i | 1 <= i < |ws| :: ws[i].start <= ws[i - 1].Stop() ==> joins[i]
  }

  lemma {:induction false} MergedApart(ws: seq<Write>, joins: seq<bool>)
    requires Sorted(ws) && |joins| == |ws| > 0 && NeverCapped(ws, joins)
    ensures Apart(Merged(ws, joins))
  {
    if |ws| > 1 {
      var out := Merged(Front(ws), Front(joins));
      MergedApart(Front(ws), Front(joins));
      assert Last(Front(ws)) == ws[|ws| - 2];
    }
  }

  lemma {:induction false} AfterNone(ws: seq<Write>, p: nat, base: bv8)
    requires forall i | 0 <= i < |ws| :: !ws[i].Covers(p)
    ensures After(ws, p, base) == base
  {
    if ws != [] {
      AfterNone(Front(ws), p, base);
    }
  }

  lemma TouchingFront(ws: seq<Write>)
    requires |ws| > 1
    ensures Front(Touching(ws)) == Touching(Front(ws))
    ensures Last(Touching(ws)) <==> Last(ws).start <= Last(Front(ws)).Stop()
  {
  }

  lemma CoveredSnoc(ws: seq<Write>, i: nat, p: nat)
    requires ws != [] && i < |ws|
    ensures CoveredFrom(ws, i, p) <==> CoveredFrom(Front(ws), i, p) || Last(ws).Covers(p)
  {
    if CoveredFrom(Front(ws), i, p) {
      var m :| i <= m < |Front(ws)| && Front(ws)[m].Covers(p);
      assert ws[m].Covers(p);
    }
    if CoveredFrom(ws, i, p) {
      var m :| i <= m < |ws| && ws[m].Covers(p);
      assert m < |ws| - 1 ==> Front(ws)[m].Covers(p);
    }
  }

  /** The last write that covers a byte. */
  lemma {:induction false} LastCover(ws: seq<Write>, p: nat) returns (j: nat)
    requires CoveredFrom(ws, 0, p)
    ensures j < |ws| && ws[j].Covers(p) && !CoveredFrom(ws, j + 1, p)
    ensures forall base :: After(ws, p, base) == ws[j].data[p - ws[j].start]
  {
    if Last(ws).Covers(p) {
      j := |ws| - 1;
    } else {
      CoveredSnoc(ws, 0, p);
      j := LastCover(Front(ws), p);
      CoveredSnoc(ws, j + 1, p);
    }
  }

  lemma TailLostAt(ws: seq<Write>, j: nat, k: nat, p: nat)
    requires j < k < |ws| && ws[j].Covers(p) && ws[k].Stop() <= p && !CoveredFrom(ws, j + 1, p)
    ensures TailLost(ws, p)
  {
  }

  /** A tail lost before stays lost, and a write ending before a covered byte loses that byte. */
  lemma TailLostGrows(ws: seq<Write>, p: nat)
    requires |ws| > 1 && !Last(ws).Covers(p)
    requires TailLost(Front(ws), p) || (Last(ws).Stop() <= p && CoveredFrom(Front(ws), 0, p))
    ensures TailLost(ws, p)
  {
    var front := Front(ws);
    if TailLost(front, p) {
      var j, k :| 0 <= j < k < |front| && front[j].Covers(p) && front[k].Stop() <= p && !CoveredFrom(front, j + 1, p);
      hide CoveredFrom, TailLost;
      CoveredSnoc(ws, j + 1, p);
      TailLostAt(ws, j, k, p);
    } else {
      hide CoveredFrom, TailLost;
      var j := LastCover(front, p);
      CoveredSnoc(ws, j + 1, p);
      TailLostAt(ws, j, |ws| - 1, p);
    }
  }

  /** How one more write changes which tails are lost. */
  lemma TailLostSnoc(ws: seq<Write>, p: nat)
    requires |ws| > 1
    ensures TailLost(ws, p) <==>
              && !Last(ws).Covers(p)
              && (TailLost(Front(ws), p) || (Last(ws).Stop() <= p && CoveredFrom(Front(ws), 0, p)))
  {
    var front := Front(ws);
    if TailLost(ws, p) {
      var j, k :| 0 <= j < k < |ws| && ws[j].Covers(p) && ws[k].Stop() <= p && !CoveredFrom(ws, j + 1, p);
      CoveredSnoc(ws, j + 1, p);
      assert front[j].Covers(p);
      if k < |front| {
        TailLostAt(front, j, k, p);
      }
    } else if !Last(ws).Covers(p) && (TailLost(front, p) || (Last(ws).Stop() <= p && CoveredFrom(front, 0, p))) {
      TailLostGrows(ws, p);
    }
  }

  /** Nothing left over except the last write reaches past its start. */
  lemma ApartBefore(out: seq<Write>, p: nat, base: bv8)
    requires out != [] && Apart(out) && Last(out).start <= p
    ensures After(Front(out), p, base) == base
  {
    forall i | 0 <= i < |Front(out)| ensures !Front(out)[i].Covers(p) {
      assert out[i].Stop() < Last(out).start;
    }
    AfterNone(Front(out), p, base);
  }

  lemma TouchingNeverCapped(ws: seq<Write>)
    ensures NeverCapped(ws, Touching(ws))
  {
  }

  /** A tail passed over by a write that touches nothing was lost already. */
  lemma UntouchedTail(front: seq<Write>, w: Write, p: nat)
    requires front != [] && Last(front).Stop() < w.start && w.Stop() <= p && CoveredFrom(front, 0, p)
    ensures TailLost(front, p)
  {
    var j := LastCover(front, p);
    assert front[j].Covers(p) && front[|front| - 1].Stop() <= p;
  }

  lemma UncoveredAfter(ws: seq<Write>, p: nat, base: bv8)
    ensures !CoveredFrom(ws, 0, p) ==> After(ws, p, base) == base
  {
    if !CoveredFrom(ws, 0, p) {
      AfterNone(ws, p, base);
    }
  }

  lemma {:induction false} TouchingApart(ws: seq<Write>)
    requires Sorted(ws) && ws != []
    ensures Apart(Merged(ws, Touching(ws)))
  {
    hide Touching, Merged, Apart, Sorted;
    TouchingNeverCapped(ws);
    MergedApart(ws, Touching(ws));
  }

  /** One more write either touches the last one left over and is joined to it, or stands alone. */
  lemma MergedTouching(ws: seq<Write>)
    requires Sorted(ws) && |ws| > 1
    ensures var out, w := Merged(Front(ws), Touching(Front(ws))), Last(ws);
            Merged(ws, Touching(ws)) ==
              if w.start <= Last(out).Stop() then Front(out) + [Join(Last(out), w)] else out + [w]
  {
    TouchingFront(ws);
  }

  /** Merging touching writes leaves a lost tail as it was before, and every other byte as written. */
  lemma {:induction false} TailFate(ws: seq<Write>, p: nat, base: bv8)
    requires Sorted(ws) && ws != []
    ensures After(Merged(ws, Touching(ws)), p, base) == if TailLost(ws, p) then base else After(ws, p, base)
  {
    if |ws| > 1 {
      var front, w := Front(ws), Last(ws);
      var out := Merged(front, Touching(front));
      assert After(ws, p, base) == if w.Covers(p) then w.data[p - w.start] else After(front, p, base);
      hide TailLost, CoveredFrom, Touching, Apart, Join, Merged, After;
      TailFate(front, p, base);
      MergedTouching(ws);
      TailLostSnoc(ws, p);
      UncoveredAfter(front, p, base);
      if w.start <= Last(out).Stop() {
        TouchingApart(front);
        TouchedTail(w, out, p, base);
      } else {
        AfterSnoc(out, w, p, base);
        if w.Stop() <= p && CoveredFrom(front, 0, p) {
          UntouchedTail(front, w, p);
        }
      }
    }
  }

  /** Joining `w` to the last write left over drops the bytes of that write beyond the end of `w`. */
  lemma TouchedTail(w: Write, out: seq<Write>, p: nat, base: bv8)
    requires out != [] && Apart(out) && Last(out).start <= w.start <= Last(out).Stop()
    ensures After(Front(out) + [Join(Last(out), w)], p, base) ==
              if w.Covers(p) then w.data[p - w.start]
              else if p < w.start then After(out, p, base)
              else base
  {
    JoinedByte(Last(out), w, p);
    AfterSnoc(Front(out), Join(Last(out), w), p, base);
    if Last(out).start <= p {
      ApartBefore(out, p, base);
    }
  }

  ghost predicate Unchanged(ws: seq<Write>, p: nat)
    requires Sorted(ws) && ws != []
  {
    forall base: bv8 :: After(Merged(ws, Touching(ws)), p, base) == After(ws, p, base)
  }

  /**
   * The exact condition for merging touching writes to leave a byte of every disk as the unmerged
   * writes do: no write holds it beyond the end of a later-starting one without its being written again.
   */
  lemma MergeExact(ws: seq<Write>, p: nat)
    requires Sorted(ws) && ws != []
    ensures Unchanged(ws, p) <==> !TailLost(ws, p)
  {
    hide Merged, Touching, After;
    forall base: bv8
      ensures After(Merged(ws, Touching(ws)), p, base) == if TailLost(ws, p) then base else After(ws, p, base)
    {
      TailFate(ws, p, base);
    }
    if TailLost(ws, p) {
      var i, k :| 0 <= i < k < |ws| && ws[i].Covers(p) && ws[k].Stop() <= p && !CoveredFrom(ws, i + 1, p);
      var j := LastCover(ws, p);
      var base: bv8 := if ws[j].data[p - ws[j].start] == 0 then 1 else 0;
      assert After(Merged(ws, Touching(ws)), p, base) != After(ws, p, base);
    }
  }

  /** Writes that end in the order they start have no tail to lose. */
  lemma {:induction false} OrderedEndsLoseNothing(ws: seq<Write>, p: nat)
    requires EndsInOrder(ws)
    ensures !TailLost(ws, p)
  {
    if TailLost(ws, p) {
      var j, k :| 0 <= j < k < |ws| && ws[j].Covers(p) && ws[k].Stop() <= p && !CoveredFrom(ws, j + 1, p);
      EndsAfter(ws, j, k);
    }
  }

  lemma {:induction false} EndsAfter(ws: seq<Write>, j: nat, k: nat)
    requires EndsInOrder(ws) && j <= k < |ws|
    ensures ws[j].Stop() <= ws[k].Stop()
  {
    if j < k {
      EndsAfter(ws, j, k - 1);
    }
  }

  /** Three sectors of ones and, inside them, one sector of twos: the third sector is never written. */
  lemma NestedWriteLoses(base: bv8)
    ensures var ws := [Write(0, seq(1536, _ => 1)), Write(512, seq(512, _ => 2))];
            && Sorted(ws)
            && After(ws, 1024, base) == 1
            && After(Merged(ws, Touching(ws)), 1024, base) == base
  {
    var a, b := Write(0, seq(1536, _ => 1 as bv8)), Write(512, seq(512, _ => 2 as bv8));
    var ws := [a, b];
    assert ws == [a] + [b];
    assert [a] == [] + [a];
    AfterSnoc([a], b, 1024, base);
    AfterSnoc([], a, 1024, base);
    assert ws[0].Covers(1024) && ws[1].Stop() <= 1024 && !CoveredFrom(ws, 1, 1024);
    assert TailLost(ws, 1024);
    TailFate(ws, 1024, base);
  }

  // ---- completion order ----

  lemma {:induction false} AfterApart(ws: seq<Write>, w: Write, p: nat, base: bv8)
    requires w in ws && w.Covers(p)
    requires forall v | v in ws :: v.Covers(p) ==> v == w
    ensures After(ws, p, base) == w.data[p - w.start]
  {
    if !Last(ws).Covers(p) {
      assert forall v | v in Front(ws) :: v in ws;
      assert w in Front(ws) by {
        var i :| 0 <= i < |ws| && ws[i] == w;
        assert Front(ws)[i] == w;
      }
      AfterApart(Front(ws), w, p, base);
    } else {
      assert Last(ws) in ws;
    }
  }

  /** Writes that are apart may complete in any order. */
  lemma AnyOrder(out: seq<Write>, done: seq<Write>, p: nat, base: bv8)
    requires Apart(out) && multiset(done) == multiset(out)
    ensures After(done, p, base) == After(out, p, base)
  {
    forall v ensures v in done <==> v in out {
      assert v in done <==> v in multiset(done);
      assert v in out <==> v in multiset(out);
    }
    if w :| w in out && w.Covers(p) {
      forall v | v in out && v.Covers(p) ensures v == w {
        var i :| 0 <= i < |out| && out[i] == v;
        var j :| 0 <= j < |out| && out[j] == w;
      }
      AfterApart(out, w, p, base);
      AfterApart(done, w, p, base);
    } else {
      AfterNone(out, p, base);
      AfterNone(done, p, base);
    }
  }
}
