/** The chunks marked in flight (aio_bitmap): what a mark means, and what it prevents. */
module BlockMigrationMarks {
  import opened BlockMigration
  import opened BlockMigrationBook
  import opened Sectors

  // ---- marks, from the history ----

  /** The last thing that happened to the reads of a chunk was that a dirty read was issued: since then
      no read of the chunk has completed. */
  ghost predicate Marked(start: State, trace: seq<Event>, d: nat, c: nat) {
    if trace == [] then false
    else
      var n := |trace| - 1;
      var before, e := trace[..n], trace[n];
      if e == DirtyRead(d, c) then true
      else if e.ReadComplete? && IsRun(start, before) && e.i < |RunEnd(start, before).inflight|
              && OfChunk(RunEnd(start, before).inflight[e.i], d, c) then false
      else Marked(start, before, d, c)
  }

  /** The bits of aio_bitmap are the marks. */
  ghost predicate Marks(start: State, trace: seq<Event>, control: seq<Control>) {
    forall d: nat, c: nat | d < |control| :: c in control[d].aio <==> Marked(start, trace, d, c)
  }

  // ---- how many reads of a chunk are in flight ----

  function ReadsOf(rs: seq<Read>, d: nat, c: nat): nat {
    if rs == [] then 0
    else ReadsOf(rs[..|rs| - 1], d, c) + (if OfChunk(rs[|rs| - 1], d, c) then 1 else 0)
  }

  /** A chunk has at most one read for its mark and one because the bulk phase has passed it. */
  ghost predicate Few(s: State, control: seq<Control>, d: nat, c: nat)
    requires d < |control| == |s.devs|
  {
    ReadsOf(s.inflight, d, c)
    <= (if c in control[d].aio then 1 else 0) + (if c * CHUNK < s.devs[d].curSector then 1 else 0)
  }

  ghost predicate FewReads(s: State, control: seq<Control>) {
    |control| == |s.devs| && forall d: nat, c: nat | d < |control| :: Few(s, control, d, c)
  }

  ghost predicate Tracked(start: State, trace: seq<Event>, s: State, control: seq<Control>) {
    Marks(start, trace, control) && FewReads(s, control)
  }

  /** Never more than two reads of a chunk are in flight, and only one when it is not marked. */
  lemma AtMostTwo(start: State, trace: seq<Event>, s: State, control: seq<Control>, d: nat, c: nat)
    requires Tracked(start, trace, s, control) && d < |control|
    ensures ReadsOf(s.inflight, d, c) <= 2
    ensures !Marked(start, trace, d, c) ==> ReadsOf(s.inflight, d, c) <= 1
  {
    hide ReadsOf, Marked;
    assert Few(s, control, d, c);
  }

  // ---- counting ----

  lemma ReadsSnoc(rs: seq<Read>, r: Read, d: nat, c: nat)
    ensures ReadsOf(rs + [r], d, c) == ReadsOf(rs, d, c) + (if OfChunk(r, d, c) then 1 else 0)
  {
    assert (rs + [r])[..|rs|] == rs;
  }

  lemma {:induction false} ReadsRemove(rs: seq<Read>, i: nat, d: nat, c: nat)
    requires i < |rs|
    ensures ReadsOf(Remove(rs, i), d, c) == ReadsOf(rs, d, c) - (if OfChunk(rs[i], d, c) then 1 else 0)
  {
    var n := |rs| - 1;
    if i == n {
      assert Remove(rs, i) == rs[..n];
    } else {
      assert Remove(rs, i)[..n - 1] == Remove(rs[..n], i);
      assert Remove(rs, i)[n - 1] == rs[n];
      ReadsRemove(rs[..n], i, d, c);
    }
  }

  lemma {:induction false} ReadsUpdate(rs: seq<Read>, i: nat, r: Read, d: nat, c: nat)
    requires i < |rs| && r.dev == rs[i].dev && r.chunk == rs[i].chunk
    ensures ReadsOf(rs[i := r], d, c) == ReadsOf(rs, d, c)
  {
    var n := |rs| - 1;
    if i == n {
      assert rs[i := r][..n] == rs[..n];
    } else {
      assert rs[i := r][..n] == rs[..n][i := r];
      ReadsUpdate(rs[..n], i, r, d, c);
    }
  }

  // ---- each step ----

  lemma MarkedSnoc(start: State, trace: seq<Event>, e: Event, d: nat, c: nat)
    ensures Marked(start, trace + [e], d, c) <==>
            || e == DirtyRead(d, c)
            || (&& Marked(start, trace, d, c)
                && !(e.ReadComplete? && IsRun(start, trace) && e.i < |RunEnd(start, trace).inflight|
                     && OfChunk(RunEnd(start, trace).inflight[e.i], d, c)))
  {
    assert (trace + [e])[..|trace|] == trace;
  }

  lemma MarksOther(start: State, trace: seq<Event>, control: seq<Control>, e: Event)
    requires Marks(start, trace, control) && !e.DirtyRead? && !e.ReadComplete?
    ensures Marks(start, trace + [e], control)
  {
    hide Marked;
    forall d: nat, c: nat | d < |control| ensures c in control[d].aio <==> Marked(start, trace + [e], d, c) {
      MarkedSnoc(start, trace, e, d, c);
    }
  }

  lemma MarksDirty(start: State, trace: seq<Event>, control: seq<Control>, d: nat, c: nat)
    requires Marks(start, trace, control) && d < |control|
    ensures Marks(start, trace + [DirtyRead(d, c)], SetAio(control, d, {c}, true))
  {
    hide Marked;
    var control' := SetAio(control, d, {c}, true);
    forall d': nat, c': nat | d' < |control'|
      ensures c' in control'[d'].aio <==> Marked(start, trace + [DirtyRead(d, c)], d', c')
    {
      MarkedSnoc(start, trace, DirtyRead(d, c), d', c');
    }
  }

  lemma MarksComplete(start: State, trace: seq<Event>, s: State, control: seq<Control>, i: nat)
    requires Reaches(start, trace, s) && Marks(start, trace, control) && i < |s.inflight| && s.inflight[i].dev < |control|
    ensures Marks(start, trace + [ReadComplete(i)], SetAio(control, s.inflight[i].dev, {s.inflight[i].chunk}, false))
  {
    hide Marked, IsRun, RunEnd;
    var r := s.inflight[i];
    var control' := SetAio(control, r.dev, {r.chunk}, false);
    forall d: nat, c: nat | d < |control'|
      ensures c in control'[d].aio <==> Marked(start, trace + [ReadComplete(i)], d, c)
    {
      MarkedSnoc(start, trace, ReadComplete(i), d, c);
    }
  }

  /** Steps that issue and complete no read. */
  lemma TrackedOther(start: State, trace: seq<Event>, s: State, control: seq<Control>, e: Event)
    requires Tracked(start, trace, s, control) && Possible(s, e) && WellFormed(s)
    requires !e.BulkRead? && !e.DirtyRead? && !e.ReadComplete?
    ensures Tracked(start, trace + [e], Next(s, e), control)
  {
    hide Marks, WellFormed, ReadsOf;
    MarksOther(start, trace, control, e);
    forall d: nat, c: nat | d < |control| ensures |Next(s, e).devs| == |control| && Few(Next(s, e), control, d, c) {
      assert Few(s, control, d, c);
      if e.Capture? {
        ReadsUpdate(s.inflight, e.i, Next(s, e).inflight[e.i], d, c);
      }
    }
  }

  lemma TrackedBulk(start: State, trace: seq<Event>, s: State, control: seq<Control>, d: nat)
    requires Tracked(start, trace, s, control) && Possible(s, BulkRead(d)) && WellFormed(s)
    ensures Tracked(start, trace + [BulkRead(d)], Next(s, BulkRead(d)), control)
  {
    hide Marks, ReadsOf;
    MarksOther(start, trace, control, BulkRead(d));
    var s' := Next(s, BulkRead(d));
    BulkCursor(s.devs[d]);
    forall d': nat, c': nat | d' < |control| ensures |s'.devs| == |control| && Few(s', control, d', c') {
      assert Few(s, control, d', c');
      ReadsSnoc(s.inflight, s'.inflight[|s.inflight|], d', c');
    }
  }

  /** A dirty read is issued for a chunk that is not marked. */
  lemma TrackedDirty(start: State, trace: seq<Event>, s: State, control: seq<Control>, d: nat, c: nat)
    requires Tracked(start, trace, s, control) && Possible(s, DirtyRead(d, c)) && |control| == |s.devs|
    requires c !in control[d].aio
    ensures Tracked(start, trace + [DirtyRead(d, c)], Next(s, DirtyRead(d, c)), SetAio(control, d, {c}, true))
  {
    hide Marks, ReadsOf;
    MarksDirty(start, trace, control, d, c);
    var s', control' := Next(s, DirtyRead(d, c)), SetAio(control, d, {c}, true);
    forall d': nat, c': nat | d' < |control'| ensures |s'.devs| == |control'| && Few(s', control', d', c') {
      assert Few(s, control, d', c');
      ReadsSnoc(s.inflight, s'.inflight[|s.inflight|], d', c');
    }
  }

  lemma TrackedComplete(start: State, trace: seq<Event>, s: State, control: seq<Control>, i: nat)
    requires Tracked(start, trace, s, control) && Reaches(start, trace, s) && Possible(s, ReadComplete(i)) && WellFormed(s)
    ensures s.inflight[i].dev < |control|
    ensures Tracked(start, trace + [ReadComplete(i)], Next(s, ReadComplete(i)),
                    SetAio(control, s.inflight[i].dev, {s.inflight[i].chunk}, false))
  {
    hide Marks, ReadsOf, Reaches;
    var r := s.inflight[i];
    assert ReadOk(s, r);
    MarksComplete(start, trace, s, control, i);
    var s', control' := Next(s, ReadComplete(i)), SetAio(control, r.dev, {r.chunk}, false);
    forall d: nat, c: nat | d < |control'| ensures |s'.devs| == |control'| && Few(s', control', d, c) {
      assert Few(s, control, d, c);
      ReadsRemove(s.inflight, i, d, c);
    }
  }

  ghost predicate SameMarks(a: seq<Control>, b: seq<Control>) {
    |a| == |b| && forall d | 0 <= d < |a| :: b[d].aio == a[d].aio
  }

  lemma TrackedSame(start: State, trace: seq<Event>, s: State, control: seq<Control>, control': seq<Control>)
    requires Tracked(start, trace, s, control) && SameMarks(control, control')
    ensures Tracked(start, trace, s, control')
  {
    hide Marked, ReadsOf;
    forall d: nat, c: nat | d < |control| ensures Few(s, control', d, c) {
      assert Few(s, control, d, c);
    }
  }
}
