/** The dirty chunks and the bulk cursor of a migration, told from its history. */
module BlockMigrationHistory {
  import opened BlockMigration
  import opened Sectors

  lemma {:induction false} RunFront(s: State, es: seq<Event>, e: Event)
    requires IsRun(s, es + [e])
    ensures IsRun(s, es) && Possible(RunEnd(s, es), e) && RunEnd(s, es + [e]) == Next(RunEnd(s, es), e)
    decreases |es|
  {
    hide Possible, Next;
    if es == [] {
      assert [] + [e] == [e] && [e][1..] == [];
    } else {
      assert (es + [e])[1..] == es[1..] + [e];
      RunFront(Next(s, es[0]), es[1..], e);
    }
  }

  // ---- dirty chunks ----

  /** The step completes a guest write to the chunk. */
  ghost predicate WritesChunk(s: State, e: Event, d: nat, c: nat) {
    && e.GuestComplete? && e.i < |s.writes|
    && s.writes[e.i].dev == d && Touches(s.writes[e.i].sector, s.writes[e.i].count, c)
  }

  /** The step begins to transfer the chunk. */
  ghost predicate TakesChunk(s: State, e: Event, d: nat, c: nat) {
    || e == DirtyRead(d, c) || e == SyncSend(d, c)
    || (e == BulkRead(d) && d < |s.devs| && s.devs[d].curSector / CHUNK == c)
  }

  /** A guest write to the chunk has completed since its last transfer began. */
  ghost predicate WrittenSince(s: State, es: seq<Event>, d: nat, c: nat)
    requires IsRun(s, es)
  {
    if es == [] then false
    else
      var n := |es| - 1;
      assert es == es[..n] + [es[n]];
      RunFront(s, es[..n], es[n]);
      var t := RunEnd(s, es[..n]);
      WritesChunk(t, es[n], d, c) || (WrittenSince(s, es[..n], d, c) && !TakesChunk(t, es[n], d, c))
  }

  lemma DirtyStep(s: State, e: Event, d: nat, c: nat)
    requires Possible(s, e) && d < |s.devs|
    ensures |Next(s, e).devs| == |s.devs|
    ensures c in Next(s, e).devs[d].dirty <==>
            WritesChunk(s, e, d, c) || (c in s.devs[d].dirty && !TakesChunk(s, e, d, c))
  {
    if e.GuestComplete? {
      var w := s.writes[e.i];
      assert c in ChunksOf(w.sector, w.count) <==> Touches(w.sector, w.count, c);
    }
  }

  /** In every run a chunk is dirty exactly when a guest write to it completed after its last transfer began. */
  lemma {:induction false} DirtyMeans(s: State, es: seq<Event>, d: nat, c: nat)
    requires Init(s) && IsRun(s, es) && d < |s.devs|
    ensures |RunEnd(s, es).devs| == |s.devs|
    ensures c in RunEnd(s, es).devs[d].dirty <==> WrittenSince(s, es, d, c)
    decreases |es|
  {
    hide Possible, Next, WritesChunk, TakesChunk;
    if es != [] {
      var n := |es| - 1;
      assert es == es[..n] + [es[n]];
      RunFront(s, es[..n], es[n]);
      DirtyMeans(s, es[..n], d, c);
      DirtyStep(RunEnd(s, es[..n]), es[n], d, c);
    }
  }

  // ---- the bulk cursor ----

  function BulkReads(es: seq<Event>, d: nat): nat {
    if es == [] then 0
    else BulkReads(es[..|es| - 1], d) + (if es[|es| - 1] == BulkRead(d) then 1 else 0)
  }

  lemma CursorStep(s: State, e: Event, d: nat, n: nat)
    requires WellFormed(s) && Possible(s, e) && d < |s.devs|
    requires s.devs[d].curSector == if n * CHUNK < |s.devs[d].content| then n * CHUNK else |s.devs[d].content|
    ensures var s' := Next(s, e);
            && |s'.devs| == |s.devs| && |s'.devs[d].content| == |s.devs[d].content|
            && (e == BulkRead(d) ==> s.devs[d].curSector == n * CHUNK)
            && (var n' := if e == BulkRead(d) then n + 1 else n;
                s'.devs[d].curSector == if n' * CHUNK < |s.devs[d].content| then n' * CHUNK else |s.devs[d].content|)
  {
    StepShape(s, e);
    if e == BulkRead(d) {
      BulkCursor(s.devs[d]);
    }
  }

  /** The bulk reads of a device take its chunks one after the other: `n` of them have passed `n` chunks. */
  lemma {:induction false} CursorMeans(s: State, es: seq<Event>, d: nat)
    requires Init(s) && IsRun(s, es) && d < |s.devs|
    ensures var t, n := RunEnd(s, es), BulkReads(es, d);
            && |t.devs| == |s.devs| && |t.devs[d].content| == |s.devs[d].content|
            && t.devs[d].curSector == if n * CHUNK < |s.devs[d].content| then n * CHUNK else |s.devs[d].content|
    decreases |es|
  {
    hide Possible, Next, WellFormed;
    if es != [] {
      var n := |es| - 1;
      assert es == es[..n] + [es[n]];
      RunFront(s, es[..n], es[n]);
      CursorMeans(s, es[..n], d);
      RunWellFormed(s, es[..n]);
      CursorStep(RunEnd(s, es[..n]), es[n], d, BulkReads(es[..n], d));
    }
  }
}
