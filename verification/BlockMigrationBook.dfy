/** The bookkeeping of block-migration.c beside the state of the machine: cursors, flags and the chunks
    marked in flight, and what each step of the machine means for it. */
module BlockMigrationBook {
  import opened BlockMigration
  import opened Sectors

  /** The per-device bookkeeping of BlkMigDevState: the dirty cursor, the bulk flag and the chunks
      marked in flight in aio_bitmap. */
  datatype Control = Control(curDirty: nat, bulkCompleted: bool, aio: set<nat>)

  // ---- runs grow at the end ----

  lemma {:induction false} RunSnoc(s: State, es: seq<Event>, e: Event)
    requires IsRun(s, es) && Possible(RunEnd(s, es), e)
    ensures IsRun(s, es + [e]) && RunEnd(s, es + [e]) == Next(RunEnd(s, es), e)
    ensures IsCareful(s, es) && Careful(RunEnd(s, es), e) ==> IsCareful(s, es + [e])
    decreases |es|
  {
    hide Possible, Next, Careful;
    if es != [] {
      assert (es + [e])[1..] == es[1..] + [e];
      RunSnoc(Next(s, es[0]), es[1..], e);
    } else {
      assert [] + [e] == [e] && [e][1..] == [];
    }
  }

  // ---- chunk arithmetic of the C code ----

  lemma OneChunk(total: nat, c: nat)
    requires c * CHUNK < total
    ensures ChunksOf(c * CHUNK, ChunkLength(total, c)) == {c}
  {
  }

  /** Only guest data, guest completions, captures and read completions happen inside
      qemu_aio_flush: cursors and sizes stay, and every read goes to the queue. */
  ghost predicate Flushed(s: State, s': State) {
    && SameShape(s, s')
    && (forall d | 0 <= d < |s.devs| :: s'.devs[d].curSector == s.devs[d].curSector && s.devs[d].dirty <= s'.devs[d].dirty)
    && |s'.inflight| + |s'.queue| == |s.inflight| + |s.queue|
    && s'.sent == s.sent && s'.dest == s.dest
  }

  // ---- what the object's state means ----

  /** `s` is reached from `start` by the steps of `trace`. */
  ghost predicate Reaches(start: State, trace: seq<Event>, s: State) {
    Init(start) && IsRun(start, trace) && RunEnd(start, trace) == s
  }

  ghost predicate ReachesSafely(start: State, trace: seq<Event>, s: State) {
    Reaches(start, trace, s) && IsCareful(start, trace)
  }

  lemma ReachStep(start: State, trace: seq<Event>, s: State, e: Event)
    requires Reaches(start, trace, s) && Possible(s, e)
    ensures Reaches(start, trace + [e], Next(s, e))
    ensures ReachesSafely(start, trace, s) && Careful(s, e) ==> ReachesSafely(start, trace + [e], Next(s, e))
  {
    hide Possible, Next, Careful;
    RunSnoc(start, trace, e);
  }

  lemma ReachInv(start: State, trace: seq<Event>, s: State)
    requires ReachesSafely(start, trace, s)
    ensures Inv(s)
  {
    RunKeepsInv(start, trace);
  }

  lemma ReachWellFormed(start: State, trace: seq<Event>, s: State)
    requires Reaches(start, trace, s)
    ensures WellFormed(s)
  {
    RunWellFormed(start, trace);
  }

  ghost predicate InFlight(rs: seq<Read>, d: nat, c: nat) {
    exists i :: 0 <= i < |rs| && rs[i].dev == d && rs[i].chunk == c
  }

  ghost predicate ControlOk(s: State, control: seq<Control>, d: nat)
    requires d < |s.devs| == |control|
  {
    && control[d].curDirty % CHUNK == 0
    && (control[d].bulkCompleted ==> s.devs[d].curSector >= |s.devs[d].content|)
    && (forall c | c in control[d].aio :: InFlight(s.inflight, d, c))
  }

  /** The bookkeeping agrees with the devices and the reads in flight. */
  ghost predicate Book(s: State, control: seq<Control>) {
    && |control| == |s.devs|
    && forall d | 0 <= d < |s.devs| :: ControlOk(s, control, d)
  }

  lemma InFlightGrows(rs: seq<Read>, r: Read, d: nat, c: nat)
    requires InFlight(rs, d, c)
    ensures InFlight(rs + [r], d, c)
  {
    var i :| 0 <= i < |rs| && rs[i].dev == d && rs[i].chunk == c;
    assert (rs + [r])[i] == rs[i];
  }

  lemma BookBulk(s: State, control: seq<Control>, d: nat)
    requires WellFormed(s) && Book(s, control) && Possible(s, BulkRead(d))
    ensures Book(Next(s, BulkRead(d)), control)
  {
    var s' := Next(s, BulkRead(d));
    BulkCursor(s.devs[d]);
    forall e | 0 <= e < |s.devs|
      ensures ControlOk(s', control, e)
    {
      assert ControlOk(s, control, e);
      forall c | c in control[e].aio
        ensures InFlight(s'.inflight, e, c)
      {
        InFlightGrows(s.inflight, s'.inflight[|s.inflight|], e, c);
      }
    }
  }

  /** The result of a bulk read step, spelled out. */
  lemma BulkResult(s: State, d: nat)
    requires WellFormed(s) && Possible(s, BulkRead(d))
    ensures (var dev := s.devs[d];
             var cur := dev.curSector - dev.curSector % CHUNK;
             var nr := if |dev.content| - cur < CHUNK then |dev.content| - cur else CHUNK;
             && cur == dev.curSector
             && Next(s, BulkRead(d)) ==
                s.(devs := s.devs[d := dev.(dirty := dev.dirty - ChunksOf(cur, nr), curSector := cur + nr)],
                   inflight := s.inflight + [Read(d, cur / CHUNK, seq(nr, _ => []), seq(nr, _ => false))]))
  {
    BulkCursor(s.devs[d]);
    OneChunk(|s.devs[d].content|, s.devs[d].curSector / CHUNK);
  }

  lemma BookSame(s: State, s': State, control: seq<Control>)
    requires Book(s, control) && SameShape(s, s') && s'.inflight == s.inflight
    requires forall d | 0 <= d < |s.devs| :: s'.devs[d].curSector == s.devs[d].curSector
    ensures Book(s', control)
  {
    forall d | 0 <= d < |s'.devs|
      ensures ControlOk(s', control, d)
    {
      assert ControlOk(s, control, d);
    }
  }

  lemma BookCapture(s: State, control: seq<Control>, i: nat, k: nat)
    requires Book(s, control) && Possible(s, Capture(i, k))
    ensures Book(Next(s, Capture(i, k)), control)
  {
    var s' := Next(s, Capture(i, k));
    forall d | 0 <= d < |s'.devs|
      ensures ControlOk(s', control, d)
    {
      assert ControlOk(s, control, d);
      forall c | c in control[d].aio
        ensures InFlight(s'.inflight, d, c)
      {
        var j :| 0 <= j < |s.inflight| && s.inflight[j].dev == d && s.inflight[j].chunk == c;
        assert s'.inflight[j].dev == d && s'.inflight[j].chunk == c;
      }
    }
  }

  /** bmds_set_aio_inflight */
  function SetAio(control: seq<Control>, d: nat, chunks: set<nat>, set': bool): (r: seq<Control>)
    requires d < |control|
    ensures |r| == |control|
  {
    var ct := control[d];
    control[d := ct.(aio := if set' then ct.aio + chunks else ct.aio - chunks)]
  }

  lemma BookComplete(s: State, control: seq<Control>, i: nat)
    requires WellFormed(s) && Book(s, control) && Possible(s, ReadComplete(i))
    ensures s.inflight[i].dev < |control|
    ensures Book(Next(s, ReadComplete(i)), SetAio(control, s.inflight[i].dev, {s.inflight[i].chunk}, false))
  {
    var s' := Next(s, ReadComplete(i));
    var r := s.inflight[i];
    assert ReadOk(s, r);
    var control' := SetAio(control, r.dev, {r.chunk}, false);
    forall d | 0 <= d < |s'.devs|
      ensures ControlOk(s', control', d)
    {
      assert ControlOk(s, control, d);
      forall c | c in control'[d].aio
        ensures InFlight(s'.inflight, d, c)
      {
        var j :| 0 <= j < |s.inflight| && s.inflight[j].dev == d && s.inflight[j].chunk == c;
        assert j != i;
        var j' := if j < i then j else j - 1;
        assert s'.inflight[j'] == s.inflight[j];
      }
    }
  }

  lemma BookDirty(s: State, control: seq<Control>, d: nat, c: nat)
    requires WellFormed(s) && Book(s, control) && Possible(s, DirtyRead(d, c))
    ensures Book(Next(s, DirtyRead(d, c)), SetAio(control, d, {c}, true))
  {
    var s' := Next(s, DirtyRead(d, c));
    var control' := SetAio(control, d, {c}, true);
    forall e | 0 <= e < |s'.devs|
      ensures ControlOk(s', control', e)
    {
      assert ControlOk(s, control, e);
      forall c' | c' in control'[e].aio
        ensures InFlight(s'.inflight, e, c')
      {
        if e == d && c' == c {
          assert s'.inflight[|s.inflight|].chunk == c;
        } else {
          InFlightGrows(s.inflight, s'.inflight[|s.inflight|], e, c');
        }
      }
    }
  }

  /** With no read in flight no chunk is marked in flight. */
  lemma BookIdle(s: State, control: seq<Control>, d: nat)
    requires Book(s, control) && s.inflight == [] && d < |control|
    ensures control[d].aio == {}
  {
    assert ControlOk(s, control, d);
    assert forall c: nat :: !InFlight(s.inflight, d, c);
  }

  lemma ReplayNothing(dest: seq<seq<Sector>>, queue: seq<Block>)
    ensures Replay(dest, queue[..0]) == dest
  {
  }

  function SetCursor(control: seq<Control>, d: nat, cur: nat): (r: seq<Control>)
    requires d < |control|
    ensures |r| == |control|
  {
    control[d := control[d].(curDirty := cur)]
  }

  lemma BookCursor(s: State, control: seq<Control>, d: nat, cur: nat)
    requires Book(s, control) && d < |control| && cur % CHUNK == 0
    ensures Book(s, SetCursor(control, d, cur))
  {
    forall e | 0 <= e < |s.devs|
      ensures ControlOk(s, SetCursor(control, d, cur), e)
    {
      assert ControlOk(s, control, e);
    }
  }

  lemma BookCursorAligned(s: State, control: seq<Control>, d: nat)
    requires Book(s, control) && d < |control|
    ensures |control| == |s.devs| && control[d].curDirty % CHUNK == 0
  {
    assert ControlOk(s, control, d);
  }

  /** The result of a dirty read step, spelled out as the code computes it. */
  lemma DirtyResult(s: State, d: nat, c: nat)
    requires Possible(s, DirtyRead(d, c))
    ensures (var dev := s.devs[d];
             var nr := if |dev.content| - c * CHUNK < CHUNK then |dev.content| - c * CHUNK else CHUNK;
             && nr > 0 && ChunksOf(c * CHUNK, nr) == {c}
             && Next(s, DirtyRead(d, c)) ==
                s.(devs := s.devs[d := dev.(dirty := dev.dirty - ChunksOf(c * CHUNK, nr))],
                   inflight := s.inflight + [Read(d, c, seq(nr, _ => []), seq(nr, _ => false))]))
  {
    OneChunk(|s.devs[d].content|, c);
  }

  lemma SyncResult(s: State, d: nat, c: nat)
    requires Possible(s, SyncSend(d, c))
    ensures (var dev := s.devs[d];
             var nr := if |dev.content| - c * CHUNK < CHUNK then |dev.content| - c * CHUNK else CHUNK;
             var b := Block(d, c, dev.content[c * CHUNK..c * CHUNK + nr]);
             Next(s, SyncSend(d, c)) ==
             s.(devs := s.devs[d := dev.(dirty := dev.dirty - ChunksOf(c * CHUNK, nr))],
                sent := s.sent + [b], dest := Receive(s.dest, b)))
  {
    OneChunk(|s.devs[d].content|, c);
  }

  // ---- the dirty cursors of the last phase ----

  /** Every chunk below its device's cursor is clean. */
  ghost predicate BelowClean(devs: seq<Device>, control: seq<Control>) {
    && |devs| == |control|
    && forall d, c | 0 <= d < |devs| && c in devs[d].dirty :: control[d].curDirty <= c * CHUNK
  }

  /** Moving a cursor from `from` to `to` passes no dirty chunk. */
  ghost predicate NonePassed(dirty: set<nat>, from: nat, to: nat) {
    forall c | c in dirty && c * CHUNK < to :: c * CHUNK < from
  }

  lemma NonePassedYet(dirty: set<nat>, from: nat)
    ensures NonePassed(dirty, from, from)
  {
  }

  lemma NonePassedOn(dirty: set<nat>, from: nat, sector: nat, now: set<nat>)
    requires sector % CHUNK == 0 && sector / CHUNK !in now
    ensures NonePassed(dirty, from, sector) && dirty == now ==> NonePassed(dirty, from, sector + CHUNK)
  {
  }

  /** The number of dirty chunks on all devices. */
  function DirtyTotal(devs: seq<Device>): nat {
    if devs == [] then 0 else DirtyTotal(devs[..|devs| - 1]) + |devs[|devs| - 1].dirty|
  }

  lemma {:induction false} DirtyTotalUpdate(devs: seq<Device>, d: nat, dev: Device)
    requires d < |devs|
    ensures DirtyTotal(devs[d := dev]) == DirtyTotal(devs) - |devs[d].dirty| + |dev.dirty|
  {
    var n := |devs| - 1;
    if d == n {
      assert devs[d := dev][..n] == devs[..n];
    } else {
      assert devs[d := dev][..n] == devs[..n][d := dev];
      DirtyTotalUpdate(devs[..n], d, dev);
    }
  }

  /** A synchronous send keeps nothing pending and leaves one dirty chunk less. */
  lemma SyncDecreases(s: State, d: nat, c: nat)
    requires Possible(s, SyncSend(d, c))
    ensures (var s' := Next(s, SyncSend(d, c));
             && DirtyTotal(s'.devs) == DirtyTotal(s.devs) - 1 && SameShape(s, s')
             && s'.inflight == s.inflight && s'.writes == s.writes && s'.queue == s.queue
             && (forall e | 0 <= e < |s.devs| :: s'.devs[e].curSector == s.devs[e].curSector))
  {
    var dev := s.devs[d];
    DirtyTotalUpdate(s.devs, d, dev.(dirty := dev.dirty - {c}));
  }

  ghost predicate IsSyncSend(s: State, s': State) {
    exists d: nat, c: nat :: Possible(s, SyncSend(d, c)) && s' == Next(s, SyncSend(d, c))
  }

  /** How many devices still have bulk work. */
  function Unbulked(control: seq<Control>): nat {
    if control == [] then 0
    else Unbulked(control[..|control| - 1]) + (if control[|control| - 1].bulkCompleted then 0 else 1)
  }

  lemma {:induction false} UnbulkedUpdate(control: seq<Control>, d: nat)
    requires d < |control| && !control[d].bulkCompleted
    ensures Unbulked(control[d := control[d].(bulkCompleted := true)]) == Unbulked(control) - 1
  {
    var n := |control| - 1;
    var ct := control[d].(bulkCompleted := true);
    if d == n {
      assert control[d := ct][..n] == control[..n];
    } else {
      assert control[d := ct][..n] == control[..n][d := ct];
      UnbulkedUpdate(control[..n], d);
    }
  }

  lemma BookBulked(s: State, control: seq<Control>, d: nat)
    requires Book(s, control) && d < |control| && s.devs[d].curSector >= |s.devs[d].content|
    ensures Book(s, control[d := control[d].(bulkCompleted := true)])
  {
    var control' := control[d := control[d].(bulkCompleted := true)];
    forall e | 0 <= e < |s.devs|
      ensures ControlOk(s, control', e)
    {
      assert ControlOk(s, control, e);
    }
  }
}
