/** What the safety theorem of block migration rests on: that a read overtakes an older one only while
    what that one has captured is still current, and that the queue is not left over. Each is shown to
    be needed, by a run and for all runs. */
module BlockMigrationLimits {
  import opened BlockMigration
  import opened Sectors

  /** The run ends in `s'`. */
  ghost predicate Steps(s: State, es: seq<Event>, s': State) {
    IsRun(s, es) && RunEnd(s, es) == s'
  }

  lemma Prepend(s: State, e: Event, next: State, es: seq<Event>, s': State)
    requires Possible(s, e) && Next(s, e) == next && Steps(next, es, s')
    ensures Steps(s, [e] + es, s')
  {
    hide Possible, Next;
    assert ([e] + es)[1..] == es;
  }

  // ---- a disk of one sector ----

  function Scene(v: Sector, dirty: set<nat>, cursor: nat, writes: seq<Write>, inflight: seq<Read>,
                 queue: seq<Block>, sent: seq<Block>, dest: Sector): State
  {
    State([Device([v], dirty, cursor)], writes, inflight, queue, sent, [[dest]])
  }

  function ReadOf(v: Sector): Read {
    Read(0, 0, [v], [true])
  }

  const FRESH: Read := Read(0, 0, [[]], [false])
  const WRITE: Write := Write(0, 0, 1)

  lemma BulkScene(v: Sector, dest: Sector)
    ensures Possible(Scene(v, {}, 0, [], [], [], [], dest), BulkRead(0))
    ensures Next(Scene(v, {}, 0, [], [], [], [], dest), BulkRead(0)) == Scene(v, {}, 1, [], [FRESH], [], [], dest)
  {
    assert ChunkLength(1, 0) == 1;
    assert NewRead(Device([v], {}, 0), 0, 0) == FRESH;
    var none: set<nat> := {};
    assert none - {0} == none;
  }

  lemma DirtyScene(v: Sector, rs: seq<Read>, dest: Sector)
    ensures Possible(Scene(v, {0}, 1, [], rs, [], [], dest), DirtyRead(0, 0))
    ensures Next(Scene(v, {0}, 1, [], rs, [], [], dest), DirtyRead(0, 0)) ==
            Scene(v, {}, 1, [], rs + [FRESH], [], [], dest)
  {
    assert ChunkLength(1, 0) == 1;
    assert NewRead(Device([v], {0}, 1), 0, 0) == FRESH;
    assert {0 as nat} - {0} == {};
  }

  lemma CaptureScene(v: Sector, rs: seq<Read>, dest: Sector)
    requires |rs| < 2
    ensures Possible(Scene(v, {}, 1, [], rs + [FRESH], [], [], dest), Capture(|rs|, 0))
    ensures Next(Scene(v, {}, 1, [], rs + [FRESH], [], [], dest), Capture(|rs|, 0)) ==
            Scene(v, {}, 1, [], rs + [ReadOf(v)], [], [], dest)
  {
    assert (rs + [FRESH])[|rs| := ReadOf(v)] == rs + [ReadOf(v)];
    assert [[]][0 := v] == [v] && [false][0 := true] == [true];
  }

  lemma OverwriteScene(v: Sector, v': Sector, rs: seq<Read>, dest: Sector)
    ensures (var s := Scene(v, {}, 1, [], rs, [], [], dest);
             && Possible(s, GuestSubmit(WRITE))
             && Next(s, GuestSubmit(WRITE)) == Scene(v, {}, 1, [WRITE], rs, [], [], dest))
    ensures (var s := Scene(v, {}, 1, [WRITE], rs, [], [], dest);
             && Possible(s, GuestData(0, 0, v'))
             && Next(s, GuestData(0, 0, v')) == Scene(v', {}, 1, [WRITE], rs, [], [], dest))
    ensures (var s := Scene(v', {}, 1, [WRITE], rs, [], [], dest);
             && Possible(s, GuestComplete(0))
             && Next(s, GuestComplete(0)) == Scene(v', {0}, 1, [], rs, [], [], dest))
  {
    assert [v][0 := v'] == [v'];
    assert ChunksOf(0, 1) == {0};
    assert Remove([WRITE], 0) == [];
    var none: set<nat> := {};
    assert none + {0} == {0};
  }

  lemma CompleteScene(v: Sector, a: seq<Read>, r: Sector, q: seq<Block>, dest: Sector)
    ensures (var s := Scene(v, {}, 1, [], a + [ReadOf(r)], q, [], dest);
             && Possible(s, ReadComplete(|a|))
             && Next(s, ReadComplete(|a|)) == Scene(v, {}, 1, [], a, q + [Block(0, 0, [r])], [], dest))
  {
    assert Remove(a + [ReadOf(r)], |a|) == a;
  }

  lemma FlushScene(v: Sector, r: Sector, q: seq<Block>, sent: seq<Block>, dest: Sector)
    ensures (var s := Scene(v, {}, 1, [], [], [Block(0, 0, [r])] + q, sent, dest);
             && Possible(s, FlushOne)
             && Next(s, FlushOne) == Scene(v, {}, 1, [], [], q, sent + [Block(0, 0, [r])], r))
  {
    assert ([Block(0, 0, [r])] + q)[1..] == q;
    assert Store([dest], 0, [r]) == [r];
  }

  /** The guest overwrites a chunk whose bulk read is still in flight. The dirty pass reads the chunk
      again, because bulk reads are not marked in flight; if that second read completes first, the
      destination ends with the old contents although nothing is dirty or pending. */
  lemma OutOfOrderLoses(v: Sector, v': Sector) returns (s: State, es: seq<Event>, s': State)
    requires v != v'
    ensures Init(s) && Steps(s, es, s') && Drained(s') && !Equal(s')
  {
    hide Next, Possible, Steps;
    var b, b' := Block(0, 0, [v]), Block(0, 0, [v']);
    var mid := Scene(v', {0}, 1, [], [ReadOf(v)], [], [], v);
    var tail;
    tail, s' := SecondHalf(v, v');
    OverwriteScene(v, v', [ReadOf(v)], v);
    Prepend(Scene(v', {}, 1, [WRITE], [ReadOf(v)], [], [], v), GuestComplete(0), mid, tail, s');
    es := [GuestComplete(0)] + tail;
    Prepend(Scene(v, {}, 1, [WRITE], [ReadOf(v)], [], [], v), GuestData(0, 0, v'),
            Scene(v', {}, 1, [WRITE], [ReadOf(v)], [], [], v), es, s');
    es := [GuestData(0, 0, v')] + es;
    Prepend(Scene(v, {}, 1, [], [ReadOf(v)], [], [], v), GuestSubmit(WRITE),
            Scene(v, {}, 1, [WRITE], [ReadOf(v)], [], [], v), es, s');
    es := [GuestSubmit(WRITE)] + es;
    CaptureScene(v, [], v);
    assert [] + [FRESH] == [FRESH] && [] + [ReadOf(v)] == [ReadOf(v)];
    Prepend(Scene(v, {}, 1, [], [FRESH], [], [], v), Capture(0, 0), Scene(v, {}, 1, [], [ReadOf(v)], [], [], v), es, s');
    es := [Capture(0, 0)] + es;
    BulkScene(v, v);
    s := Scene(v, {}, 0, [], [], [], [], v);
    Prepend(s, BulkRead(0), Scene(v, {}, 1, [], [FRESH], [], [], v), es, s');
    es := [BulkRead(0)] + es;
  }

  lemma SecondHalf(v: Sector, v': Sector) returns (es: seq<Event>, s': State)
    ensures s' == Scene(v', {}, 1, [], [], [], [Block(0, 0, [v']), Block(0, 0, [v])], v)
    ensures Steps(Scene(v', {0}, 1, [], [ReadOf(v)], [], [], v), es, s')
  {
    hide Next, Possible;
    var b, b' := Block(0, 0, [v]), Block(0, 0, [v']);
    s' := Scene(v', {}, 1, [], [], [], [b', b], v);
    FlushScene(v', v, [], [b'], v');
    assert [b] + [] == [b] && [b'] + [b] == [b', b];
    Prepend(Scene(v', {}, 1, [], [], [b], [b'], v'), FlushOne, s', [], s');
    es := [FlushOne] + [];
    FlushScene(v', v', [b], [], v);
    assert [b'] + [b] == [b', b] && [] + [b'] == [b'];
    Prepend(Scene(v', {}, 1, [], [], [b', b], [], v), FlushOne, Scene(v', {}, 1, [], [], [b], [b'], v'), es, s');
    es := [FlushOne] + es;
    CompleteScene(v', [], v, [b'], v);
    assert [] + [ReadOf(v)] == [ReadOf(v)];
    Prepend(Scene(v', {}, 1, [], [ReadOf(v)], [b'], [], v), ReadComplete(0),
            Scene(v', {}, 1, [], [], [b', b], [], v), es, s');
    es := [ReadComplete(0)] + es;
    CompleteScene(v', [ReadOf(v)], v', [], v);
    assert [] + [b'] == [b'];
    var both := [ReadOf(v)] + [ReadOf(v')];
    Prepend(Scene(v', {}, 1, [], both, [], [], v), ReadComplete(1),
            Scene(v', {}, 1, [], [ReadOf(v)], [b'], [], v), es, s');
    es := [ReadComplete(1)] + es;
    CaptureScene(v', [ReadOf(v)], v);
    Prepend(Scene(v', {}, 1, [], [ReadOf(v)] + [FRESH], [], [], v), Capture(1, 0),
            Scene(v', {}, 1, [], both, [], [], v), es, s');
    es := [Capture(1, 0)] + es;
    DirtyScene(v', [ReadOf(v)], v);
    Prepend(Scene(v', {0}, 1, [], [ReadOf(v)], [], [], v), DirtyRead(0, 0),
            Scene(v', {}, 1, [], [ReadOf(v)] + [FRESH], [], [], v), es, s');
    es := [DirtyRead(0, 0)] + es;
  }

  /** One chunk, read and queued; the last phase begins with the rate limiter closed, so the queue is
      thrown away. */
  lemma LeftoverLoses(v: Sector, w: Sector) returns (s: State, es: seq<Event>, s': State)
    requires v != w
    ensures Init(s) && Steps(s, es, s') && Drained(s') && !Equal(s')
  {
    hide Next, Possible;
    var b := Block(0, 0, [v]);
    s' := Scene(v, {}, 1, [], [], [], [], w);
    CleanupScene(v, b, w);
    Prepend(Scene(v, {}, 1, [], [], [b], [], w), Cleanup, s', [], s');
    es := [Cleanup] + [];
    CompleteScene(v, [], v, [], w);
    assert [] + [ReadOf(v)] == [ReadOf(v)] && [] + [b] == [b];
    Prepend(Scene(v, {}, 1, [], [ReadOf(v)], [], [], w), ReadComplete(0), Scene(v, {}, 1, [], [], [b], [], w), es, s');
    es := [ReadComplete(0)] + es;
    CaptureScene(v, [], w);
    assert [] + [FRESH] == [FRESH];
    Prepend(Scene(v, {}, 1, [], [FRESH], [], [], w), Capture(0, 0), Scene(v, {}, 1, [], [ReadOf(v)], [], [], w), es, s');
    es := [Capture(0, 0)] + es;
    BulkScene(v, w);
    s := Scene(v, {}, 0, [], [], [], [], w);
    Prepend(s, BulkRead(0), Scene(v, {}, 1, [], [FRESH], [], [], w), es, s');
    es := [BulkRead(0)] + es;
  }

  lemma CleanupScene(v: Sector, b: Block, w: Sector)
    ensures (var s := Scene(v, {}, 1, [], [], [b], [], w);
             Possible(s, Cleanup) && Next(s, Cleanup) == Scene(v, {}, 1, [], [], [], [], w))
  {
  }

  // ---- an overtaken read that is no longer current ----

  predicate WritesTo(w: Write, d: nat, c: nat) {
    w.dev == d && Touches(w.sector, w.count, c)
  }

  /** The chunk has been passed, is clean, and no write to it is in progress. */
  ghost predicate Quiet(s: State, d: nat, c: nat) {
    && d < |s.devs| && c !in s.devs[d].dirty && c * CHUNK < s.devs[d].curSector
    && forall i | 0 <= i < |s.writes| :: !WritesTo(s.writes[i], d, c)
  }

  /** The read has captured sector `x`, but not what the disk holds now. */
  ghost predicate Outdated(s: State, r: Read, x: nat)
    requires r.dev < |s.devs| && x < |s.devs[r.dev].content|
  {
    x % CHUNK < |r.got| && x % CHUNK < |r.buf| && r.got[x % CHUNK] && r.buf[x % CHUNK] != s.devs[r.dev].content[x]
  }

  /** Everything on its way to the destination for sector `x` is outdated. */
  ghost predicate Stale(s: State, d: nat, x: nat)
    requires WellFormed(s)
  {
    && d < |s.devs| && x < |s.devs[d].content| && Quiet(s, d, x / CHUNK)
    && (forall i | 0 <= i < |s.inflight| && OfChunk(s.inflight[i], d, x / CHUNK) :: Outdated(s, s.inflight[i], x))
    && ((exists i | 0 <= i < |s.inflight| :: OfChunk(s.inflight[i], d, x / CHUNK))
        || Replay(s.dest, s.queue)[d][x] != s.devs[d].content[x])
  }

  /** The guest does not write to the chunk again, and the queue is not thrown away. */
  predicate LeavesAlone(e: Event, d: nat, c: nat) {
    !e.Cleanup? && (e.GuestSubmit? ==> !WritesTo(e.w, d, c))
  }

  /** Nothing but a new write to the chunk can repair a stale sector. */
  lemma StaleStep(s: State, e: Event, d: nat, x: nat)
    requires WellFormed(s) && Possible(s, e) && WellFormed(Next(s, e)) && Stale(s, d, x) && LeavesAlone(e, d, x / CHUNK)
    ensures Stale(Next(s, e), d, x)
  {
    match e
    case GuestSubmit(w) => StaleWrites(s, e, d, x);
    case GuestData(i, y, v) => StaleData(s, i, y, v, d, x);
    case GuestComplete(i) => StaleWrites(s, e, d, x);
    case BulkRead(d') => StaleIssue(s, e, d, x);
    case DirtyRead(d', c') => StaleIssue(s, e, d, x);
    case Capture(i, k) => StaleCapture(s, i, k, d, x);
    case ReadComplete(i) => StaleComplete(s, i, d, x);
    case FlushOne => StaleFlush(s, d, x);
    case SyncSend(d', c') => StaleSend(s, d', c', d, x);
  }

  lemma StaleWrites(s: State, e: Event, d: nat, x: nat)
    requires WellFormed(s) && Possible(s, e) && WellFormed(Next(s, e)) && Stale(s, d, x) && LeavesAlone(e, d, x / CHUNK)
    requires e.GuestSubmit? || e.GuestComplete?
    ensures Stale(Next(s, e), d, x)
  {
    hide Replay, WellFormed;
    var s' := Next(s, e);
    if e.GuestComplete? {
      assert WritesTo(s.writes[e.i], d, x / CHUNK) == false;
      forall j | 0 <= j < |s'.writes| ensures !WritesTo(s'.writes[j], d, x / CHUNK) {
        assert s'.writes[j] == s.writes[if j < e.i then j else j + 1];
      }
      SameOutdated(s, s', d, x);
    } else {
      SameOutdated(s, s', d, x);
    }
  }

  /** The same reads are outdated as long as the sector does not change. */
  lemma SameOutdated(s: State, s': State, d: nat, x: nat)
    requires d < |s.devs| == |s'.devs| && x < |s.devs[d].content| == |s'.devs[d].content|
    requires s'.devs[d].content[x] == s.devs[d].content[x] && s'.inflight == s.inflight
    requires forall i | 0 <= i < |s.inflight| && OfChunk(s.inflight[i], d, x / CHUNK) :: Outdated(s, s.inflight[i], x)
    ensures forall i | 0 <= i < |s'.inflight| && OfChunk(s'.inflight[i], d, x / CHUNK) :: Outdated(s', s'.inflight[i], x)
  {
    forall i | 0 <= i < |s'.inflight| && OfChunk(s'.inflight[i], d, x / CHUNK)
      ensures Outdated(s', s'.inflight[i], x)
    {
      assert Outdated(s, s.inflight[i], x);
    }
  }

  lemma NotCovered(w: Write, d: nat, x: nat)
    requires !WritesTo(w, d, x / CHUNK)
    ensures !Covers(w, d, x)
  {
  }

  lemma StaleData(s: State, i: nat, y: nat, v: Sector, d: nat, x: nat)
    requires WellFormed(s) && Possible(s, GuestData(i, y, v)) && Stale(s, d, x)
    requires WellFormed(Next(s, GuestData(i, y, v)))
    ensures Stale(Next(s, GuestData(i, y, v)), d, x)
  {
    hide Replay, WellFormed;
    var s' := Next(s, GuestData(i, y, v));
    NotCovered(s.writes[i], d, x);
    SameOutdated(s, s', d, x);
  }

  lemma StaleIssue(s: State, e: Event, d: nat, x: nat)
    requires WellFormed(s) && Possible(s, e) && WellFormed(Next(s, e)) && Stale(s, d, x)
    requires e.BulkRead? || e.DirtyRead?
    ensures Stale(Next(s, e), d, x)
  {
    hide Replay;
    var s', n := Next(s, e), |s.inflight|;
    if e.BulkRead? {
      BulkCursor(s.devs[e.d]);
    }
    assert !OfChunk(s'.inflight[n], d, x / CHUNK);
    forall i | 0 <= i < |s'.inflight| && OfChunk(s'.inflight[i], d, x / CHUNK) ensures Outdated(s', s'.inflight[i], x) {
      assert s'.inflight[i] == s.inflight[i] && Outdated(s, s.inflight[i], x);
    }
    if i :| 0 <= i < n && OfChunk(s.inflight[i], d, x / CHUNK) {
      assert OfChunk(s'.inflight[i], d, x / CHUNK);
    }
  }

  lemma StaleCapture(s: State, i: nat, k: nat, d: nat, x: nat)
    requires WellFormed(s) && Possible(s, Capture(i, k)) && WellFormed(Next(s, Capture(i, k))) && Stale(s, d, x)
    ensures Stale(Next(s, Capture(i, k)), d, x)
  {
    hide Replay, WellFormed;
    var s' := Next(s, Capture(i, k));
    forall j | 0 <= j < |s'.inflight| && OfChunk(s'.inflight[j], d, x / CHUNK) ensures Outdated(s', s'.inflight[j], x) {
      assert OfChunk(s.inflight[j], d, x / CHUNK) && Outdated(s, s.inflight[j], x);
    }
    if j :| 0 <= j < |s.inflight| && OfChunk(s.inflight[j], d, x / CHUNK) {
      assert OfChunk(s'.inflight[j], d, x / CHUNK);
    }
  }

  lemma StaleComplete(s: State, i: nat, d: nat, x: nat)
    requires WellFormed(s) && Possible(s, ReadComplete(i)) && WellFormed(Next(s, ReadComplete(i))) && Stale(s, d, x)
    ensures Stale(Next(s, ReadComplete(i)), d, x)
  {
    hide Replay, WellFormed, Receive;
    var s', r := Next(s, ReadComplete(i)), s.inflight[i];
    ReadAt(s, i);
    DestAt(s, d);
    ReplaySnoc(s.dest, s.queue, Block(r.dev, r.chunk, r.buf));
    ReceiveAt(Replay(s.dest, s.queue), Block(r.dev, r.chunk, r.buf), d, x);
    forall j | 0 <= j < |s'.inflight| && OfChunk(s'.inflight[j], d, x / CHUNK) ensures Outdated(s', s'.inflight[j], x) {
      var j' := if j < i then j else j + 1;
      assert s'.inflight[j] == s.inflight[j'] && Outdated(s, s.inflight[j'], x);
    }
    if OfChunk(r, d, x / CHUNK) {
      assert Outdated(s, r, x);
    } else if j :| 0 <= j < |s.inflight| && OfChunk(s.inflight[j], d, x / CHUNK) {
      var j' := if j < i then j else j - 1;
      assert s'.inflight[j'] == s.inflight[j];
    }
  }

  lemma StaleFlush(s: State, d: nat, x: nat)
    requires WellFormed(s) && Possible(s, FlushOne) && WellFormed(Next(s, FlushOne)) && Stale(s, d, x)
    ensures Stale(Next(s, FlushOne), d, x)
  {
    hide Replay, WellFormed;
    ReplayHead(s.dest, s.queue);
    SameOutdated(s, Next(s, FlushOne), d, x);
  }

  lemma StaleSend(s: State, d': nat, c': nat, d: nat, x: nat)
    requires WellFormed(s) && Possible(s, SyncSend(d', c')) && WellFormed(Next(s, SyncSend(d', c'))) && Stale(s, d, x)
    ensures Stale(Next(s, SyncSend(d', c')), d, x)
  {
    hide Replay, WellFormed;
    SentAt(s, d', c', d, x);
    DestAt(s, d);
    QueueShape(s, d);
    ReplayAt(s.dest, Next(s, SyncSend(d', c')).dest, s.queue, d, x);
  }

  lemma {:induction false} StaleRun(s: State, es: seq<Event>, d: nat, x: nat)
    requires WellFormed(s) && Stale(s, d, x) && IsRun(s, es)
    requires forall i | 0 <= i < |es| :: LeavesAlone(es[i], d, x / CHUNK)
    ensures WellFormed(RunEnd(s, es)) && Stale(RunEnd(s, es), d, x)
    decreases |es|
  {
    hide Stale, Next, Possible, WellFormed, LeavesAlone;
    if es != [] {
      StepWellFormed(s, es[0]);
      StaleStep(s, es[0], d, x);
      StaleRun(Next(s, es[0]), es[1..], d, x);
    }
  }

  /**
   * The converse of the care that completions take. A read completes while every other read of its
   * chunk in flight has captured an outdated sector `x`. Then whatever happens afterwards, a migration
   * that ends drained leaves another sector `x` on the destination, unless the guest writes to the
   * chunk again.
   */
  lemma OvertakenLoses(s: State, i: nat, d: nat, x: nat, es: seq<Event>)
    requires WellFormed(s) && Possible(s, ReadComplete(i)) && OfChunk(s.inflight[i], d, x / CHUNK)
    requires d < |s.devs| && x < |s.devs[d].content| && Quiet(s, d, x / CHUNK)
    requires forall j | 0 <= j < |s.inflight| && j != i && OfChunk(s.inflight[j], d, x / CHUNK) :: Outdated(s, s.inflight[j], x)
    requires exists j :: 0 <= j < |s.inflight| && j != i && OfChunk(s.inflight[j], d, x / CHUNK)
    requires IsRun(Next(s, ReadComplete(i)), es) && Drained(RunEnd(Next(s, ReadComplete(i)), es))
    requires forall k | 0 <= k < |es| :: LeavesAlone(es[k], d, x / CHUNK)
    ensures !Equal(RunEnd(Next(s, ReadComplete(i)), es))
  {
    hide Replay, IsRun, RunEnd, WellFormed, Stale, Quiet, OfChunk, Outdated, Drained, Equal, LeavesAlone, Possible, Next;
    StepWellFormed(s, ReadComplete(i));
    OvertakenStale(s, i, d, x);
    StaleRun(Next(s, ReadComplete(i)), es, d, x);
    StaleDiffers(RunEnd(Next(s, ReadComplete(i)), es), d, x);
  }

  lemma OvertakenStale(s: State, i: nat, d: nat, x: nat)
    requires WellFormed(s) && Possible(s, ReadComplete(i)) && WellFormed(Next(s, ReadComplete(i)))
    requires d < |s.devs| && x < |s.devs[d].content| && Quiet(s, d, x / CHUNK)
    requires forall j | 0 <= j < |s.inflight| && j != i && OfChunk(s.inflight[j], d, x / CHUNK) :: Outdated(s, s.inflight[j], x)
    requires exists j :: 0 <= j < |s.inflight| && j != i && OfChunk(s.inflight[j], d, x / CHUNK)
    ensures Stale(Next(s, ReadComplete(i)), d, x)
  {
    hide Replay, WellFormed;
    var s' := Next(s, ReadComplete(i));
    forall j | 0 <= j < |s'.inflight| && OfChunk(s'.inflight[j], d, x / CHUNK) ensures Outdated(s', s'.inflight[j], x) {
      var j' := if j < i then j else j + 1;
      assert s'.inflight[j] == s.inflight[j'] && Outdated(s, s.inflight[j'], x);
    }
    var j :| 0 <= j < |s.inflight| && j != i && OfChunk(s.inflight[j], d, x / CHUNK);
    assert s'.inflight[if j < i then j else j - 1] == s.inflight[j];
  }

  lemma StaleDiffers(s: State, d: nat, x: nat)
    requires WellFormed(s) && Stale(s, d, x) && Drained(s)
    ensures !Equal(s)
  {
    assert Replay(s.dest, s.queue) == s.dest;
  }

  // ---- a queue that is left over ----

  /** Index of the last block of a chunk, or -1. */
  function LastOf(blocks: seq<Block>, d: nat, c: nat): (i: int)
    ensures -1 <= i < |blocks|
    ensures i >= 0 ==> blocks[i].dev == d && blocks[i].chunk == c
  {
    if blocks == [] then -1
    else if blocks[|blocks| - 1].dev == d && blocks[|blocks| - 1].chunk == c then |blocks| - 1
    else LastOf(blocks[..|blocks| - 1], d, c)
  }

  lemma {:induction false} ReplayLast(dest: seq<seq<Sector>>, blocks: seq<Block>, d: nat, x: nat)
    requires d < |dest| && x < |dest[d]|
    requires forall i | 0 <= i < |blocks| ::
               blocks[i].dev == d ==> |blocks[i].data| == ChunkLength(|dest[d]|, blocks[i].chunk)
    ensures (var i := LastOf(blocks, d, x / CHUNK);
             && (i >= 0 ==> x % CHUNK < |blocks[i].data| && Replay(dest, blocks)[d][x] == blocks[i].data[x % CHUNK])
             && (i < 0 ==> Replay(dest, blocks)[d][x] == dest[d][x]))
  {
    if blocks != [] {
      var n := |blocks| - 1;
      ReplayLast(dest, blocks[..n], d, x);
      ReceiveAt(Replay(dest, blocks[..n]), blocks[n], d, x);
    }
  }

  /** The sends of the last phase: exactly the chunks that were dirty become what the source holds. */
  lemma {:induction false} LastPhase(s: State, es: seq<Event>, d: nat, x: nat)
    requires WellFormed(s) && IsRun(s, es) && forall i | 0 <= i < |es| :: es[i].SyncSend?
    requires d < |s.devs| && x < |s.devs[d].content|
    ensures (var e := RunEnd(s, es);
             && |e.devs| == |s.devs| && e.devs[d].content == s.devs[d].content && e.devs[d].dirty <= s.devs[d].dirty
             && |e.dest| == |s.devs| && |e.dest[d]| == |s.devs[d].content|
             && e.dest[d][x] == if x / CHUNK in s.devs[d].dirty && x / CHUNK !in e.devs[d].dirty
                                then s.devs[d].content[x] else s.dest[d][x])
    decreases |es|
  {
    if es == [] {
      DestAt(s, d);
    } else {
      hide WellFormed, IsRun, RunEnd;
      RunUnfolds(s, es);
      var s' := Next(s, es[0]);
      StepWellFormed(s, es[0]);
      SentAt(s, es[0].d, es[0].c, d, x);
      LastPhase(s', es[1..], d, x);
    }
  }

  lemma RunUnfolds(s: State, es: seq<Event>)
    requires IsRun(s, es) && es != []
    ensures Possible(s, es[0]) && IsRun(Next(s, es[0]), es[1..]) && RunEnd(s, es) == RunEnd(Next(s, es[0]), es[1..])
  {
    hide Possible, Next;
  }

  /** The state when the rate limiter has let the first `k` blocks of the queue through. */
  function Limited(s: State, k: nat): State
    requires k <= |s.queue|
  {
    s.(queue := s.queue[k..], sent := s.sent + s.queue[..k], dest := Replay(s.dest, s.queue[..k]))
  }

  /**
   * Which sectors the last phase loses, from the queue and the budget of the rate limiter: a sector is
   * right at the end exactly when its chunk was dirty, or no block of its chunk was left over, or the
   * last one left over holds what the destination has already.
   */
  lemma LeftoverExact(s: State, k: nat, es: seq<Event>, d: nat, x: nat)
    requires Inv(s) && s.inflight == [] && s.writes == [] && k <= |s.queue|
    requires d < |s.devs| && x < |s.devs[d].content| <= s.devs[d].curSector
    requires WellFormed(Limited(s, k)) && IsRun(Limited(s, k), es) && forall i | 0 <= i < |es| :: es[i].SyncSend?
    requires d < |RunEnd(Limited(s, k), es).devs| && RunEnd(Limited(s, k), es).devs[d].dirty == {}
    ensures (var e, had := RunEnd(Limited(s, k), es), Replay(s.dest, s.queue[..k])[d];
             var i := LastOf(s.queue[k..], d, x / CHUNK);
             && |e.dest| == |s.devs| && |e.dest[d]| == |s.devs[d].content| && |had| == |s.devs[d].content|
             && (i >= 0 ==> x % CHUNK < |s.queue[k..][i].data|)
             && (e.dest[d][x] == s.devs[d].content[x] <==>
                 x / CHUNK in s.devs[d].dirty || i < 0 || s.queue[k..][i].data[x % CHUNK] == had[x]))
  {
    hide Replay, RunEnd, IsRun, LastOf, Inv;
    InvMeans(s);
    DestAt(s, d);
    LastPhase(Limited(s, k), es, d, x);
    LeftOver(s, k, d, x);
  }

  lemma InvMeans(s: State)
    requires Inv(s)
    ensures WellFormed(s)
  {
  }

  /** The condition of `LeftoverExact`, for what the last phase leaves. */
  lemma LeftOver(s: State, k: nat, d: nat, x: nat)
    requires Inv(s) && s.inflight == [] && s.writes == [] && k <= |s.queue|
    requires d < |s.devs| && x < |s.devs[d].content| <= s.devs[d].curSector
    ensures |s.dest| == |s.devs| && |s.dest[d]| == |s.devs[d].content|
    ensures (var had, i := Replay(s.dest, s.queue[..k])[d], LastOf(s.queue[k..], d, x / CHUNK);
             && (i >= 0 ==> x % CHUNK < |s.queue[k..][i].data|)
             && (x / CHUNK in s.devs[d].dirty || had[x] == s.devs[d].content[x] <==>
                 x / CHUNK in s.devs[d].dirty || i < 0 || s.queue[k..][i].data[x % CHUNK] == had[x]))
  {
    hide Replay, LastOf;
    var left := s.queue[k..];
    DestAt(s, d);
    QueueShape(s, d);
    assert s.queue == s.queue[..k] + left;
    ReplayAppend(s.dest, s.queue[..k], left);
    ReplayLast(Replay(s.dest, s.queue[..k]), left, d, x);
    if x / CHUNK !in s.devs[d].dirty {
      IdleCopied(s, d, x);
    }
  }

  lemma IdleCopied(s: State, d: nat, x: nat)
    requires Inv(s) && s.inflight == [] && s.writes == []
    requires d < |s.devs| && x < |s.devs[d].content| <= s.devs[d].curSector && x / CHUNK !in s.devs[d].dirty
    ensures |s.dest| == |s.devs| && |s.dest[d]| == |s.devs[d].content|
    ensures Replay(s.dest, s.queue)[d][x] == s.devs[d].content[x]
  {
    assert Settled(s, d, x);
    assert Copied(s, d, x);
  }
}
