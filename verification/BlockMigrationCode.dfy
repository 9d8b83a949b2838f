/** The functions of block-migration.c as methods on the migration's global state. Each method is
    shown to take only steps of the machine in `BlockMigration`, so the safety theorem applies to
    every sequence of calls, with guest activity between them and inside qemu_aio_flush. */
module BlockMigrationCode {
  import opened BlockMigration
  import opened Sectors
  import opened BlockMigrationLimits
  import opened BlockMigrationBook
  import opened BlockMigrationMarks

  class BlkMig {
    var devs: seq<Device>
    var control: seq<Control>
    var writes: seq<Write>
    var inflight: seq<Read>
    var blkList: seq<Block>
    var sent: seq<Block>
    var dest: seq<seq<Sector>>
    var submitted: int
    var readDone: int
    var transferred: int
    var bulkCompleted: bool
    ghost var start: State
    ghost var trace: seq<Event>

    function Abs(): State
      reads this
    {
      State(devs, writes, inflight, blkList, sent, dest)
    }

    /** The object is in a state that a run of the machine reaches, and the counters agree with the
        lists they count. */
    ghost predicate Valid()
      reads this
    {
      && Reaches(start, trace, Abs()) && Book(Abs(), control) && Tracked(start, trace, Abs(), control)
      && submitted == |inflight| && readDone == |blkList|
      && (bulkCompleted ==> AllBulked(control))
    }

    /** Every step so far was careful. */
    ghost predicate Safe()
      reads this
    {
      ReachesSafely(start, trace, Abs())
    }

    static ghost predicate AllBulked(control: seq<Control>) {
      forall d | 0 <= d < |control| :: control[d].bulkCompleted
    }

    /** init_blk_migration and set_dirty_tracking(1). */
    constructor (disks: seq<seq<Sector>>, pending: seq<Write>, target: seq<seq<Sector>>)
      requires |target| == |disks|
      requires forall d | 0 <= d < |disks| :: |target[d]| == |disks[d]| > 0
      requires forall i | 0 <= i < |pending| ::
                 && pending[i].dev < |disks| && 0 < pending[i].count
                 && pending[i].sector + pending[i].count <= |disks[pending[i].dev]|
      ensures Valid() && Safe() && Init(Abs()) && trace == []
    {
      devs := seq(|disks|, d requires 0 <= d < |disks| => Device(disks[d], {}, 0));
      control := seq(|disks|, _ => Control(0, false, {}));
      writes, inflight, blkList, sent, dest := pending, [], [], [], target;
      submitted, readDone, transferred, bulkCompleted := 0, 0, 0, false;
      new;
      start, trace := Abs(), [];
    }

    /** mig_save_device_bulk: read the next chunk of the bulk phase. */
    method MigSaveDeviceBulk(d: nat) returns (done: bool)
      requires Valid() && d < |devs|
      modifies this
      ensures Valid() && start == old(start) && old(trace) <= trace && control == old(control) && bulkCompleted == old(bulkCompleted)
      ensures old(Safe()) ==> Safe()
      ensures Possible(old(Abs()), BulkRead(d)) <==> old(devs[d].curSector) < |old(devs[d].content)|
      ensures Abs() == if Possible(old(Abs()), BulkRead(d)) then Next(old(Abs()), BulkRead(d)) else old(Abs())
      ensures d < |devs| && done == (devs[d].curSector >= |devs[d].content|)
    {
      hide Reaches, ReachesSafely, Book, Next, ChunksOf, Inv, Tracked;
      ReachWellFormed(start, trace, Abs());
      var dev := devs[d];
      var total, cur := |dev.content|, dev.curSector;
      if cur >= total {
        return true;
      }
      cur := cur - cur % CHUNK;
      var nr := CHUNK;
      if total - cur < CHUNK {
        nr := total - cur;
      }
      BulkResult(Abs(), d);
      BookBulk(Abs(), control, d);
      TrackedBulk(start, trace, Abs(), control, d);
      ReachStep(start, trace, Abs(), BulkRead(d));
      inflight := inflight + [Read(d, cur / CHUNK, seq(nr, _ => []), seq(nr, _ => false))];
      submitted := submitted + 1;
      devs := devs[d := dev.(dirty := dev.dirty - ChunksOf(cur, nr), curSector := cur + nr)];
      trace := trace + [BulkRead(d)];
      return devs[d].curSector >= total;
    }

    /** blk_mig_read_cb: the data of a completed read joins the queue. */
    method BlkMigReadCb(i: nat)
      requires Valid() && Possible(Abs(), ReadComplete(i))
      modifies this
      ensures old(Safe()) && Careful(old(Abs()), ReadComplete(i)) ==> Safe()
      ensures Valid() && start == old(start) && old(trace) <= trace && bulkCompleted == old(bulkCompleted)
      ensures Abs() == Next(old(Abs()), ReadComplete(i))
      ensures old(inflight)[i].dev < |old(control)|
      ensures control == SetAio(old(control), old(inflight)[i].dev, {old(inflight)[i].chunk}, false)
      ensures SameControl(old(control), control)
    {
      hide Reaches, ReachesSafely, Book, Inv, AllBulked, Tracked, Next, WellFormed, Careful;
      ReachWellFormed(start, trace, Abs());
      CompleteResult(Abs(), i);
      BookComplete(Abs(), control, i);
      TrackedComplete(start, trace, Abs(), control, i);
      ReachStep(start, trace, Abs(), ReadComplete(i));
      var r := inflight[i];
      SetAioKeeps(control, r.dev, {r.chunk}, false);
      blkList := blkList + [Block(r.dev, r.chunk, r.buf)];
      control := SetAio(control, r.dev, {r.chunk}, false);
      inflight := Remove(inflight, i);
      submitted := submitted - 1;
      readDone := readDone + 1;
      trace := trace + [ReadComplete(i)];
    }

    /** Cursors and bulk flags are the same; only the in-flight marks may differ. */
    static ghost predicate SameControl(a: seq<Control>, b: seq<Control>) {
      && |a| == |b|
      && forall d | 0 <= d < |a| :: b[d].curDirty == a[d].curDirty && b[d].bulkCompleted == a[d].bulkCompleted
    }

    static lemma SetAioKeeps(control: seq<Control>, d: nat, chunks: set<nat>, set': bool)
      requires d < |control|
      ensures SameControl(control, SetAio(control, d, chunks, set'))
      ensures AllBulked(control) ==> AllBulked(SetAio(control, d, chunks, set'))
    {
      var c' := SetAio(control, d, chunks, set');
      if AllBulked(control) {
        forall e | 0 <= e < |c'|
          ensures c'[e].bulkCompleted
        {
          assert control[e].bulkCompleted;
        }
      }
    }

    /** blk_send of the head of the queue. */
    method SendHead()
      requires Valid() && blkList != []
      modifies this
      ensures Valid() && start == old(start) && old(trace) <= trace && control == old(control) && bulkCompleted == old(bulkCompleted)
      ensures old(Safe()) ==> Safe()
      ensures Abs() == Next(old(Abs()), FlushOne) && transferred == old(transferred) + 1
    {
      hide Reaches, ReachesSafely, Book, AllBulked, Tracked;
      ReachWellFormed(start, trace, Abs());
      TrackedOther(start, trace, Abs(), control, FlushOne);
      ReachStep(start, trace, Abs(), FlushOne);
      BookSame(Abs(), Next(Abs(), FlushOne), control);
      var blk := blkList[0];
      sent := sent + [blk];
      dest := Receive(dest, blk);
      blkList := blkList[1..];
      readDone := readDone - 1;
      transferred := transferred + 1;
      trace := trace + [FlushOne];
    }

    /** flush_blks: send queued chunks until the rate limiter stops it. */
    method FlushBlks(budget: nat)
      requires Valid()
      modifies this
      ensures Valid() && start == old(start) && old(trace) <= trace && control == old(control) && bulkCompleted == old(bulkCompleted)
      ensures old(Safe()) ==> Safe()
      ensures devs == old(devs) && writes == old(writes) && inflight == old(inflight)
      ensures (var k := if budget < |old(blkList)| then budget else |old(blkList)|;
               && blkList == old(blkList)[k..]
               && sent == old(sent) + old(blkList)[..k]
               && dest == Replay(old(dest), old(blkList)[..k])
               && transferred == old(transferred) + k)
    {
      hide Valid, Safe, Replay, Receive;
      ghost var queue, target := blkList, dest;
      var k := 0;
      ReplayNothing(dest, queue);
      while blkList != []
        invariant old(Safe()) ==> Safe()
        invariant Valid() && start == old(start) && old(trace) <= trace && control == old(control) && bulkCompleted == old(bulkCompleted)
        invariant devs == old(devs) && writes == old(writes) && inflight == old(inflight)
        invariant 0 <= k <= |queue| && k <= budget && blkList == queue[k..]
        invariant sent == old(sent) + queue[..k] && dest == Replay(target, queue[..k])
        invariant transferred == old(transferred) + k
        decreases |blkList|
      {
        if k == budget {
          break;
        }
        ReplaySnoc(target, queue[..k], queue[k]);
        assert queue[..k + 1] == queue[..k] + [queue[k]];
        SendHead();
        k := k + 1;
      }
    }

    /** Anything the guest or the drivers may do between two calls, other than finishing a read. */
    method Environment(e: Event)
      requires Valid() && Possible(Abs(), e)
      requires e.GuestSubmit? || e.GuestData? || e.GuestComplete? || e.Capture?
      modifies this
      ensures Valid() && start == old(start) && old(trace) <= trace
      ensures old(Safe()) ==> Safe()
      ensures control == old(control) && bulkCompleted == old(bulkCompleted)
      ensures Abs() == Next(old(Abs()), e)
    {
      hide Reaches, ReachesSafely, Book, AllBulked, Inv, Next, Tracked;
      ReachWellFormed(start, trace, Abs());
      TrackedOther(start, trace, Abs(), control, e);
      ReachStep(start, trace, Abs(), e);
      EnvironmentStep(Abs(), control, e);
      var s := Next(Abs(), e);
      devs, writes, inflight := s.devs, s.writes, s.inflight;
      trace := trace + [e];
    }

    /** The oldest read finishes while the migration waits. */
    method CompleteRead()
      requires Valid() && inflight != []
      modifies this
      ensures Valid() && start == old(start) && old(trace) <= trace && bulkCompleted == old(bulkCompleted)
      ensures old(Safe()) ==> Safe()
      ensures Flushed(old(Abs()), Abs()) && writes == old(writes) && |inflight| < |old(inflight)|
      ensures SameControl(old(control), control)
    {
      hide Reaches, ReachesSafely, Book, AllBulked, Inv, Tracked;
      ReachWellFormed(start, trace, Abs());
      assert ReadOk(Abs(), inflight[0]);
      ghost var before := Abs();
      var n := |inflight[0].buf|;
      for k := 0 to n
        invariant old(Safe()) ==> Safe()
        invariant Valid() && start == old(start) && old(trace) <= trace && control == old(control) && bulkCompleted == old(bulkCompleted)
        invariant devs == old(devs) && writes == old(writes) && blkList == old(blkList)
        invariant sent == old(sent) && dest == old(dest)
        invariant |inflight| == |old(inflight)| && ReadOk(Abs(), inflight[0]) && |inflight[0].buf| == n
        invariant forall j | 0 <= j < n :: inflight[0].got[j] <==> j < k || old(inflight)[0].got[j]
      {
        if !inflight[0].got[k] {
          Environment(Capture(0, k));
        }
      }
      InOrderIsCareful(Abs(), 0);
      BlkMigReadCb(0);
    }

    /** qemu_aio_flush: wait until no request is in progress. What happens meanwhile is up to the
        drivers and the guest's outstanding writes; callers rely on `Flushed` only. */
    method AioFlush()
      requires Valid()
      modifies this
      ensures Valid() && start == old(start) && old(trace) <= trace && bulkCompleted == old(bulkCompleted)
      ensures old(Safe()) ==> Safe()
      ensures Flushed(old(Abs()), Abs()) && inflight == [] && writes == []
      ensures SameControl(old(control), control)
    {
      hide Reaches, ReachesSafely, Book, AllBulked, Tracked;
      while writes != []
        invariant old(Safe()) ==> Safe()
        invariant Valid() && start == old(start) && old(trace) <= trace && control == old(control) && bulkCompleted == old(bulkCompleted)
        invariant Flushed(old(Abs()), Abs())
        decreases |writes|
      {
        ReachWellFormed(start, trace, Abs());
        FlushedWrite(Abs());
        Environment(GuestComplete(0));
      }
      while inflight != []
        invariant old(Safe()) ==> Safe()
        invariant Valid() && start == old(start) && old(trace) <= trace && bulkCompleted == old(bulkCompleted)
        invariant Flushed(old(Abs()), Abs()) && writes == []
        invariant SameControl(old(control), control)
        decreases |inflight|
      {
        CompleteRead();
      }
    }

    /** The asynchronous branch of mig_save_device_dirty: the chunk is read and marked in flight. */
    method IssueDirtyRead(d: nat, c: nat)
      requires Valid() && Possible(Abs(), DirtyRead(d, c)) && |control| == |devs| && c !in control[d].aio
      modifies this
      ensures Valid() && start == old(start) && old(trace) <= trace && bulkCompleted == old(bulkCompleted)
      ensures old(Safe()) ==> Safe()
      ensures Abs() == Next(old(Abs()), DirtyRead(d, c))
      ensures control == SetAio(old(control), d, {c}, true) && SameControl(old(control), control)
    {
      hide Reaches, ReachesSafely, Book, Inv, AllBulked, Next, ChunksOf, Tracked;
      ReachWellFormed(start, trace, Abs());
      TrackedDirty(start, trace, Abs(), control, d, c);
      DirtyResult(Abs(), d, c);
      BookDirty(Abs(), control, d, c);
      ReachStep(start, trace, Abs(), DirtyRead(d, c));
      BookSize(Abs(), control);
      SetAioKeeps(control, d, {c}, true);
      var sector, total := c * CHUNK, |devs[d].content|;
      var nr := CHUNK;
      if total - sector < CHUNK {
        nr := total - sector;
      }
      inflight := inflight + [Read(d, c, seq(nr, _ => []), seq(nr, _ => false))];
      submitted := submitted + 1;
      control := SetAio(control, d, ChunksOf(sector, nr), true);
      devs := devs[d := devs[d].(dirty := devs[d].dirty - ChunksOf(sector, nr))];
      trace := trace + [DirtyRead(d, c)];
    }

    /** The synchronous branch of mig_save_device_dirty. */
    method SendDirtyChunk(d: nat, c: nat)
      requires Valid() && Possible(Abs(), SyncSend(d, c))
      modifies this
      ensures Valid() && start == old(start) && old(trace) <= trace && bulkCompleted == old(bulkCompleted) && control == old(control)
      ensures old(Safe()) && !Queued(old(blkList), d, c) ==> Safe()
      ensures Abs() == Next(old(Abs()), SyncSend(d, c))
    {
      hide Reaches, ReachesSafely, Book, AllBulked, Next, ChunksOf, Tracked;
      ReachWellFormed(start, trace, Abs());
      TrackedOther(start, trace, Abs(), control, SyncSend(d, c));
      SyncResult(Abs(), d, c);
      SyncShape(Abs(), control, d, c);
      ReachStep(start, trace, Abs(), SyncSend(d, c));
      var sector, total := c * CHUNK, |devs[d].content|;
      var nr := CHUNK;
      if total - sector < CHUNK {
        nr := total - sector;
      }
      var blk := Block(d, c, devs[d].content[sector..sector + nr]);
      sent := sent + [blk];
      dest := Receive(dest, blk);
      devs := devs[d := devs[d].(dirty := devs[d].dirty - ChunksOf(sector, nr))];
      trace := trace + [SyncSend(d, c)];
    }

    /** Only the cursor of device `d` moved. */
    static ghost predicate CursorMoved(a: seq<Control>, b: seq<Control>, d: nat)
      requires d < |a|
    {
      && |a| == |b| && a[d].curDirty <= b[d].curDirty
      && (forall e | 0 <= e < |a| :: b[e].bulkCompleted == a[e].bulkCompleted)
      && (forall e | 0 <= e < |a| && e != d :: b[e].curDirty == a[e].curDirty)
    }

    /** mig_save_device_dirty: look for the next dirty chunk of one device and transfer it. In the
        synchronous mode the guest is stopped and nothing is pending. */
    method MigSaveDeviceDirty(d: nat, isAsync: bool) returns (done: bool)
      requires Valid() && d < |devs|
      requires !isAsync ==> inflight == [] && writes == []
      modifies this
      ensures old(Safe()) && (isAsync || old(blkList) == []) ==> Safe()
      ensures Valid() && start == old(start) && old(trace) <= trace && bulkCompleted == old(bulkCompleted)
      ensures |old(control)| == |control| == |devs| == |old(devs)| && CursorMoved(old(control), control, d)
      ensures done == (control[d].curDirty >= |devs[d].content|)
      ensures isAsync ==>
                && SameShape(old(Abs()), Abs()) && sent == old(sent) && dest == old(dest)
                && |inflight| + |blkList| == |old(inflight)| + |old(blkList)| + (if done then 0 else 1)
      ensures isAsync && !done ==>
                (var c := control[d].curDirty / CHUNK;
                 && inflight != [] && OfChunk(inflight[|inflight| - 1], d, c) && c in control[d].aio
                 && (c in old(control[d].aio) ==> |inflight| == 1 && writes == []))
      ensures !isAsync && done ==> Abs() == old(Abs())
      ensures !isAsync && !done ==>
                && Possible(old(Abs()), SyncSend(d, control[d].curDirty / CHUNK))
                && Abs() == Next(old(Abs()), SyncSend(d, control[d].curDirty / CHUNK))
      ensures !isAsync ==> NonePassed(old(devs[d].dirty), old(control[d].curDirty), control[d].curDirty)
    {
      hide Valid, Safe, Next, SameShape, NonePassed, SetAio, SameControl, CursorMoved, Flushed;
      Shape();
      var total := |devs[d].content|;
      var sector := control[d].curDirty;
      Aligned(d);
      SameShapeSelf(Abs());
      NonePassedYet(devs[d].dirty, sector);
      NotMoved(control, d);
      while sector < total
        invariant old(Safe()) ==> Safe()
        invariant Valid() && start == old(start) && old(trace) <= trace && bulkCompleted == old(bulkCompleted)
        invariant |old(control)| == |control| == |devs| == |old(devs)| && CursorMoved(old(control), control, d)
        invariant sector == control[d].curDirty && sector % CHUNK == 0 && |devs[d].content| == total
        invariant isAsync ==>
                    && SameShape(old(Abs()), Abs()) && sent == old(sent) && dest == old(dest)
                    && |inflight| + |blkList| == |old(inflight)| + |old(blkList)|
        invariant (inflight == [] && writes == []) || control[d].aio == old(control[d].aio)
        invariant !isAsync ==> Abs() == old(Abs())
        invariant !isAsync ==> NonePassed(old(devs[d].dirty), old(control[d].curDirty), sector)
        decreases total - sector
      {
        var c := sector / CHUNK;
        ghost var s, marks := Abs(), control;
        AwaitChunk(d, c);
        MovedSame(old(control), marks, control, d);
        WaitedShape(old(Abs()), s, Abs(), d);
        if c in devs[d].dirty {
          ghost var before, held := Abs(), control;
          if isAsync {
            IssueDirtyRead(d, c);
            IssuedShape(old(Abs()), before, d, c);
            MarkSet(held, d, c);
          } else {
            SendDirtyChunk(d, c);
            SentShape(old(Abs()), d, c);
          }
          MovedSame(old(control), held, control, d);
          break;
        }
        NonePassedOn(old(devs[d].dirty), old(control[d].curDirty), sector, devs[d].dirty);
        sector := sector + CHUNK;
        MovedOn(old(control), control, d, sector);
        MoveCursor(d, sector);
      }
      done := control[d].curDirty >= total;
    }

    /** Wait for all requests if a read of the chunk is marked in flight. */
    method AwaitChunk(d: nat, c: nat)
      requires Valid() && d < |control|
      modifies this
      ensures Valid() && start == old(start) && old(trace) <= trace && bulkCompleted == old(bulkCompleted)
      ensures old(Safe()) ==> Safe()
      ensures SameControl(old(control), control) && |control| == |old(control)| && c !in control[d].aio
      ensures if c in old(control[d].aio) then Flushed(old(Abs()), Abs()) && inflight == [] && writes == []
              else Abs() == old(Abs()) && control == old(control)
      ensures old(inflight) == [] ==> Abs() == old(Abs()) && control == old(control)
    {
      hide Valid, Safe, Flushed, SameControl;
      SameControlSelf(control);
      if inflight == [] {
        Idle(d);
      }
      if c in control[d].aio {
        AioFlush();
        SameSize(old(control), control);
        Idle(d);
      }
    }

    static lemma SameControlSelf(a: seq<Control>)
      ensures SameControl(a, a)
    {
    }

    static lemma SameSize(a: seq<Control>, b: seq<Control>)
      requires SameControl(a, b)
      ensures |a| == |b|
    {
    }

    static lemma NotMoved(a: seq<Control>, d: nat)
      requires d < |a|
      ensures CursorMoved(a, a, d)
    {
    }

    static lemma MovedSame(a: seq<Control>, b: seq<Control>, b': seq<Control>, d: nat)
      requires d < |a| && CursorMoved(a, b, d) && (SameControl(b, b') || b' == b)
      ensures CursorMoved(a, b', d) && |b'| == |a| && b'[d].curDirty == b[d].curDirty
    {
    }

    static lemma MovedOn(a: seq<Control>, b: seq<Control>, d: nat, cur: nat)
      requires d < |a| && CursorMoved(a, b, d) && d < |b| && b[d].curDirty <= cur
      ensures CursorMoved(a, SetCursor(b, d, cur), d)
      ensures SetCursor(b, d, cur)[d].aio == b[d].aio && SetCursor(b, d, cur)[d].curDirty == cur
    {
    }

    static lemma MarkSet(a: seq<Control>, d: nat, c: nat)
      requires d < |a|
      ensures c in SetAio(a, d, {c}, true)[d].aio
    {
    }

    lemma Shape()
      requires Valid()
      ensures |control| == |devs|
    {
    }

    lemma Aligned(d: nat)
      requires Valid() && d < |control|
      ensures control[d].curDirty % CHUNK == 0
    {
      BookCursorAligned(Abs(), control, d);
    }

    lemma Idle(d: nat)
      requires Valid() && inflight == [] && d < |control|
      ensures control[d].aio == {}
    {
      BookIdle(Abs(), control, d);
    }

    /** The dirty cursor of a device moves. */
    method MoveCursor(d: nat, sector: nat)
      requires Valid() && d < |control| && sector % CHUNK == 0
      modifies this`control
      ensures Valid() && control == SetCursor(old(control), d, sector)
      ensures old(Safe()) ==> Safe()
    {
      hide Reaches, ReachesSafely, Book, AllBulked, Tracked;
      BookCursor(Abs(), control, d, sector);
      TrackedSame(start, trace, Abs(), control, SetCursor(control, d, sector));
      BulkedCursor(control, d, sector);
      control := SetCursor(control, d, sector);
    }

    static lemma BulkedCursor(control: seq<Control>, d: nat, cur: nat)
      requires d < |control|
      ensures AllBulked(control) ==> AllBulked(SetCursor(control, d, cur))
    {
      if AllBulked(control) {
        assert forall e | 0 <= e < |control| :: SetCursor(control, d, cur)[e].bulkCompleted == control[e].bulkCompleted;
      }
    }

    /** blk_mig_save_bulked_block: one more chunk of the first device that is not done. */
    method BlkMigSaveBulkedBlock() returns (ret: bool)
      requires Valid() && !bulkCompleted
      modifies this
      ensures Valid() && start == old(start) && old(trace) <= trace && bulkCompleted == old(bulkCompleted)
      ensures old(Safe()) ==> Safe()
      ensures !ret ==> AllBulked(control) && Abs() == old(Abs()) && control == old(control)
      ensures ret ==>
                || |inflight| + |blkList| == |old(inflight)| + |old(blkList)| + 1
                || (Abs() == old(Abs()) && Unbulked(control) < Unbulked(old(control)))
    {
      hide Reaches, ReachesSafely, Book, Unbulked, Tracked;
      BookSize(Abs(), control);
      ret := false;
      for d := 0 to |devs|
        invariant old(Safe()) ==> Safe()
        invariant Valid() && start == old(start) && old(trace) <= trace && bulkCompleted == old(bulkCompleted)
        invariant Abs() == old(Abs()) && control == old(control) && |control| == |devs|
        invariant forall e | 0 <= e < d :: control[e].bulkCompleted
      {
        if !control[d].bulkCompleted {
          var done := MigSaveDeviceBulk(d);
          if done {
            UnbulkedUpdate(control, d);
            BookBulked(Abs(), control, d);
            TrackedSame(start, trace, Abs(), control, control[d := control[d].(bulkCompleted := true)]);
            control := control[d := control[d].(bulkCompleted := true)];
          }
          return true;
        }
      }
    }

    /** blk_mig_save_dirty_block */
    method BlkMigSaveDirtyBlock(isAsync: bool) returns (ret: bool)
      requires Valid()
      requires !isAsync ==> inflight == [] && writes == [] && BelowClean(devs, control)
      modifies this
      ensures old(Safe()) && (isAsync || old(blkList) == []) ==> Safe()
      ensures Valid() && start == old(start) && old(trace) <= trace && bulkCompleted == old(bulkCompleted)
      ensures isAsync ==>
                && sent == old(sent) && dest == old(dest)
                && |inflight| + |blkList| == |old(inflight)| + |old(blkList)| + (if ret then 1 else 0)
      ensures isAsync && !ret ==> SearchEnded(devs, control)
      ensures !isAsync ==> BelowClean(devs, control)
      ensures !isAsync && ret ==> IsSyncSend(old(Abs()), Abs())
      ensures !isAsync && !ret ==> Abs() == old(Abs()) && forall d | 0 <= d < |devs| :: devs[d].dirty == {}
    {
      hide Reaches, ReachesSafely, Book, AllBulked, Tracked, SameShape, CursorMoved;
      BookSize(Abs(), control);
      ret := false;
      for d := 0 to |devs|
        invariant old(Safe()) && (isAsync || old(blkList) == []) ==> Safe()
        invariant Valid() && start == old(start) && old(trace) <= trace && bulkCompleted == old(bulkCompleted)
        invariant |control| == |devs| == |old(devs)|
        invariant isAsync ==>
                    && sent == old(sent) && dest == old(dest)
                    && |inflight| + |blkList| == |old(inflight)| + |old(blkList)|
        invariant isAsync ==> forall e | 0 <= e < d :: control[e].curDirty >= |devs[e].content|
        invariant !isAsync ==> Abs() == old(Abs()) && BelowClean(devs, control)
        invariant !isAsync ==> forall e | 0 <= e < d :: devs[e].dirty == {}
      {
        ghost var before, control0 := Abs(), control;
        ReachWellFormed(start, trace, Abs());
        var done := MigSaveDeviceDirty(d, isAsync);
        if isAsync {
          EndedKeeps(before, control0, Abs(), control, d);
        } else {
          CursorsKeepClean(before, control0, Abs(), control, d, done);
        }
        if !done {
          return true;
        }
      }
    }

    /** blk_mig_reset_dirty_cursor */
    method BlkMigResetDirtyCursor()
      requires Valid()
      modifies this`control
      ensures Valid() && BelowClean(devs, control)
      ensures old(Safe()) ==> Safe()
    {
      hide Reaches, ReachesSafely, AllBulked, Tracked;
      var d := 0;
      ghost var before := control;
      while d < |control|
        invariant 0 <= d <= |control| == |before| && Valid()
        invariant forall e | 0 <= e < d :: control[e].curDirty == 0
      {
        BookCursor(Abs(), control, d, 0);
        TrackedSame(start, trace, Abs(), control, SetCursor(control, d, 0));
        BulkedCursor(control, d, 0);
        control := SetCursor(control, d, 0);
        d := d + 1;
      }
    }

    /** block_save_live, stage 2: send what is queued, then issue reads up to the rate limit. The
        result says whether the caller may go on to the last stage; `soonEnough` stands for the
        comparison of the expected downtime with the allowed one. In `filled`, before the last flush,
        there are enough reads for the rate limit, or no more to be had: the bulk phase is over and the
        dirty search has come to the end of every disk. */
    method BlockSaveLiveIterate(limit: nat, budget: nat, budget2: nat, soonEnough: bool)
      returns (complete: bool, ghost filled: State)
      requires Valid()
      modifies this
      ensures Valid() && start == old(start) && old(trace) <= trace
      ensures old(Safe()) ==> Safe()
      ensures old(sent) + old(blkList)[..Passed(old(blkList), budget)] <= sent && dest == Replay(start.dest, sent)
      ensures || (|filled.inflight| + |filled.queue|) * BLOCK_SIZE >= limit
              || (bulkCompleted && SearchEnded(filled.devs, control))
      ensures SentOff(filled, budget2, Abs())
      ensures complete ==> bulkCompleted
      ensures bulkCompleted && DirtyTotal(devs) == 0 ==> complete
    {
      hide Reaches, ReachesSafely, Book, DirtyTotal, BelowClean, Unbulked, Replay, Tracked, SearchEnded, AllBulked;
      FlushBlks(budget);
      ghost var flushed, mark := Abs(), trace;
      BlkMigResetDirtyCursor();
      while (submitted + readDone) * BLOCK_SIZE < limit
        invariant old(Safe()) ==> Safe()
        invariant Valid() && start == old(start) && old(trace) <= mark <= trace
        decreases limit - (submitted + readDone) * BLOCK_SIZE, Unbulked(control), if bulkCompleted then 0 else 1
      {
        if !bulkCompleted {
          var more := BlkMigSaveBulkedBlock();
          if !more {
            bulkCompleted := true;
          }
        } else {
          var more := BlkMigSaveDirtyBlock(true);
          if !more {
            break;
          }
        }
      }
      filled := Abs();
      FlushBlks(budget2);
      ReachGrows(start, mark, flushed, trace, Abs());
      ReachReplay(start, trace, Abs());
      complete := bulkCompleted && (DirtyTotal(devs) * BLOCK_SIZE == 0 || soonEnough);
    }

    /** blk_mig_cleanup: what is left of the queue is thrown away. */
    method BlkMigCleanup()
      requires Valid() && inflight == [] && writes == []
      modifies this`blkList, this`readDone, this`trace
      ensures Valid() && blkList == []
      ensures old(Safe()) && old(blkList) == [] ==> Safe()
    {
      hide Reaches, ReachesSafely, Book, AllBulked, Tracked;
      ReachWellFormed(start, trace, Abs());
      TrackedOther(start, trace, Abs(), control, Cleanup);
      ReachStep(start, trace, Abs(), Cleanup);
      BookSame(Abs(), Next(Abs(), Cleanup), control);
      blkList, readDone := [], 0;
      trace := trace + [Cleanup];
    }

    /**
     * block_save_live, stage 3: the guest is stopped, no request is in progress and the bulk phase is
     * done. The loop ends with every chunk clean: the chunks that were dirty are what the source holds,
     * the others what the rate limiter let through. With all of the queue let through the destination
     * is the source; otherwise a sector is right exactly under the condition of `LeftOver`.
     */
    method BlockSaveLiveComplete(budget: nat)
      requires Valid() && bulkCompleted && inflight == [] && writes == []
      modifies this
      ensures Valid() && start == old(start) && dest == Replay(start.dest, sent)
      ensures |devs| == |old(devs)| && forall d | 0 <= d < |devs| :: devs[d].content == old(devs[d].content)
      ensures inflight == [] && writes == [] && blkList == [] && forall d | 0 <= d < |devs| :: devs[d].dirty == {}
      ensures Ends(old(Abs()), Passed(old(blkList), budget), Abs())
      ensures old(Safe()) && |old(blkList)| <= budget ==> Safe() && Drained(Abs()) && Equal(Abs())
      ensures old(Safe()) ==> Loses(old(Abs()), Passed(old(blkList), budget), Abs())
    {
      hide Reaches, ReachesSafely, DirtyTotal, BelowClean, Replay, Inv, Tracked, Next, Ends, Loses, WellFormed, LastOf;
      ReachWellFormed(start, trace, Abs());
      ghost var entry, k := Abs(), Passed(blkList, budget);
      FlushBlks(budget);
      ghost var flushed := Abs();
      ReachWellFormed(start, trace, flushed);
      BlkMigResetDirtyCursor();
      BulkDone(Abs(), control);
      NothingSent(flushed);
      var more := true;
      while more
        invariant Valid() && start == old(start) && bulkCompleted
        invariant old(Safe()) && |old(blkList)| <= budget ==> Safe()
        invariant inflight == [] && writes == [] && blkList == flushed.queue && BelowClean(devs, control)
        invariant |devs| == |old(devs)| && Sends(flushed, Abs())
        invariant forall d | 0 <= d < |devs| ::
                    devs[d].content == old(devs[d].content) && devs[d].curSector >= |devs[d].content|
        invariant !more ==> forall d | 0 <= d < |devs| :: devs[d].dirty == {}
        decreases more, DirtyTotal(devs)
      {
        ghost var before := Abs();
        ReachWellFormed(start, trace, before);
        more := BlkMigSaveDirtyBlock(false);
        if more {
          SyncEffect(before, Abs());
          SendsOn(flushed, before, Abs());
        }
      }
      ReachWellFormed(start, trace, Abs());
      SendsAll(entry, k, flushed, Abs());
      ghost var done := Abs();
      BlkMigCleanup();
      EndsSame(entry, k, done, Abs());
      ReachReplay(start, trace, Abs());
      if old(Safe()) {
        ReachInv(start, old(trace), entry);
        LosesExactly(entry, k, Abs());
        if |old(blkList)| <= budget {
          ReachInv(start, trace, Abs());
          DrainedMeansEqual(Abs());
        }
      }
    }
  }

  /** The result of completing a read, spelled out as the code computes it. */
  lemma CompleteResult(s: State, i: nat)
    requires Possible(s, ReadComplete(i))
    ensures (var r := s.inflight[i];
             Next(s, ReadComplete(i)) ==
             s.(inflight := Remove(s.inflight, i), queue := s.queue + [Block(r.dev, r.chunk, r.buf)]))
  {
  }

  /** Waiting for the drivers leaves sizes, sent chunks and the number of chunks on their way as they were. */
  lemma WaitedShape(s0: State, s: State, s': State, d: nat)
    requires SameShape(s0, s) && (Flushed(s, s') || s' == s) && d < |s.devs|
    ensures SameShape(s0, s') && |s'.devs| == |s.devs| && |s'.devs[d].content| == |s.devs[d].content|
    ensures s'.sent == s.sent && s'.dest == s.dest && |s'.inflight| + |s'.queue| == |s.inflight| + |s.queue|
  {
  }

  lemma IssuedShape(s0: State, s: State, d: nat, c: nat)
    requires SameShape(s0, s) && Possible(s, DirtyRead(d, c))
    ensures (var s' := Next(s, DirtyRead(d, c));
             && SameShape(s0, s') && |s'.devs| == |s.devs| && |s'.devs[d].content| == |s.devs[d].content|
             && |s'.inflight| == |s.inflight| + 1 && OfChunk(s'.inflight[|s.inflight|], d, c) && s'.writes == s.writes
             && s'.queue == s.queue && s'.sent == s.sent && s'.dest == s.dest)
  {
  }

  lemma SentShape(s: State, d: nat, c: nat)
    requires Possible(s, SyncSend(d, c))
    ensures (var s' := Next(s, SyncSend(d, c));
             |s'.devs| == |s.devs| && s'.devs[d].content == s.devs[d].content)
  {
  }

  // ---- the last phase ----

  /** Of the chunks dirty in `a`, those clean in `b` have been sent; nothing else has changed. */
  ghost predicate Sends(a: State, b: State) {
    && |b.devs| == |a.devs| == |a.dest| == |b.dest|
    && (forall d | 0 <= d < |a.devs| ::
          && b.devs[d].content == a.devs[d].content && b.devs[d].dirty <= a.devs[d].dirty
          && |b.dest[d]| == |a.dest[d]| == |a.devs[d].content|)
    && forall d, x | 0 <= d < |a.devs| && 0 <= x < |a.devs[d].content| :: SentOrSame(a, b, d, x)
  }

  ghost predicate SentOrSame(a: State, b: State, d: nat, x: nat)
    requires d < |a.devs| == |b.devs| == |a.dest| == |b.dest|
    requires x < |a.devs[d].content| == |a.dest[d]| == |b.dest[d]|
  {
    b.dest[d][x] ==
    if x / CHUNK in a.devs[d].dirty && x / CHUNK !in b.devs[d].dirty then a.devs[d].content[x] else a.dest[d][x]
  }

  lemma NothingSent(s: State)
    requires WellFormed(s)
    ensures Sends(s, s)
  {
  }

  lemma SendsOn(a: State, s: State, s': State)
    requires Sends(a, s) && WellFormed(s) && IsSyncSend(s, s')
    ensures Sends(a, s')
  {
    var d: nat, c: nat :| Possible(s, SyncSend(d, c)) && s' == Next(s, SyncSend(d, c));
    forall d', x | 0 <= d' < |a.devs| && 0 <= x < |a.devs[d'].content|
      ensures |s'.dest| == |a.devs| && |s'.dest[d']| == |a.devs[d'].content| && SentOrSame(a, s', d', x)
    {
      assert SentOrSame(a, s, d', x);
      SentAt(s, d, c, d', x);
    }
    forall d' | 0 <= d' < |a.devs| ensures |s'.dest[d']| == |a.devs[d'].content| {
    }
  }

  /** What the destination holds at the end of the last phase. */
  ghost predicate Ends(entry: State, k: nat, e: State) {
    && k <= |entry.queue| && |e.devs| == |entry.devs| == |entry.dest| == |e.dest|
    && forall d, x | 0 <= d < |entry.devs| && 0 <= x < |entry.devs[d].content| :: EndsAt(entry, k, e, d, x)
  }

  ghost predicate EndsAt(entry: State, k: nat, e: State, d: nat, x: nat)
    requires k <= |entry.queue| && d < |entry.devs| == |entry.dest| == |e.dest| && x < |entry.devs[d].content|
  {
    && |e.dest[d]| == |entry.dest[d]| == |entry.devs[d].content|
    && e.dest[d][x] == if x / CHUNK in entry.devs[d].dirty then entry.devs[d].content[x]
                       else Replay(entry.dest, entry.queue[..k])[d][x]
  }

  lemma SendsAll(entry: State, k: nat, flushed: State, e: State)
    requires WellFormed(entry) && k <= |entry.queue| && flushed.devs == entry.devs
    requires flushed.dest == Replay(entry.dest, entry.queue[..k])
    requires Sends(flushed, e) && forall d | 0 <= d < |e.devs| :: e.devs[d].dirty == {}
    ensures Ends(entry, k, e)
  {
    hide Replay;
    forall d, x | 0 <= d < |entry.devs| && 0 <= x < |entry.devs[d].content| ensures EndsAt(entry, k, e, d, x) {
      assert SentOrSame(flushed, e, d, x);
    }
  }

  lemma EndsSame(entry: State, k: nat, e: State, e': State)
    requires Ends(entry, k, e) && e'.devs == e.devs && e'.dest == e.dest
    ensures Ends(entry, k, e')
  {
    hide Replay;
    forall d, x | 0 <= d < |entry.devs| && 0 <= x < |entry.devs[d].content| ensures EndsAt(entry, k, e', d, x) {
      assert EndsAt(entry, k, e, d, x);
    }
  }

  /** Sector `x` comes out right: its chunk is dirty, or no block of it is left over, or the last one
      left over holds what the destination has already. */
  ghost predicate Right(entry: State, k: nat, d: nat, x: nat)
    requires k <= |entry.queue| && d < |entry.dest| && x < |entry.dest[d]| && d < |entry.devs|
  {
    var left := entry.queue[k..];
    var i := LastOf(left, d, x / CHUNK);
    || x / CHUNK in entry.devs[d].dirty || i < 0
    || (x % CHUNK < |left[i].data| && left[i].data[x % CHUNK] == Replay(entry.dest, entry.queue[..k])[d][x])
  }

  ghost predicate Loses(entry: State, k: nat, e: State) {
    && k <= |entry.queue| && |entry.devs| == |entry.dest| == |e.dest|
    && forall d, x | 0 <= d < |entry.devs| && 0 <= x < |entry.devs[d].content| :: LosesAt(entry, k, e, d, x)
  }

  ghost predicate LosesAt(entry: State, k: nat, e: State, d: nat, x: nat)
    requires k <= |entry.queue| && d < |entry.devs| == |entry.dest| == |e.dest| && x < |entry.devs[d].content|
  {
    && |e.dest[d]| == |entry.dest[d]| == |entry.devs[d].content|
    && (e.dest[d][x] == entry.devs[d].content[x] <==> Right(entry, k, d, x))
  }

  lemma LosesExactly(entry: State, k: nat, e: State)
    requires Inv(entry) && entry.inflight == [] && entry.writes == [] && Ends(entry, k, e)
    requires forall d | 0 <= d < |entry.devs| :: entry.devs[d].curSector >= |entry.devs[d].content|
    ensures Loses(entry, k, e)
  {
    hide Replay, LastOf, Inv;
    forall d, x | 0 <= d < |entry.devs| && 0 <= x < |entry.devs[d].content| ensures LosesAt(entry, k, e, d, x) {
      assert EndsAt(entry, k, e, d, x);
      LeftOver(entry, k, d, x);
    }
  }

  /** How many blocks of the queue the rate limiter lets through. */
  function Passed(queue: seq<Block>, budget: nat): nat {
    if budget < |queue| then budget else |queue|
  }

  /** `BDRV_SECTORS_PER_DIRTY_CHUNK << BDRV_SECTOR_BITS` */
  const BLOCK_SIZE: nat := CHUNK * SECTOR_SIZE

  lemma BulkDone(s: State, control: seq<Control>)
    requires Book(s, control) && BlkMig.AllBulked(control)
    ensures forall d | 0 <= d < |s.devs| :: s.devs[d].curSector >= |s.devs[d].content|
  {
    forall d | 0 <= d < |s.devs|
      ensures s.devs[d].curSector >= |s.devs[d].content|
    {
      assert ControlOk(s, control, d);
    }
  }

  lemma SyncEffect(s: State, s': State)
    requires IsSyncSend(s, s')
    ensures DirtyTotal(s'.devs) < DirtyTotal(s.devs) && |s'.devs| == |s.devs|
    ensures s'.inflight == s.inflight && s'.writes == s.writes && s'.queue == s.queue
    ensures forall d | 0 <= d < |s.devs| ::
              s'.devs[d].content == s.devs[d].content && s'.devs[d].curSector == s.devs[d].curSector
  {
    var d: nat, c: nat :| Possible(s, SyncSend(d, c)) && s' == Next(s, SyncSend(d, c));
    SyncDecreases(s, d, c);
  }

  /** What has been sent stays sent. */
  lemma {:induction false} ReachGrows(start: State, t: seq<Event>, s: State, t': seq<Event>, s': State)
    requires Reaches(start, t, s) && Reaches(start, t', s') && t <= t'
    ensures s.sent <= s'.sent
  {
    hide Possible, Next;
    RunSplit(start, t, t');
    RunGrows(s, t'[|t|..]);
  }

  lemma {:induction false} RunSplit(start: State, t: seq<Event>, t': seq<Event>)
    requires IsRun(start, t) && IsRun(start, t') && t <= t'
    ensures IsRun(RunEnd(start, t), t'[|t|..]) && RunEnd(RunEnd(start, t), t'[|t|..]) == RunEnd(start, t')
    decreases |t|
  {
    hide Possible, Next;
    if t == [] {
      assert t'[0..] == t';
    } else {
      assert t'[1..][|t| - 1..] == t'[|t|..];
      RunSplit(Next(start, t[0]), t[1..], t'[1..]);
    }
  }

  lemma {:induction false} RunGrows(s: State, es: seq<Event>)
    requires IsRun(s, es)
    ensures s.sent <= RunEnd(s, es).sent
    decreases |es|
  {
    hide Possible;
    if es != [] {
      RunGrows(Next(s, es[0]), es[1..]);
    }
  }

  lemma ReachReplay(start: State, trace: seq<Event>, s: State)
    requires Reaches(start, trace, s)
    ensures s.dest == Replay(start.dest, s.sent)
  {
    SentIsReplayed(start, trace, start.dest);
  }

  /** The dirty search of every device has come to the end of the disk. */
  ghost predicate SearchEnded(devs: seq<Device>, control: seq<Control>) {
    |devs| == |control| && forall d | 0 <= d < |devs| :: control[d].curDirty >= |devs[d].content|
  }

  lemma EndedKeeps(s: State, control: seq<Control>, s': State, control': seq<Control>, d: nat)
    requires d < |s.devs| == |control| == |control'| && SameShape(s, s') && BlkMig.CursorMoved(control, control', d)
    requires forall e | 0 <= e < d :: control[e].curDirty >= |s.devs[e].content|
    ensures |s'.devs| == |s.devs| && forall e | 0 <= e < d :: control'[e].curDirty >= |s'.devs[e].content|
  {
  }

  /** Up to `budget` chunks of the queue are sent; nothing else changes. */
  ghost predicate SentOff(s: State, budget: nat, s': State) {
    var k := Passed(s.queue, budget);
    s' == s.(queue := s.queue[k..], sent := s.sent + s.queue[..k], dest := Replay(s.dest, s.queue[..k]))
  }

  /** A device whose search ended is clean; otherwise the chunk at the cursor was sent. */
  lemma CursorsKeepClean(s: State, control: seq<Control>, s': State, control': seq<Control>, d: nat, done: bool)
    requires WellFormed(s) && BelowClean(s.devs, control) && d < |s.devs| && |control'| == |control|
    requires BlkMig.CursorMoved(control, control', d)
    requires done ==> s' == s && control'[d].curDirty >= |s.devs[d].content|
    requires !done ==> (var c := control'[d].curDirty / CHUNK; Possible(s, SyncSend(d, c)) && s' == Next(s, SyncSend(d, c)))
    requires NonePassed(s.devs[d].dirty, control[d].curDirty, control'[d].curDirty)
    ensures BelowClean(s'.devs, control')
    ensures done ==> s.devs[d].dirty == {}
    ensures !done ==> IsSyncSend(s, s')
  {
    assert DeviceOk(s.devs[d]);
  }

  lemma FlushedWrite(s: State)
    requires s.writes != [] && WellFormed(s)
    ensures Flushed(s, Next(s, GuestComplete(0))) && |Next(s, GuestComplete(0)).writes| < |s.writes|
    ensures Next(s, GuestComplete(0)).inflight == s.inflight
  {
    assert WriteOk(s, s.writes[0]);
    StepShape(s, GuestComplete(0));
  }

  lemma EnvironmentStep(s: State, control: seq<Control>, e: Event)
    requires WellFormed(s) && Book(s, control) && Possible(s, e)
    requires e.GuestSubmit? || e.GuestData? || e.GuestComplete? || e.Capture?
    ensures (var s' := Next(s, e);
             && Book(s', control) && s'.queue == s.queue && s'.sent == s.sent && s'.dest == s.dest
             && |s'.inflight| == |s.inflight|)
  {
    StepShape(s, e);
    if e.Capture? {
      BookCapture(s, control, e.i, e.k);
    } else {
      BookSame(s, Next(s, e), control);
    }
  }

  lemma BookSize(s: State, control: seq<Control>)
    requires Book(s, control)
    ensures |control| == |s.devs|
  {
  }

  lemma SyncShape(s: State, control: seq<Control>, d: nat, c: nat)
    requires Book(s, control) && Possible(s, SyncSend(d, c))
    ensures Book(Next(s, SyncSend(d, c)), control)
  {
    BookSame(s, Next(s, SyncSend(d, c)), control);
  }
}
