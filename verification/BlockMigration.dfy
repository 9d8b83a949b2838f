/** Live block migration as a step machine: guest writes, asynchronous reads and the migration's
    own actions interleave freely, and the destination ends up equal to the source. */
module BlockMigration {
  import opened QemuFile
  import opened Sectors

  type Sector = seq<Byte>

  // ---- state ----

  /** One migrated device: its disk, its dirty chunks and the bulk cursor. */
  datatype Device = Device(content: seq<Sector>, dirty: set<nat>, curSector: nat)

  /** A guest write that the driver has accepted. Its data reaches the disk sector by sector, and
      only its completion marks the chunks dirty (bdrv_co_do_writev). */
  datatype Write = Write(dev: nat, sector: nat, count: nat)

  /** An asynchronous read of one chunk: `got[k]` says whether sector `k` has been captured. */
  datatype Read = Read(dev: nat, chunk: nat, buf: seq<Sector>, got: seq<bool>)

  /** A chunk that is ready to be sent or has been sent. */
  datatype Block = Block(dev: nat, chunk: nat, data: seq<Sector>)

  datatype State = State(
    devs: seq<Device>,
    writes: seq<Write>,
    inflight: seq<Read>,
    queue: seq<Block>,
    sent: seq<Block>,
    dest: seq<seq<Sector>>)

  /** The sectors of chunk `c` on a disk of `total` sectors. */
  function ChunkLength(total: nat, c: nat): nat {
    if total <= c * CHUNK then 0 else if total - c * CHUNK < CHUNK then total - c * CHUNK else CHUNK
  }

  function ChunkData(content: seq<Sector>, c: nat): (data: seq<Sector>)
    ensures |data| == ChunkLength(|content|, c)
  {
    if |content| <= c * CHUNK then [] else content[c * CHUNK..c * CHUNK + ChunkLength(|content|, c)]
  }

  /** The chunks touched by a range of sectors (set_dirty_bitmap). */
  function ChunksOf(sector: nat, count: nat): set<nat> {
    set c: nat | c <= (sector + count) / CHUNK && Touches(sector, count, c)
  }

  predicate Touches(sector: nat, count: nat, c: nat) {
    0 < count && sector / CHUNK <= c <= (sector + count - 1) / CHUNK
  }

  // ---- the receiver ----

  /** A disk after one chunk has been written to it (block_load). */
  function Store(disk: seq<Sector>, chunk: nat, data: seq<Sector>): (r: seq<Sector>)
    ensures |r| == |disk|
  {
    seq(|disk|, x requires 0 <= x < |disk| =>
      if chunk * CHUNK <= x < chunk * CHUNK + |data| then data[x - chunk * CHUNK] else disk[x])
  }

  function Receive(dest: seq<seq<Sector>>, b: Block): (r: seq<seq<Sector>>)
    ensures |r| == |dest|
    ensures forall d | 0 <= d < |dest| :: |r[d]| == |dest[d]|
  {
    if b.dev < |dest| then dest[b.dev := Store(dest[b.dev], b.chunk, b.data)] else dest
  }

  /** The destination after a list of chunks, first one first. */
  function Replay(dest: seq<seq<Sector>>, blocks: seq<Block>): (r: seq<seq<Sector>>)
    ensures |r| == |dest|
    ensures forall d | 0 <= d < |dest| :: |r[d]| == |dest[d]|
  {
    if blocks == [] then dest else Receive(Replay(dest, blocks[..|blocks| - 1]), blocks[|blocks| - 1])
  }

  // ---- steps ----

  datatype Event =
    | GuestSubmit(w: Write)
    | GuestData(i: nat, x: nat, v: Sector)
    | GuestComplete(i: nat)
    | BulkRead(d: nat)
    | DirtyRead(d: nat, c: nat)
    | Capture(i: nat, k: nat)
    | ReadComplete(i: nat)
    | FlushOne
    | SyncSend(d: nat, c: nat)
    | Cleanup

  predicate Covers(w: Write, d: nat, x: nat) {
    w.dev == d && w.sector <= x < w.sector + w.count
  }

  predicate OfChunk(r: Read, d: nat, c: nat) {
    r.dev == d && r.chunk == c
  }

  predicate SameChunk(a: Read, b: Read) {
    a.dev == b.dev && a.chunk == b.chunk
  }

  /** What can happen. The synchronous sends belong to the last phase, when the guest is stopped and
      no read is in flight; what is left of the queue then is thrown away by the cleanup. */
  predicate Possible(s: State, e: Event) {
    match e
    case GuestSubmit(w) =>
      w.dev < |s.devs| && 0 < w.count && w.sector + w.count <= |s.devs[w.dev].content|
    case GuestData(i, x, v) =>
      && i < |s.writes| && Covers(s.writes[i], s.writes[i].dev, x)
      && s.writes[i].dev < |s.devs| && x < |s.devs[s.writes[i].dev].content|
    case GuestComplete(i) => i < |s.writes|
    case BulkRead(d) => d < |s.devs| && s.devs[d].curSector < |s.devs[d].content|
    case DirtyRead(d, c) => d < |s.devs| && c in s.devs[d].dirty && c * CHUNK < |s.devs[d].content|
    case Capture(i, k) =>
      && i < |s.inflight| && k < |s.inflight[i].buf| && k < |s.inflight[i].got| && !s.inflight[i].got[k]
      && s.inflight[i].dev < |s.devs|
      && s.inflight[i].chunk * CHUNK + k < |s.devs[s.inflight[i].dev].content|
    case ReadComplete(i) => i < |s.inflight| && forall k | 0 <= k < |s.inflight[i].got| :: s.inflight[i].got[k]
    case FlushOne => s.queue != []
    case SyncSend(d, c) =>
      && d < |s.devs| && c in s.devs[d].dirty && c * CHUNK < |s.devs[d].content|
      && s.writes == [] && s.inflight == []
    case Cleanup => s.writes == [] && s.inflight == []
  }

  /** What a read has captured is what the disk holds now. */
  predicate Current(s: State, r: Read) {
    && r.dev < |s.devs| && |r.buf| == |r.got|
    && forall k | 0 <= k < |r.got| && r.got[k] ::
         r.chunk * CHUNK + k < |s.devs[r.dev].content| && r.buf[k] == s.devs[r.dev].content[r.chunk * CHUNK + k]
  }

  predicate Queued(queue: seq<Block>, d: nat, c: nat) {
    exists i | 0 <= i < |queue| :: queue[i].dev == d && queue[i].chunk == c
  }

  /**
   * What must not go wrong. A read may complete before an older read of its chunk only while nothing
   * that one has captured has been overwritten; in particular reads of a chunk may complete in the
   * order in which they were issued. A chunk is not sent synchronously, and the queue is not thrown
   * away, while an older copy waits in the queue.
   */
  predicate Careful(s: State, e: Event) {
    match e
    case ReadComplete(i) =>
      i < |s.inflight| &&
      forall j | 0 <= j < i && SameChunk(s.inflight[j], s.inflight[i]) :: Current(s, s.inflight[j])
    case SyncSend(d, c) => !Queued(s.queue, d, c)
    case Cleanup => s.queue == []
    case _ => true
  }

  /** Completing the oldest read of a chunk is always careful. */
  lemma InOrderIsCareful(s: State, i: nat)
    requires i < |s.inflight| && forall j | 0 <= j < i :: !SameChunk(s.inflight[j], s.inflight[i])
    ensures Careful(s, ReadComplete(i))
  {
  }

  /** A new read of a chunk, nothing captured yet. */
  function NewRead(dev: Device, d: nat, c: nat): Read {
    var n := ChunkLength(|dev.content|, c);
    Read(d, c, seq(n, _ => []), seq(n, _ => false))
  }

  function Remove<T>(s: seq<T>, i: nat): seq<T>
    requires i < |s|
  {
    s[..i] + s[i + 1..]
  }

  function MarkDirty(s: State, w: Write): seq<Device> {
    if w.dev < |s.devs| then
      var dev := s.devs[w.dev];
      s.devs[w.dev := dev.(dirty := dev.dirty + ChunksOf(w.sector, w.count))]
    else s.devs
  }

  function Next(s: State, e: Event): State
    requires Possible(s, e)
  {
    match e
    case GuestSubmit(w) => s.(writes := s.writes + [w])
    case GuestData(i, x, v) =>
      var d := s.writes[i].dev;
      var dev := s.devs[d];
      s.(devs := s.devs[d := dev.(content := dev.content[x := v])])
    case GuestComplete(i) => s.(devs := MarkDirty(s, s.writes[i]), writes := Remove(s.writes, i))
    case BulkRead(d) =>
      var dev := s.devs[d];
      var c := dev.curSector / CHUNK;
      var n := ChunkLength(|dev.content|, c);
      s.(devs := s.devs[d := dev.(dirty := dev.dirty - {c}, curSector := c * CHUNK + n)],
         inflight := s.inflight + [NewRead(dev, d, c)])
    case DirtyRead(d, c) =>
      var dev := s.devs[d];
      s.(devs := s.devs[d := dev.(dirty := dev.dirty - {c})], inflight := s.inflight + [NewRead(dev, d, c)])
    case Capture(i, k) =>
      var r := s.inflight[i];
      var v := s.devs[r.dev].content[r.chunk * CHUNK + k];
      s.(inflight := s.inflight[i := r.(buf := r.buf[k := v], got := r.got[k := true])])
    case ReadComplete(i) =>
      var r := s.inflight[i];
      s.(inflight := Remove(s.inflight, i), queue := s.queue + [Block(r.dev, r.chunk, r.buf)])
    case FlushOne =>
      s.(queue := s.queue[1..], sent := s.sent + [s.queue[0]], dest := Receive(s.dest, s.queue[0]))
    case SyncSend(d, c) =>
      var dev := s.devs[d];
      var b := Block(d, c, ChunkData(dev.content, c));
      s.(devs := s.devs[d := dev.(dirty := dev.dirty - {c})], sent := s.sent + [b], dest := Receive(s.dest, b))
    case Cleanup => s.(queue := [])
  }

  // ---- well-formedness ----

  ghost predicate DeviceOk(dev: Device) {
    && (dev.curSector == |dev.content| || (dev.curSector < |dev.content| && dev.curSector % CHUNK == 0))
    && forall c | c in dev.dirty :: c * CHUNK < |dev.content|
  }

  ghost predicate ReadOk(s: State, r: Read) {
    && r.dev < |s.devs| && r.chunk * CHUNK < |s.devs[r.dev].content|
    && |r.buf| == |r.got| == ChunkLength(|s.devs[r.dev].content|, r.chunk)
  }

  ghost predicate BlockOk(s: State, b: Block) {
    && b.dev < |s.devs| && b.chunk * CHUNK < |s.devs[b.dev].content|
    && |b.data| == ChunkLength(|s.devs[b.dev].content|, b.chunk)
  }

  ghost predicate WriteOk(s: State, w: Write) {
    w.dev < |s.devs| && 0 < w.count && w.sector + w.count <= |s.devs[w.dev].content|
  }

  ghost predicate WellFormed(s: State) {
    && |s.dest| == |s.devs|
    && (forall d | 0 <= d < |s.devs| :: DeviceOk(s.devs[d]) && |s.dest[d]| == |s.devs[d].content|)
    && (forall i | 0 <= i < |s.inflight| :: ReadOk(s, s.inflight[i]))
    && (forall i | 0 <= i < |s.queue| :: BlockOk(s, s.queue[i]))
    && (forall i | 0 <= i < |s.sent| :: BlockOk(s, s.sent[i]))
    && (forall i | 0 <= i < |s.writes| :: WriteOk(s, s.writes[i]))
  }

  /** Steps do not change the number of devices or their sizes. */
  ghost predicate SameShape(s: State, s': State) {
    && |s'.devs| == |s.devs|
    && forall d | 0 <= d < |s.devs| :: |s'.devs[d].content| == |s.devs[d].content|
  }

  lemma SameShapeOk(s: State, s': State)
    requires SameShape(s, s')
    ensures forall r :: ReadOk(s, r) ==> ReadOk(s', r)
    ensures forall b :: BlockOk(s, b) ==> BlockOk(s', b)
    ensures forall w :: WriteOk(s, w) ==> WriteOk(s', w)
  {
  }

  lemma StepShape(s: State, e: Event)
    requires WellFormed(s) && Possible(s, e)
    ensures SameShape(s, Next(s, e))
  {
  }

  lemma StepWellFormed(s: State, e: Event)
    requires WellFormed(s) && Possible(s, e)
    ensures WellFormed(Next(s, e))
  {
    StepShape(s, e);
    SameShapeOk(s, Next(s, e));
    match e
    case GuestSubmit(w) =>
    case GuestData(i, x, v) =>
    case GuestComplete(i) => GuestCompleteWellFormed(s, i);
    case BulkRead(d) => BulkReadWellFormed(s, d);
    case DirtyRead(d, c) => DirtyReadWellFormed(s, d, c);
    case Capture(i, k) =>
    case ReadComplete(i) => ReadCompleteWellFormed(s, i);
    case FlushOne =>
    case SyncSend(d, c) =>
    case Cleanup =>
  }

  lemma GuestCompleteWellFormed(s: State, i: nat)
    requires WellFormed(s) && i < |s.writes|
    ensures WellFormed(Next(s, GuestComplete(i)))
  {
    var s' := Next(s, GuestComplete(i));
    StepShape(s, GuestComplete(i));
    SameShapeOk(s, s');
    DirtyInRange(s.writes[i].sector, s.writes[i].count, |s.devs[s.writes[i].dev].content|);
  }

  lemma BulkReadWellFormed(s: State, d: nat)
    requires WellFormed(s) && Possible(s, BulkRead(d))
    ensures WellFormed(Next(s, BulkRead(d)))
  {
    var s' := Next(s, BulkRead(d));
    StepShape(s, BulkRead(d));
    SameShapeOk(s, s');
    BulkCursor(s.devs[d]);
  }

  lemma DirtyReadWellFormed(s: State, d: nat, c: nat)
    requires WellFormed(s) && Possible(s, DirtyRead(d, c))
    ensures WellFormed(Next(s, DirtyRead(d, c)))
  {
    var s' := Next(s, DirtyRead(d, c));
    StepShape(s, DirtyRead(d, c));
    SameShapeOk(s, s');
  }

  lemma ReadCompleteWellFormed(s: State, i: nat)
    requires WellFormed(s) && i < |s.inflight|
    requires forall k | 0 <= k < |s.inflight[i].got| :: s.inflight[i].got[k]
    ensures WellFormed(Next(s, ReadComplete(i)))
  {
    assert ReadOk(s, s.inflight[i]);
  }

  lemma BulkCursor(dev: Device)
    requires DeviceOk(dev) && dev.curSector < |dev.content|
    ensures (var c := dev.curSector / CHUNK;
             var n := ChunkLength(|dev.content|, c);
             && dev.curSector == c * CHUNK && 0 < n
             && DeviceOk(dev.(dirty := dev.dirty - {c}, curSector := c * CHUNK + n)))
  {
  }

  lemma DirtyInRange(sector: nat, count: nat, total: nat)
    requires sector + count <= total
    ensures forall c | c in ChunksOf(sector, count) :: c * CHUNK < total
  {
  }

  // ---- the invariant ----

  /** Index of the youngest read in flight of chunk `c`, or -1. */
  function LastRead(rs: seq<Read>, d: nat, c: nat): (i: int)
    ensures -1 <= i < |rs|
    ensures i >= 0 ==> rs[i].dev == d && rs[i].chunk == c
    ensures forall j | i < j < |rs| :: !(rs[j].dev == d && rs[j].chunk == c)
  {
    if rs == [] then -1
    else if rs[|rs| - 1].dev == d && rs[|rs| - 1].chunk == c then |rs| - 1
    else LastRead(rs[..|rs| - 1], d, c)
  }

  /** Sector `x` has been passed by the bulk phase, its chunk is clean and no write to it is in
      progress. */
  ghost predicate Settled(s: State, d: nat, x: nat) {
    && d < |s.devs| && x < |s.devs[d].content| && x < s.devs[d].curSector
    && x / CHUNK !in s.devs[d].dirty
    && forall i | 0 <= i < |s.writes| :: !Covers(s.writes[i], d, x)
  }

  /** The youngest copy of sector `x` on its way to the destination is current: the last read in
      flight if there is one, otherwise the destination as it will be when the queue is sent. */
  ghost predicate Copied(s: State, d: nat, x: nat)
    requires WellFormed(s) && d < |s.devs| && x < |s.devs[d].content|
  {
    var r := LastRead(s.inflight, d, x / CHUNK);
    if r >= 0 then
      assert ReadOk(s, s.inflight[r]);
      s.inflight[r].got[x % CHUNK] ==> s.inflight[r].buf[x % CHUNK] == s.devs[d].content[x]
    else
      Replay(s.dest, s.queue)[d][x] == s.devs[d].content[x]
  }

  ghost predicate Inv(s: State) {
    && WellFormed(s)
    && forall d: nat, x: nat | Settled(s, d, x) :: Copied(s, d, x)
  }

  /** A chunk stored on a disk replaces exactly the sectors of that chunk. */
  lemma StoreAt(disk: seq<Sector>, c: nat, data: seq<Sector>, x: nat)
    requires |data| == ChunkLength(|disk|, c) && x < |disk|
    ensures x / CHUNK == c ==> x % CHUNK < |data| && Store(disk, c, data)[x] == data[x % CHUNK]
    ensures x / CHUNK != c ==> Store(disk, c, data)[x] == disk[x]
  {
  }

  lemma ReplayHead(dest: seq<seq<Sector>>, blocks: seq<Block>)
    requires blocks != []
    ensures Replay(Receive(dest, blocks[0]), blocks[1..]) == Replay(dest, blocks)
  {
    if |blocks| > 1 {
      var front := blocks[..|blocks| - 1];
      ReplayHead(dest, front);
      assert blocks[1..][..|blocks| - 2] == front[1..];
    }
  }

  lemma ReplaySnoc(dest: seq<seq<Sector>>, blocks: seq<Block>, b: Block)
    ensures Replay(dest, blocks + [b]) == Receive(Replay(dest, blocks), b)
  {
    assert (blocks + [b])[..|blocks|] == blocks;
  }

  /** Blocks received in two lists act like one list. */
  lemma {:induction false} ReplayAppend(dest: seq<seq<Sector>>, a: seq<Block>, b: seq<Block>)
    ensures Replay(dest, a + b) == Replay(Replay(dest, a), b)
  {
    if b == [] {
      assert a + b == a;
    } else {
      var n := |b| - 1;
      assert (a + b)[..|a + b| - 1] == a + b[..n];
      ReplayAppend(dest, a, b[..n]);
    }
  }

  // ---- each step keeps the invariant ----

  lemma GuestSubmitKeeps(s: State, w: Write)
    requires Inv(s) && Possible(s, GuestSubmit(w))
    ensures Inv(Next(s, GuestSubmit(w)))
  {
    var s' := Next(s, GuestSubmit(w));
    StepWellFormed(s, GuestSubmit(w));
    forall d: nat, x: nat | Settled(s', d, x)
      ensures Copied(s', d, x)
    {
      assert forall i | 0 <= i < |s.writes| :: s'.writes[i] == s.writes[i];
      assert Settled(s, d, x);
      assert Copied(s, d, x);
    }
  }

  lemma GuestDataKeeps(s: State, i: nat, x: nat, v: Sector)
    requires Inv(s) && Possible(s, GuestData(i, x, v))
    ensures Inv(Next(s, GuestData(i, x, v)))
  {
    var s' := Next(s, GuestData(i, x, v));
    StepWellFormed(s, GuestData(i, x, v));
    forall d: nat, y: nat | Settled(s', d, y)
      ensures Copied(s', d, y)
    {
      assert !Covers(s'.writes[i], d, y);
      assert Settled(s, d, y);
      assert Copied(s, d, y);
    }
  }

  /** A write covers only sectors of chunks that its completion marks dirty. */
  lemma CoveredIsTouched(w: Write, d: nat, x: nat)
    requires Covers(w, d, x)
    ensures x / CHUNK in ChunksOf(w.sector, w.count)
  {
  }

  lemma GuestCompleteKeeps(s: State, i: nat)
    requires Inv(s) && i < |s.writes|
    ensures Inv(Next(s, GuestComplete(i)))
  {
    var s' := Next(s, GuestComplete(i));
    StepWellFormed(s, GuestComplete(i));
    forall d: nat, x: nat | Settled(s', d, x)
      ensures Copied(s', d, x)
    {
      forall j | 0 <= j < |s.writes|
        ensures !Covers(s.writes[j], d, x)
      {
        if j < i {
          assert s'.writes[j] == s.writes[j];
        } else if j > i {
          assert s'.writes[j - 1] == s.writes[j];
        } else if Covers(s.writes[i], d, x) {
          CoveredIsTouched(s.writes[i], d, x);
        }
      }
      assert Settled(s, d, x);
      assert Copied(s, d, x);
    }
  }

  /** Issuing a read of chunk `c` and resetting its dirty bit, with the bulk cursor anywhere up to
      the end of that chunk. */
  lemma IssueKeeps(s: State, d: nat, c: nat, cursor: nat, s': State)
    requires Inv(s) && d < |s.devs| && c * CHUNK < |s.devs[d].content| && WellFormed(s')
    requires forall x | s.devs[d].curSector <= x < cursor :: x / CHUNK == c
    requires (var dev := s.devs[d];
              s' == s.(devs := s.devs[d := dev.(dirty := dev.dirty - {c}, curSector := cursor)],
                       inflight := s.inflight + [NewRead(dev, d, c)]))
    ensures Inv(s')
  {
    forall d': nat, x: nat | Settled(s', d', x)
      ensures Copied(s', d', x)
    {
      assert s'.inflight[..|s.inflight|] == s.inflight;
      if d' == d && x / CHUNK == c {
        assert LastRead(s'.inflight, d', x / CHUNK) == |s.inflight|;
      } else {
        assert s'.writes == s.writes;
        assert Settled(s, d', x);
        assert Copied(s, d', x);
        assert LastRead(s'.inflight, d', x / CHUNK) == LastRead(s.inflight, d', x / CHUNK);
      }
    }
  }

  lemma BulkReadKeeps(s: State, d: nat)
    requires Inv(s) && Possible(s, BulkRead(d))
    ensures Inv(Next(s, BulkRead(d)))
  {
    var s' := Next(s, BulkRead(d));
    StepWellFormed(s, BulkRead(d));
    BulkCursor(s.devs[d]);
    IssueKeeps(s, d, s.devs[d].curSector / CHUNK, s'.devs[d].curSector, s');
  }

  lemma DirtyReadKeeps(s: State, d: nat, c: nat)
    requires Inv(s) && Possible(s, DirtyRead(d, c))
    ensures Inv(Next(s, DirtyRead(d, c)))
  {
    var s' := Next(s, DirtyRead(d, c));
    StepWellFormed(s, DirtyRead(d, c));
    IssueKeeps(s, d, c, s.devs[d].curSector, s');
  }

  lemma LastReadSameShape(rs: seq<Read>, rs': seq<Read>, d: nat, c: nat)
    requires |rs| == |rs'| && forall i | 0 <= i < |rs| :: SameChunk(rs[i], rs'[i])
    ensures LastRead(rs, d, c) == LastRead(rs', d, c)
  {
    var i, j := LastRead(rs, d, c), LastRead(rs', d, c);
    assert i >= 0 ==> SameChunk(rs[i], rs'[i]);
    assert j >= 0 ==> SameChunk(rs[j], rs'[j]);
  }

  lemma CaptureCopied(s: State, i: nat, k: nat, d: nat, x: nat)
    requires WellFormed(s) && Possible(s, Capture(i, k)) && WellFormed(Next(s, Capture(i, k)))
    requires d < |s.devs| && x < |s.devs[d].content| && Copied(s, d, x)
    ensures Copied(Next(s, Capture(i, k)), d, x)
  {
    hide Replay, LastRead, WellFormed;
    var s' := Next(s, Capture(i, k));
    LastReadSameShape(s.inflight, s'.inflight, d, x / CHUNK);
    var r := LastRead(s.inflight, d, x / CHUNK);
    if r >= 0 {
      ReadAt(s, r);
      assert x == s.inflight[r].chunk * CHUNK + x % CHUNK;
    }
  }

  lemma CaptureKeeps(s: State, i: nat, k: nat)
    requires Inv(s) && Possible(s, Capture(i, k))
    ensures Inv(Next(s, Capture(i, k)))
  {
    var s' := Next(s, Capture(i, k));
    StepWellFormed(s, Capture(i, k));
    forall d: nat, x: nat | Settled(s', d, x)
      ensures Copied(s', d, x)
    {
      assert s'.writes == s.writes;
      assert Settled(s, d, x);
      CaptureCopied(s, i, k, d, x);
    }
  }

  /** Completing a read hands its data to the queue; the youngest read left of the chunk, if there is
      one, is current or was there before. */
  lemma ReadCompleteKeeps(s: State, i: nat)
    requires Inv(s) && Possible(s, ReadComplete(i)) && Careful(s, ReadComplete(i))
    ensures Inv(Next(s, ReadComplete(i)))
  {
    hide Replay, LastRead, Store;
    StepWellFormed(s, ReadComplete(i));
    forall d: nat, x: nat | Settled(Next(s, ReadComplete(i)), d, x)
      ensures Copied(Next(s, ReadComplete(i)), d, x)
    {
      assert Next(s, ReadComplete(i)).writes == s.writes;
      assert Settled(s, d, x);
      assert Copied(s, d, x);
      CompleteCopied(s, i, d, x);
    }
  }

  lemma CompleteCopied(s: State, i: nat, d: nat, x: nat)
    requires WellFormed(s) && Possible(s, ReadComplete(i)) && Careful(s, ReadComplete(i))
    requires WellFormed(Next(s, ReadComplete(i)))
    requires d < |s.devs| && x < |s.devs[d].content| && Copied(s, d, x)
    ensures Copied(Next(s, ReadComplete(i)), d, x)
  {
    hide Replay, Store, LastRead, Current, WellFormed, Receive;
    var r, c := s.inflight[i], x / CHUNK;
    ReadAt(s, i);
    DestAt(s, d);
    ReplaySnoc(s.dest, s.queue, Block(r.dev, r.chunk, r.buf));
    ReceiveAt(Replay(s.dest, s.queue), Block(r.dev, r.chunk, r.buf), d, x);
    LastReadRemoved(s.inflight, i, d, c);
    var last := LastRead(s.inflight, d, c);
    if last == i {
      var j := LastRead(s.inflight[..i], d, c);
      if j >= 0 {
        assert SameChunk(s.inflight[j], s.inflight[i]);
        ReadAt(s, j);
        CurrentAt(s, j, x);
      }
    } else if last >= 0 {
      ReadAt(s, last);
    }
  }

  lemma ReadAt(s: State, j: nat)
    requires WellFormed(s) && j < |s.inflight|
    ensures ReadOk(s, s.inflight[j])
  {
  }

  lemma DestAt(s: State, d: nat)
    requires WellFormed(s) && d < |s.devs|
    ensures |s.dest| == |s.devs| && |s.dest[d]| == |s.devs[d].content|
  {
  }

  lemma ReceiveAt(dest: seq<seq<Sector>>, b: Block, d: nat, x: nat)
    requires d < |dest| && x < |dest[d]|
    requires b.dev == d ==> |b.data| == ChunkLength(|dest[d]|, b.chunk)
    ensures b.dev == d && b.chunk == x / CHUNK ==> x % CHUNK < |b.data| && Receive(dest, b)[d][x] == b.data[x % CHUNK]
    ensures !(b.dev == d && b.chunk == x / CHUNK) ==> Receive(dest, b)[d][x] == dest[d][x]
  {
    if b.dev == d {
      StoreAt(dest[d], b.chunk, b.data, x);
    }
  }

  lemma CurrentAt(s: State, j: nat, x: nat)
    requires j < |s.inflight| && ReadOk(s, s.inflight[j]) && Current(s, s.inflight[j])
    requires x / CHUNK == s.inflight[j].chunk && x < |s.devs[s.inflight[j].dev].content|
    ensures x % CHUNK < |s.inflight[j].got| == |s.inflight[j].buf|
    ensures s.inflight[j].got[x % CHUNK] ==>
              s.inflight[j].buf[x % CHUNK] == s.devs[s.inflight[j].dev].content[x]
  {
    assert s.inflight[j].chunk * CHUNK + x % CHUNK == x;
  }

  lemma LastReadRemoved(rs: seq<Read>, i: nat, d: nat, c: nat)
    requires i < |rs|
    ensures (var last, last' := LastRead(rs, d, c), LastRead(Remove(rs, i), d, c);
             && (last == i ==> last' == LastRead(rs[..i], d, c) && (last' >= 0 ==> Remove(rs, i)[last'] == rs[last']))
             && (last != i ==> (last == -1 <==> last' == -1))
             && (last != i && last >= 0 ==> last' >= 0 && Remove(rs, i)[last'] == rs[last]))
  {
    var rs' := Remove(rs, i);
    assert forall j | 0 <= j < i :: rs'[j] == rs[j] == rs[..i][j];
    assert forall j | i < j < |rs| :: rs'[j - 1] == rs[j];
    assert forall j | i <= j < |rs'| :: rs'[j] == rs[j + 1];
  }

  lemma FlushOneKeeps(s: State)
    requires Inv(s) && s.queue != []
    ensures Inv(Next(s, FlushOne))
  {
    var s' := Next(s, FlushOne);
    StepWellFormed(s, FlushOne);
    ReplayHead(s.dest, s.queue);
    forall d: nat, x: nat | Settled(s', d, x)
      ensures Copied(s', d, x)
    {
      assert s'.writes == s.writes;
      assert Settled(s, d, x);
      assert Copied(s, d, x);
    }
  }

  /** What a replay leaves at a sector depends only on what was there and on the blocks of its chunk. */
  lemma {:induction false} ReplayAt(dest: seq<seq<Sector>>, dest': seq<seq<Sector>>, blocks: seq<Block>, d: nat, x: nat)
    requires |dest| == |dest'| && d < |dest| && |dest[d]| == |dest'[d]| && x < |dest[d]|
    requires forall i | 0 <= i < |blocks| ::
               blocks[i].dev == d ==> |blocks[i].data| == ChunkLength(|dest[d]|, blocks[i].chunk)
    ensures dest[d][x] == dest'[d][x] ==> Replay(dest, blocks)[d][x] == Replay(dest', blocks)[d][x]
    ensures !Queued(blocks, d, x / CHUNK) ==> Replay(dest, blocks)[d][x] == dest[d][x]
  {
    if blocks != [] {
      var n := |blocks| - 1;
      ReplayAt(dest, dest', blocks[..n], d, x);
      if blocks[n].dev == d {
        StoreAt(Replay(dest, blocks[..n])[d], blocks[n].chunk, blocks[n].data, x);
        StoreAt(Replay(dest', blocks[..n])[d], blocks[n].chunk, blocks[n].data, x);
      }
      if !Queued(blocks, d, x / CHUNK) {
        assert !(blocks[n].dev == d && blocks[n].chunk == x / CHUNK);
        assert !Queued(blocks[..n], d, x / CHUNK);
      }
    }
  }

  lemma SyncSendKeeps(s: State, d: nat, c: nat)
    requires Inv(s) && Possible(s, SyncSend(d, c)) && Careful(s, SyncSend(d, c))
    ensures Inv(Next(s, SyncSend(d, c)))
  {
    hide Replay, LastRead, Store, Queued;
    StepWellFormed(s, SyncSend(d, c));
    forall d': nat, x: nat | Settled(Next(s, SyncSend(d, c)), d', x)
      ensures Copied(Next(s, SyncSend(d, c)), d', x)
    {
      if d' != d || x / CHUNK != c {
        assert Next(s, SyncSend(d, c)).writes == s.writes;
        assert Settled(s, d', x);
        assert Copied(s, d', x);
      }
      SyncCopied(s, d, c, d', x);
    }
  }

  lemma SyncCopied(s: State, d: nat, c: nat, d': nat, x: nat)
    requires WellFormed(s) && Possible(s, SyncSend(d, c)) && Careful(s, SyncSend(d, c))
    requires WellFormed(Next(s, SyncSend(d, c))) && d' < |s.devs| && x < |s.devs[d'].content|
    requires (d' == d && x / CHUNK == c) || Copied(s, d', x)
    ensures Copied(Next(s, SyncSend(d, c)), d', x)
  {
    hide Replay, Store, Queued;
    var dest' := Next(s, SyncSend(d, c)).dest;
    SentAt(s, d, c, d', x);
    QueueShape(s, d');
    ReplayAt(s.dest, dest', s.queue, d', x);
    ReplayAt(dest', dest', s.queue, d', x);
  }

  lemma QueueShape(s: State, d: nat)
    requires WellFormed(s) && d < |s.devs|
    ensures forall i | 0 <= i < |s.queue| ::
              s.queue[i].dev == d ==> |s.queue[i].data| == ChunkLength(|s.dest[d]|, s.queue[i].chunk)
  {
    assert forall i | 0 <= i < |s.queue| :: BlockOk(s, s.queue[i]);
  }

  /** A synchronous send puts the chunk on the destination and leaves the rest of it. */
  lemma SentAt(s: State, d: nat, c: nat, d': nat, x: nat)
    requires WellFormed(s) && Possible(s, SyncSend(d, c)) && d' < |s.devs| && x < |s.devs[d'].content|
    ensures (var dest' := Next(s, SyncSend(d, c)).dest;
             && |dest'| == |s.dest| && |dest'[d']| == |s.dest[d']| == |s.devs[d'].content|
             && dest'[d'][x] == if d' == d && x / CHUNK == c then s.devs[d].content[x] else s.dest[d'][x])
  {
    if d' == d {
      StoreAt(s.dest[d], c, ChunkData(s.devs[d].content, c), x);
      assert x / CHUNK == c ==> ChunkData(s.devs[d].content, c)[x % CHUNK] == s.devs[d].content[x];
    }
  }

  /** Every careful step keeps the invariant. */
  lemma StepKeepsInv(s: State, e: Event)
    requires Inv(s) && Possible(s, e) && Careful(s, e)
    ensures Inv(Next(s, e))
  {
    match e
    case GuestSubmit(w) => GuestSubmitKeeps(s, w);
    case GuestData(i, x, v) => GuestDataKeeps(s, i, x, v);
    case GuestComplete(i) => GuestCompleteKeeps(s, i);
    case BulkRead(d) => BulkReadKeeps(s, d);
    case DirtyRead(d, c) => DirtyReadKeeps(s, d, c);
    case Capture(i, k) => CaptureKeeps(s, i, k);
    case ReadComplete(i) => ReadCompleteKeeps(s, i);
    case FlushOne => FlushOneKeeps(s);
    case SyncSend(d, c) => SyncSendKeeps(s, d, c);
    case Cleanup =>
  }

  // ---- runs ----

  ghost predicate IsRun(s: State, es: seq<Event>)
    decreases |es|
  {
    es == [] || (Possible(s, es[0]) && IsRun(Next(s, es[0]), es[1..]))
  }

  /** Every step of the run is careful. */
  ghost predicate IsCareful(s: State, es: seq<Event>)
    requires IsRun(s, es)
    decreases |es|
  {
    es == [] || (Careful(s, es[0]) && IsCareful(Next(s, es[0]), es[1..]))
  }

  function RunEnd(s: State, es: seq<Event>): State
    requires IsRun(s, es)
    decreases |es|
  {
    if es == [] then s else RunEnd(Next(s, es[0]), es[1..])
  }

  /** Tracking has just been switched on: nothing is dirty, nothing has been read. Guest writes may
      already be in progress, and the destination holds anything. */
  ghost predicate Init(s: State) {
    && WellFormed(s) && s.inflight == [] && s.queue == [] && s.sent == []
    && forall d | 0 <= d < |s.devs| :: s.devs[d].curSector == 0 && s.devs[d].dirty == {}
  }

  /** Bulk done, no chunk dirty, nothing pending. */
  ghost predicate Drained(s: State) {
    && s.inflight == [] && s.queue == [] && s.writes == []
    && forall d | 0 <= d < |s.devs| :: s.devs[d].curSector >= |s.devs[d].content| && s.devs[d].dirty == {}
  }

  ghost predicate Equal(s: State) {
    && |s.dest| == |s.devs|
    && forall d | 0 <= d < |s.devs| :: s.dest[d] == s.devs[d].content
  }

  lemma {:induction false} RunKeepsInv(s: State, es: seq<Event>)
    requires Inv(s) && IsRun(s, es) && IsCareful(s, es)
    ensures Inv(RunEnd(s, es))
    decreases |es|
  {
    if es != [] {
      StepKeepsInv(s, es[0]);
      RunKeepsInv(Next(s, es[0]), es[1..]);
    }
  }

  lemma {:induction false} RunWellFormed(s: State, es: seq<Event>)
    requires WellFormed(s) && IsRun(s, es)
    ensures WellFormed(RunEnd(s, es)) && SameShape(s, RunEnd(s, es))
    decreases |es|
  {
    hide WellFormed, Next, Possible;
    if es == [] {
      SameShapeSelf(s);
    } else {
      var s' := Next(s, es[0]);
      StepWellFormed(s, es[0]);
      StepShape(s, es[0]);
      RunWellFormed(s', es[1..]);
    }
  }

  lemma SameShapeSelf(s: State)
    ensures SameShape(s, s)
  {
  }

  lemma DrainedMeansEqual(s: State)
    requires Inv(s) && Drained(s)
    ensures Equal(s)
  {
    forall d | 0 <= d < |s.devs|
      ensures s.dest[d] == s.devs[d].content
    {
      forall x | 0 <= x < |s.dest[d]|
        ensures s.dest[d][x] == s.devs[d].content[x]
      {
        assert Settled(s, d, x);
        assert Copied(s, d, x);
      }
    }
  }

  /** Safety: whatever the interleaving, and whatever the order in which reads complete as long as it
      is careful, a run that ends with everything drained leaves the destination equal to the source
      on every sector of every device. */
  lemma MigrationSafe(s: State, es: seq<Event>)
    requires Init(s) && IsRun(s, es) && IsCareful(s, es) && Drained(RunEnd(s, es))
    ensures Equal(RunEnd(s, es))
  {
    RunKeepsInv(s, es);
    DrainedMeansEqual(RunEnd(s, es));
  }

  /** The destination is exactly what the receiver makes of the chunks sent. */
  lemma {:induction false} SentIsReplayed(s: State, es: seq<Event>, dest: seq<seq<Sector>>)
    requires IsRun(s, es) && s.dest == Replay(dest, s.sent)
    ensures RunEnd(s, es).dest == Replay(dest, RunEnd(s, es).sent)
    decreases |es|
  {
    if es != [] {
      var s' := Next(s, es[0]);
      if es[0].FlushOne? {
        ReplaySnoc(dest, s.sent, s.queue[0]);
      } else if es[0].SyncSend? {
        ReplaySnoc(dest, s.sent, Block(es[0].d, es[0].c, ChunkData(s.devs[es[0].d].content, es[0].c)));
      }
      SentIsReplayed(s', es[1..], dest);
    }
  }
}
