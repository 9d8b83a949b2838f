/** Disk migration end to end: the bytes of a finished migration, loaded section by section, turn the
    receiver's disks into the sender's. */
module BlockSession {
  import opened BlockMigration
  import opened BlockRoundTrip
  import opened BlockStream
  import opened Bytes
  import opened Options
  import opened QemuFile
  import opened Sectors

  // ---- every sector on its way is a whole sector ----

  ghost predicate WholeRead(r: Read) {
    |r.buf| == |r.got| && forall k | 0 <= k < |r.got| && r.got[k] :: |r.buf[k]| == SECTOR_SIZE
  }

  ghost predicate WholeBlocks(blocks: seq<Block>) {
    forall i | 0 <= i < |blocks| :: Whole(blocks[i].data)
  }

  ghost predicate WholeState(s: State) {
    && (forall d | 0 <= d < |s.devs| :: Whole(s.devs[d].content))
    && (forall i | 0 <= i < |s.inflight| :: WholeRead(s.inflight[i]))
    && WholeBlocks(s.queue) && WholeBlocks(s.sent)
  }

  /** A guest writes whole sectors. */
  ghost predicate WholeEvents(es: seq<Event>) {
    forall i | 0 <= i < |es| :: es[i].GuestData? ==> |es[i].v| == SECTOR_SIZE
  }

  lemma StepWhole(s: State, e: Event)
    requires Possible(s, e) && WholeState(s) && (e.GuestData? ==> |e.v| == SECTOR_SIZE)
    ensures WholeState(Next(s, e))
  {
    match e
    case Capture(i, k) =>
      var r := s.inflight[i];
      assert |s.devs[r.dev].content[r.chunk * CHUNK + k]| == SECTOR_SIZE;
    case _ =>
  }

  lemma {:induction false} RunWhole(s: State, es: seq<Event>)
    requires WholeState(s) && WholeEvents(es) && IsRun(s, es)
    ensures WholeState(RunEnd(s, es))
    decreases |es|
  {
    hide WholeState, Next, Possible;
    if es != [] {
      StepWhole(s, es[0]);
      RunWhole(Next(s, es[0]), es[1..]);
    }
  }

  // ---- all sections ----

  /** The chunks of all sections, in order. */
  function AllChunks(sections: seq<seq<Item>>): seq<Block> {
    if sections == [] then [] else Chunks(sections[0]) + AllChunks(sections[1..])
  }

  ghost predicate AllSectionsFit(names: seq<Name>, disks: Disks, sections: seq<seq<Item>>) {
    forall i | 0 <= i < |sections| :: AllFit(names, disks, sections[i])
  }

  ghost function EncodeAll(names: seq<Name>, disks: Disks, sections: seq<seq<Item>>): seq<seq<Byte>>
    requires ValidNames(names) && AllSectionsFit(names, disks, sections)
  {
    if sections == [] then []
    else [EncodeSection(names, disks, sections[0])] + EncodeAll(names, disks, sections[1..])
  }

  lemma {:induction false} EncodeAllSame(names: seq<Name>, disks: Disks, sections: seq<seq<Item>>, disks': Disks)
    requires ValidNames(names) && AllSectionsFit(names, disks, sections) && SameSizes(disks, disks')
    ensures AllSectionsFit(names, disks', sections)
    ensures EncodeAll(names, disks, sections) == EncodeAll(names, disks', sections)
  {
    hide AllFit, EncodeSection;
    forall i | 0 <= i < |sections|
      ensures AllFit(names, disks', sections[i])
    {
      SizesKept(names, disks, sections[i], disks');
    }
    if sections != [] {
      EncodeSame(names, disks, sections[0], disks');
      EncodeAllSame(names, disks, sections[1..], disks');
    }
  }

  /** Loading all sections replays all their chunks. */
  lemma {:induction false} SectionsLoad(names: seq<Name>, disks: Disks, sections: seq<seq<Item>>)
    requires ValidNames(names) && |names| == |disks| && Addressable(disks)
    requires AllSectionsFit(names, disks, sections)
    ensures LoadAll(names, disks, EncodeAll(names, disks, sections)) == Some(Replay(disks, AllChunks(sections)))
    decreases |sections|
  {
    hide Load, EncodeSection, Replay, AllFit, Chunks;
    if sections == [] {
      ReplayNothing(disks);
      assert AllChunks(sections) == Chunks([]) by { NoChunks(); }
    } else {
      var bytes := EncodeSection(names, disks, sections[0]);
      var disks' := Replay(disks, Chunks(sections[0]));
      assert bytes + [] == bytes;
      SectionLoads(names, disks, sections[0], []);
      EncodeAllSame(names, disks, sections[1..], disks');
      assert EncodeAll(names, disks, sections)[1..] == EncodeAll(names, disks', sections[1..]);
      SectionsLoad(names, disks', sections[1..]);
      ReplayAppend(disks, Chunks(sections[0]), AllChunks(sections[1..]));
    }
  }

  lemma NoChunks()
    ensures Chunks([]) == []
  {
  }

  // ---- the sections of a run ----

  /** What blk_send and the progress reports put into a buffer of fixed size and a header. */
  ghost predicate Sendable(item: Item) {
    match item
    case Chunk(b, pad) => |b.data| * SECTOR_SIZE + |pad| == CHUNK * SECTOR_SIZE
    case Report(percent) => percent <= 100
  }

  /** The sections carry the chunks sent, in order, with progress reports anywhere in between. */
  ghost predicate Carry(sections: seq<seq<Item>>, sent: seq<Block>) {
    && AllChunks(sections) == sent
    && forall i, j | 0 <= i < |sections| && 0 <= j < |sections[i]| :: Sendable(sections[i][j])
  }

  lemma {:induction false} ChunkAmong(items: seq<Item>, j: nat)
    requires j < |items| && items[j].Chunk?
    ensures items[j].block in Chunks(items)
  {
    if j > 0 {
      ChunkAmong(items[1..], j - 1);
    }
  }

  lemma {:induction false} AmongAll(sections: seq<seq<Item>>, i: nat, b: Block)
    requires i < |sections| && b in Chunks(sections[i])
    ensures b in AllChunks(sections)
  {
    if i > 0 {
      AmongAll(sections[1..], i - 1, b);
    }
  }

  lemma ChunkFits(names: seq<Name>, s: State, b: Block, pad: seq<Byte>)
    requires |names| == |s.devs| && WellFormed(s) && WholeState(s) && b in s.sent && Sendable(Chunk(b, pad))
    ensures Fits(names, s.dest, Chunk(b, pad))
  {
    assert BlockOk(s, b) && Whole(b.data);
    CutFlattened(b.data, pad);
  }

  lemma SentFits(names: seq<Name>, s: State, sections: seq<seq<Item>>)
    requires |names| == |s.devs| && WellFormed(s) && WholeState(s) && Carry(sections, s.sent)
    ensures AllSectionsFit(names, s.dest, sections)
  {
    hide WellFormed, WholeState, AllChunks, Chunks, Fits;
    forall i, j | 0 <= i < |sections| && 0 <= j < |sections[i]|
      ensures Fits(names, s.dest, sections[i][j])
    {
      var item := sections[i][j];
      assert Sendable(item);
      if item.Chunk? {
        ChunkAmong(sections[i], j);
        AmongAll(sections, i, item.block);
        ChunkFits(names, s, item.block, item.pad);
      } else {
        ReportFits(names, s.dest, item.percent);
      }
    }
  }

  lemma ReportFits(names: seq<Name>, disks: Disks, percent: nat)
    requires percent <= 100
    ensures Fits(names, disks, Report(percent))
  {
  }

  ghost predicate Starts(names: seq<Name>, s: State) {
    Init(s) && WholeState(s) && ValidNames(names) && |names| == |s.devs| && Addressable(s.dest)
  }

  /** At any point of any run the receiver can load what has been sent, and then holds exactly the
      destination of the step machine. */
  lemma SentLoads(names: seq<Name>, s: State, es: seq<Event>, sections: seq<seq<Item>>)
    requires Starts(names, s) && IsRun(s, es) && WholeEvents(es) && Carry(sections, RunEnd(s, es).sent)
    ensures AllSectionsFit(names, s.dest, sections)
    ensures LoadAll(names, s.dest, EncodeAll(names, s.dest, sections)) == Some(RunEnd(s, es).dest)
  {
    hide IsRun, RunEnd, WholeState, WholeEvents, AllChunks, LoadAll, EncodeAll, Addressable, ValidNames, AllSectionsFit;
    var end := RunEnd(s, es);
    RunWellFormed(s, es);
    RunWhole(s, es);
    SentFits(names, end, sections);
    ReplayNothing(s.dest);
    NoChunks();
    SentIsReplayed(s, es, s.dest);
    EncodeAllSame(names, end.dest, sections, s.dest);
    SectionsLoad(names, s.dest, sections);
  }

  /** The disks of the sender. */
  function Contents(s: State): Disks {
    seq(|s.devs|, d requires 0 <= d < |s.devs| => s.devs[d].content)
  }

  /** Safety end to end: whatever the interleaving and whatever the receiver's disks held, once a
      careful run is drained, loading its sections makes the receiver's disks the sender's. */
  lemma MigrationLoads(names: seq<Name>, s: State, es: seq<Event>, sections: seq<seq<Item>>)
    requires Starts(names, s) && IsRun(s, es) && IsCareful(s, es) && WholeEvents(es)
    requires Drained(RunEnd(s, es)) && Carry(sections, RunEnd(s, es).sent)
    ensures AllSectionsFit(names, s.dest, sections)
    ensures LoadAll(names, s.dest, EncodeAll(names, s.dest, sections)) == Some(Contents(RunEnd(s, es)))
  {
    hide IsRun, RunEnd, IsCareful, WholeState, WholeEvents, AllChunks, LoadAll, EncodeAll, Addressable, ValidNames,
      AllSectionsFit, Carry, Drained;
    SentLoads(names, s, es, sections);
    MigrationSafe(s, es);
    var end := RunEnd(s, es);
    assert end.dest == Contents(end);
  }
}
