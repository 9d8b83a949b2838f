/** What block_load makes of what the sender wrote: chunk by chunk, section by section, and for a
    whole migration. */
module BlockRoundTrip {
  import opened BlockMigration
  import opened BlockStream
  import opened Bytes
  import opened Options
  import opened QemuFile
  import opened Sectors

  // ---- one record ----

  lemma HeaderReads(value: nat, flags: nat, rest: seq<Byte>)
    requires value * SECTOR_SIZE < 0x8000_0000_0000_0000 && flags < SECTOR_SIZE
    ensures var word := Get(Stream(Header(value, flags) + rest, false), 8);
            && word.1 == Stream(rest, false)
            && FromBe(word.0) % SECTOR_SIZE == flags
            && Signed(FromBe(word.0)) / SECTOR_SIZE == value
  {
    hide Be, FromBe, Get, Pow256;
    GetPrefix(Header(value, flags), rest, false);
    Pow256Of8();
    BeRoundTrip(SECTOR_SIZE * value + flags, 8);
  }

  lemma FindOwn(names: seq<Name>, d: nat)
    requires ValidNames(names) && d < |names|
    ensures Find(names, 0, CString(names[d])) == Some(d)
  {
    CStringOfName(names[d]);
  }

  /** Writing a whole chunk where it belongs is what the migration's receiver does. */
  lemma WriteIsStore(disk: seq<Sector>, c: nat, data: seq<Sector>)
    requires c * CHUNK < |disk| && |data| == ChunkLength(|disk|, c)
    ensures Length(|disk|, c * CHUNK) == |data|
    ensures WriteSectors(disk, c * CHUNK, data) == Some(Store(disk, c, data))
  {
    var at := c * CHUNK;
    assert disk[..at] + data + disk[at + |data|..] == Store(disk, c, data);
  }

  lemma ChunkReads(names: seq<Name>, disks: Disks, b: Block, pad: seq<Byte>, rest: seq<Byte>)
    requires ValidNames(names) && |names| == |disks| && Fits(names, disks, Chunk(b, pad))
    ensures LoadChunk(names, b.chunk * CHUNK,
                      Receiver(disks, Stream(NameField(names[b.dev], false) + ((Flatten(b.data) + pad) + rest), false)))
            == (Receiver(BlockMigration.Receive(disks, b), Stream(rest, false)), 0)
  {
    hide Get, GetName, Find, CString, NameField, Cut, Flatten, Store;
    var name := names[b.dev];
    var bytes := Flatten(b.data) + pad;
    GetNameField(name, bytes + rest);
    FindOwn(names, b.dev);
    GetPrefix(bytes, rest, false);
    WriteIsStore(disks[b.dev], b.chunk, b.data);
    CutFlattened(b.data, pad);
  }

  /** A chunk record is read back as the chunk: the receiver stores it and goes on. */
  lemma ChunkTurn(names: seq<Name>, disks: Disks, b: Block, pad: seq<Byte>, rest: seq<Byte>)
    requires ValidNames(names) && |names| == |disks| && Addressable(disks) && Fits(names, disks, Chunk(b, pad))
    ensures LoadTurn(names, Receiver(disks, Stream(EncodeChunk(names[b.dev], b, pad) + rest, false)))
            == Again(Receiver(BlockMigration.Receive(disks, b), Stream(rest, false)))
  {
    hide Get, Header, NameField, LoadChunk, FromBe, Flatten, BlockMigration.Receive;
    var header := Header(b.chunk * CHUNK, DEVICE_BLOCK);
    var name, bytes := NameField(names[b.dev], false), Flatten(b.data) + pad;
    assert EncodeChunk(names[b.dev], b, pad) + rest == header + (name + (bytes + rest)) by {
      Associative(header, name + bytes, rest);
      Associative(name, bytes, rest);
    }
    HeaderReads(b.chunk * CHUNK, DEVICE_BLOCK, name + (bytes + rest));
    ChunkReads(names, disks, b, pad, rest);
  }

  lemma {:induction false} CutAt(bytes: seq<Byte>, n: nat, i: nat)
    requires n * SECTOR_SIZE <= |bytes| && i < n
    ensures Cut(bytes, n)[i] == bytes[i * SECTOR_SIZE..i * SECTOR_SIZE + SECTOR_SIZE]
  {
    if i > 0 {
      CutAt(bytes[SECTOR_SIZE..], n - 1, i - 1);
    }
  }

  /** Where the sectors of a buffer end up. */
  ghost predicate Written(disk: seq<Sector>, sector: nat, buf: seq<Byte>, disk': seq<Sector>)
    requires |buf| == CHUNK * SECTOR_SIZE
  {
    && |disk'| == |disk|
    && forall x | 0 <= x < |disk| ::
         disk'[x] == if sector <= x < sector + CHUNK
                     then buf[(x - sector) * SECTOR_SIZE..(x - sector) * SECTOR_SIZE + SECTOR_SIZE] else disk[x]
  }

  lemma WriteWrites(disk: seq<Sector>, sector: nat, buf: seq<Byte>)
    requires |buf| == CHUNK * SECTOR_SIZE && sector <= |disk|
    ensures 0 <= Length(|disk|, sector) <= CHUNK
    ensures var r := WriteSectors(disk, sector, Cut(buf, Length(|disk|, sector)));
            r.Some? && Written(disk, sector, buf, r.value)
  {
    hide Cut;
    var n := Length(|disk|, sector);
    var data := Cut(buf, n);
    var disk' := disk[..sector] + data + disk[sector + n..];
    forall x | 0 <= x < |disk|
      ensures disk'[x] == if sector <= x < sector + CHUNK
                          then buf[(x - sector) * SECTOR_SIZE..(x - sector) * SECTOR_SIZE + SECTOR_SIZE] else disk[x]
    {
      if sector <= x < sector + CHUNK {
        CutAt(buf, n, x - sector);
        assert disk'[x] == data[x - sector];
      }
    }
  }

  /** Device `d` is the first one of that name. */
  ghost predicate FirstNamed(names: seq<Name>, name: Name, d: nat) {
    d < |names| && names[d] == name && forall e | 0 <= e < d :: names[e] != name
  }

  lemma {:induction false} FindFirst(names: seq<Name>, from: nat, name: Name, d: nat)
    requires from <= d && FirstNamed(names, name, d)
    ensures Find(names, from, name) == Some(d)
    decreases d - from
  {
    if from < d {
      FindFirst(names, from + 1, name, d);
    }
  }

  lemma NamedRead(names: seq<Name>, disks: Disks, name: Name, value: nat, buf: seq<Byte>, rest: seq<Byte>)
    requires |names| == |disks| && ValidName(name) && |buf| == CHUNK * SECTOR_SIZE
    ensures var r := LoadChunk(names, value, Receiver(disks, Stream(NameField(name, false) + (buf + rest), false)));
            && (name !in names ==> r.1 == -EINVAL && r.0.disks == disks)
            && (forall d: nat | FirstNamed(names, name, d) ::
                  if |disks[d]| == 0 then r.1 == -EINVAL && r.0.disks == disks
                  else if value > |disks[d]| then r.1 == -EIO && r.0.disks == disks
                  else
                    && r.1 == 0 && r.0.stream == Stream(rest, false) && Written(disks[d], value, buf, r.0.disks[d])
                    && forall e | 0 <= e < |disks| && e != d :: r.0.disks[e] == disks[e])
  {
    hide Get, GetName, Find, CString, NameField, Cut, WriteSectors, Written;
    GetNameField(name, buf + rest);
    CStringOfName(name);
    GetPrefix(buf, rest, false);
    forall d: nat | FirstNamed(names, name, d) ensures Find(names, 0, name) == Some(d) {
      FindFirst(names, 0, name, d);
    }
    var found := Find(names, 0, name);
    if found.Some? && value <= |disks[found.value]| {
      WriteWrites(disks[found.value], value, buf);
    } else if found.Some? {
      BeyondEnd(disks[found.value], value);
    }
  }

  lemma BeyondEnd(disk: seq<Sector>, value: nat)
    requires value > |disk|
    ensures Length(|disk|, value) < 0
  {
  }

  /**
   * Any record that names a device and an address: refused for an unknown or empty device or an address
   * beyond the end; otherwise the sectors of its buffer that fit are on that disk, and nothing else
   * has changed.
   */
  lemma RecordOutcome(names: seq<Name>, disks: Disks, name: Name, value: nat, buf: seq<Byte>, rest: seq<Byte>)
    requires |names| == |disks| && ValidName(name) && |buf| == CHUNK * SECTOR_SIZE
    requires value * SECTOR_SIZE < 0x8000_0000_0000_0000
    ensures var turn := LoadTurn(names, Receiver(disks, Stream(Header(value, DEVICE_BLOCK) + (NameField(name, false) + (buf + rest)), false)));
            && (name !in names ==> turn.Returned? && turn.ret == -EINVAL && turn.last.disks == disks)
            && (forall d: nat | FirstNamed(names, name, d) ::
                  if |disks[d]| == 0 then turn.Returned? && turn.ret == -EINVAL && turn.last.disks == disks
                  else if value > |disks[d]| then turn.Returned? && turn.ret == -EIO && turn.last.disks == disks
                  else
                    && turn.Again? && turn.next.stream == Stream(rest, false)
                    && |turn.next.disks| == |disks| && Written(disks[d], value, buf, turn.next.disks[d])
                    && forall e | 0 <= e < |disks| && e != d :: turn.next.disks[e] == disks[e])
  {
    hide Get, Header, NameField, LoadChunk, FromBe, Written;
    HeaderReads(value, DEVICE_BLOCK, NameField(name, false) + (buf + rest));
    NamedRead(names, disks, name, value, buf, rest);
  }

  /** A record without any of the three flags is refused. */
  lemma UnknownFlags(names: seq<Name>, disks: Disks, value: nat, flags: nat, rest: seq<Byte>)
    requires |names| == |disks| && value * SECTOR_SIZE < 0x8000_0000_0000_0000
    requires flags < SECTOR_SIZE && flags % 8 == 0
    ensures LoadTurn(names, Receiver(disks, Stream(Header(value, flags) + rest, false)))
            == Returned(Receiver(disks, Stream(rest, false)), -EINVAL)
  {
    hide Get, Header, LoadChunk, FromBe;
    HeaderReads(value, flags, rest);
  }

  lemma ReportTurn(names: seq<Name>, disks: Disks, percent: nat, rest: seq<Byte>)
    requires |names| == |disks| && percent <= 100
    ensures LoadTurn(names, Receiver(disks, Stream(Header(percent, PROGRESS) + rest, false)))
            == Again(Receiver(disks, Stream(rest, false)))
  {
    hide Get, Header, LoadChunk, FromBe;
    HeaderReads(percent, PROGRESS, rest);
  }

  lemma EosTurn(names: seq<Name>, disks: Disks, rest: seq<Byte>)
    requires |names| == |disks|
    ensures LoadTurn(names, Receiver(disks, Stream(Header(0, EOS) + rest, false)))
            == Returned(Receiver(disks, Stream(rest, false)), 0)
  {
    hide Get, Header, LoadChunk, FromBe;
    HeaderReads(0, EOS, rest);
  }

  // ---- one section ----

  lemma {:induction false} ReplayFirst(disks: Disks, b: Block, blocks: seq<Block>)
    ensures Replay(disks, [b] + blocks) == Replay(BlockMigration.Receive(disks, b), blocks)
  {
    assert ([b] + blocks)[1..] == blocks;
    ReplayHead(disks, [b] + blocks);
  }

  lemma SizesKept(names: seq<Name>, disks: Disks, items: seq<Item>, disks': Disks)
    requires AllFit(names, disks, items) && SameSizes(disks, disks')
    ensures AllFit(names, disks', items)
  {
    hide Padded;
  }

  lemma {:induction false} EncodeSame(names: seq<Name>, disks: Disks, items: seq<Item>, disks': Disks)
    requires ValidNames(names) && AllFit(names, disks, items) && AllFit(names, disks', items)
    ensures EncodeSection(names, disks, items) == EncodeSection(names, disks', items)
  {
    hide Fits;
    if items != [] {
      EncodeSame(names, disks, items[1..], disks');
    }
  }

  /**
   * A section is read back as the chunks that were written to it: with any progress reports in
   * between and any bytes in the unused part of a buffer, the receiver's disks become the replay of
   * the chunks, and what follows the section is left unread.
   */
  lemma {:induction false} SectionLoads(names: seq<Name>, disks: Disks, items: seq<Item>, rest: seq<Byte>)
    requires ValidNames(names) && |names| == |disks| && Addressable(disks) && AllFit(names, disks, items)
    ensures Load(names, Receiver(disks, Stream(EncodeSection(names, disks, items) + rest, false)))
            == (Receiver(Replay(disks, Chunks(items)), Stream(rest, false)), 0)
    decreases |items|
  {
    hide LoadTurn, EncodeChunk, Header, Replay, BlockMigration.Receive, Fits;
    if items == [] {
      EosTurn(names, disks, rest);
      ReplayNothing(disks);
    } else {
      var item, others := items[0], items[1..];
      var tail := EncodeSection(names, disks, others) + rest;
      assert Encode(names, disks, item) + EncodeSection(names, disks, others) + rest
          == Encode(names, disks, item) + tail by {
        Associative(Encode(names, disks, item), EncodeSection(names, disks, others), rest);
      }
      ItemTurn(names, disks, item, tail);
      var disks' := Stored(disks, item);
      SizesKept(names, disks, others, disks');
      EncodeSame(names, disks, others, disks');
      SectionLoads(names, disks', others, rest);
      ChunksFirst(disks, items);
    }
  }

  /** The disks after one item. */
  function Stored(disks: Disks, item: Item): (r: Disks)
    ensures SameSizes(disks, r)
  {
    if item.Chunk? then BlockMigration.Receive(disks, item.block) else disks
  }

  lemma ItemTurn(names: seq<Name>, disks: Disks, item: Item, rest: seq<Byte>)
    requires ValidNames(names) && |names| == |disks| && Addressable(disks) && Fits(names, disks, item)
    ensures LoadTurn(names, Receiver(disks, Stream(Encode(names, disks, item) + rest, false)))
            == Again(Receiver(Stored(disks, item), Stream(rest, false)))
  {
    hide LoadTurn, EncodeChunk, Header, BlockMigration.Receive;
    match item
    case Chunk(b, pad) => ChunkTurn(names, disks, b, pad, rest);
    case Report(percent) => ReportTurn(names, disks, percent, rest);
  }

  lemma ReplayNothing(disks: Disks)
    ensures Replay(disks, Chunks([])) == disks
  {
  }

  lemma ChunksFirst(disks: Disks, items: seq<Item>)
    requires items != []
    ensures Replay(disks, Chunks(items)) == Replay(Stored(disks, items[0]), Chunks(items[1..]))
  {
    if items[0].Chunk? {
      ReplayFirst(disks, items[0].block, Chunks(items[1..]));
    } else {
      assert [] + Chunks(items[1..]) == Chunks(items[1..]);
    }
  }

  // ---- a section that was cut short ----

  lemma LoadChunkLonger(names: seq<Name>, sector: int, s: Receiver, more: seq<Byte>)
    requires |names| == |s.disks|
    requires !LoadChunk(names, sector, s).0.stream.error && LoadChunk(names, sector, s).1 >= 0
    ensures LoadChunk(names, sector, s.(stream := Longer(s.stream, more)))
            == (var r := LoadChunk(names, sector, s).0; r.(stream := Longer(r.stream, more)), 0)
  {
    hide Get, GetName, Find, CString, Cut, WriteSectors, Longer;
    var name := GetName(s.stream);
    GetNameLonger(s.stream, more);
    GetLonger(name.1, CHUNK * SECTOR_SIZE, more);
  }

  /** A turn that succeeds does the same whatever follows what it has read. */
  lemma TurnLonger(names: seq<Name>, s: Receiver, more: seq<Byte>)
    requires |names| == |s.disks|
    ensures var t := s.(stream := Longer(s.stream, more));
            match LoadTurn(names, s)
            case Again(r) => LoadTurn(names, t) == Again(r.(stream := Longer(r.stream, more)))
            case Returned(r, ret) =>
              ret == 0 ==> LoadTurn(names, t) == Returned(r.(stream := Longer(r.stream, more)), 0)
  {
    hide Get, FromBe, HasFlag, LoadChunk;
    var word := Get(s.stream, 8);
    var n := FromBe(word.0);
    var s1 := s.(stream := word.1);
    if !word.1.error {
      GetLonger(s.stream, 8, more);
      var chunk := LoadChunk(names, Signed(n) / SECTOR_SIZE, s1);
      if !chunk.0.stream.error && chunk.1 >= 0 {
        LoadChunkLonger(names, Signed(n) / SECTOR_SIZE, s1, more);
      }
    }
  }

  lemma {:induction false} LoadLonger(names: seq<Name>, s: Receiver, more: seq<Byte>)
    requires |names| == |s.disks| && Load(names, s).1 == 0
    ensures Load(names, s.(stream := Longer(s.stream, more)))
            == (var r := Load(names, s).0; r.(stream := Longer(r.stream, more)), 0)
    decreases |s.stream.input|
  {
    hide LoadTurn, Longer;
    TurnLonger(names, s, more);
    var turn := LoadTurn(names, s);
    if turn.Again? {
      LoadLonger(names, turn.next, more);
    }
  }

  /** A section of which the end is missing is refused, wherever it was cut. */
  lemma TruncatedFails(names: seq<Name>, disks: Disks, items: seq<Item>, k: nat)
    requires ValidNames(names) && |names| == |disks| && Addressable(disks) && AllFit(names, disks, items)
    requires k < |EncodeSection(names, disks, items)|
    ensures Load(names, Receiver(disks, Stream(EncodeSection(names, disks, items)[..k], false))).1 != 0
  {
    hide Load, EncodeSection, AllFit, Replay;
    var bytes := EncodeSection(names, disks, items);
    var s := Receiver(disks, Stream(bytes[..k], false));
    if Load(names, s).1 == 0 {
      LoadLonger(names, s, bytes[k..]);
      assert bytes[..k] + bytes[k..] == bytes == bytes + [];
      SectionLoads(names, disks, items, []);
    }
  }
}
