/** The records of both migrations by position: which byte of the stream holds which number. */
module StreamBytes {
  import opened Options
  import opened QemuFile
  import opened RamLayout
  import opened Sectors
  import RamStream
  import BlockStream
  import BlockMigration
  import Bytes

  /** Eight bytes hold `n`, the most significant first. */
  predicate Holds(s: seq<Byte>, n: nat) {
    && |s| >= 8
    && s[0] == n / 0x100_0000_0000_0000 % 256 && s[1] == n / 0x1_0000_0000_0000 % 256
    && s[2] == n / 0x100_0000_0000 % 256 && s[3] == n / 0x1_0000_0000 % 256
    && s[4] == n / 0x100_0000 % 256 && s[5] == n / 0x1_0000 % 256
    && s[6] == n / 0x100 % 256 && s[7] == n % 256
  }

  lemma Powers()
    ensures Pow256(0) == 1 && Pow256(1) == 0x100 && Pow256(2) == 0x1_0000 && Pow256(3) == 0x100_0000
    ensures Pow256(4) == 0x1_0000_0000 && Pow256(5) == 0x100_0000_0000 && Pow256(6) == 0x1_0000_0000_0000
    ensures Pow256(7) == 0x100_0000_0000_0000
  {
  }

  lemma BeHolds(n: nat, rest: seq<Byte>)
    ensures Holds(Be(n, 8) + rest, n)
  {
    hide Be, Pow256;
    Powers();
    BeAt(n, 8, 0);
    BeAt(n, 8, 1);
    BeAt(n, 8, 2);
    BeAt(n, 8, 3);
    BeAt(n, 8, 4);
    BeAt(n, 8, 5);
    BeAt(n, 8, 6);
    BeAt(n, 8, 7);
  }

  // ---- RAM ----

  /** A page record: the offset in its block with 0x02 for a page of one byte or 0x08 for a whole one, and
      0x20 when the block is that of the record before; else the length and the name of the block; then
      the byte or the page. */
  lemma PageRecord(blocks: seq<Block>, w: PageWrite, last: Option<nat>)
    requires InBlocks(blocks, w.place) && |blocks[w.place.block].id| < 256
    ensures var r, id := RamStream.EncodePage(blocks, w, last), blocks[w.place.block].id;
            var same, dup := last == Some(w.place.block), forall i | 0 <= i < 4096 :: w.data[i] == w.data[0];
            && Holds(r, 4096 * w.place.page + (if same then 0x20 else 0) + (if dup then 0x02 else 0x08))
            && r[8..] == (if same then [] else [|id|] + id) + (if dup then [w.data[0]] else w.data)
  {
    hide Be;
    var same, dup := last == Some(w.place.block), RamStream.IsDup(w.data);
    var n := 4096 * w.place.page + RamStream.PageFlags(same, dup);
    BeHolds(n, NameField(blocks[w.place.block].id, same) + RamStream.Payload(w.data));
  }

  /** The first record of a migration carries 0x04 and the number of bytes of RAM; 0x10 ends a section. */
  lemma StartAndEnd(blocks: seq<Block>)
    requires RamStream.NamesFit(blocks)
    ensures Holds(RamStream.EncodeStart(blocks), 4096 * TotalPages(blocks) + 0x04)
    ensures RamStream.EncodeStart(blocks)[8..] == RamStream.EncodeBlocks(blocks)
    ensures Holds(RamStream.Header(0, RamStream.EOS), 0x10)
  {
    hide Be;
    BeHolds(4096 * TotalPages(blocks) + 0x04, RamStream.EncodeBlocks(blocks));
    BeHolds(0x10, []);
    assert Be(0x10, 8) + [] == Be(0x10, 8);
  }

  /** An entry of the list of blocks: the length and the bytes of the name, then the bytes of the block. */
  lemma BlockEntry(blocks: seq<Block>)
    requires blocks != [] && RamStream.NamesFit(blocks)
    ensures var r, id := RamStream.EncodeBlocks(blocks), blocks[0].id;
            && |r| >= 1 + |id| + 8 && r[0] == |id| && r[1..1 + |id|] == id
            && Holds(r[1 + |id|..], 4096 * blocks[0].pages)
            && r[1 + |id| + 8..] == RamStream.EncodeBlocks(blocks[1..])
  {
    hide Be;
    var id, length, others := blocks[0].id, Be(4096 * blocks[0].pages, 8), RamStream.EncodeBlocks(blocks[1..]);
    BeHolds(4096 * blocks[0].pages, others);
    var r := RamStream.EncodeBlocks(blocks);
    assert r == [|id|] + id + (length + others);
    assert r[1 + |id|..] == length + others;
  }

  // ---- disks ----

  /** A chunk record: the byte offset of the chunk with 0x01, the name of the device and the whole buffer. */
  lemma ChunkRecord(name: seq<Byte>, b: BlockMigration.Block, pad: seq<Byte>)
    requires |name| < 256
    ensures var r := BlockStream.EncodeChunk(name, b, pad);
            && Holds(r, 512 * (2048 * b.chunk) + 0x01)
            && r[8..] == [|name|] + name + (Bytes.Flatten(b.data) + pad)
  {
    hide Be, Bytes.Flatten;
    BeHolds(512 * (2048 * b.chunk) + 0x01, NameField(name, false) + (Bytes.Flatten(b.data) + pad));
  }

  /** A progress record carries 0x04 below the percentage, the end of a section is 0x02. */
  lemma ReportAndEnd(percent: nat)
    ensures Holds(BlockStream.Header(percent, BlockStream.PROGRESS), 512 * percent + 0x04)
    ensures Holds(BlockStream.Header(0, BlockStream.EOS), 0x02)
  {
    hide Be;
    BeHolds(512 * percent + 0x04, []);
    BeHolds(0x02, []);
    assert Be(0x02, 8) + [] == Be(0x02, 8);
    assert Be(512 * percent + 0x04, 8) + [] == Be(512 * percent + 0x04, 8);
  }
}
