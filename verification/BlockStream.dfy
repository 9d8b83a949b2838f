/** The block section of a migration stream: how chunks are written to it (blk_send) and read back
    (block_load). */
module BlockStream {
  import opened BlockMigration
  import opened Bytes
  import opened Options
  import opened QemuFile
  import opened Sectors

  type Disks = seq<seq<Sector>>
  type Name = seq<Byte>

  // ---- flags in the low bits of a sector address ----

  const DEVICE_BLOCK: nat := 0x01
  const EOS: nat := 0x02
  const PROGRESS: nat := 0x04

  // ---- sectors as bytes ----

  ghost predicate Whole(sectors: seq<Sector>) {
    forall i | 0 <= i < |sectors| :: |sectors[i]| == SECTOR_SIZE
  }

  /** The first `n` sectors of a buffer. */
  function Cut(bytes: seq<Byte>, n: nat): (r: seq<Sector>)
    requires n * SECTOR_SIZE <= |bytes|
    ensures |r| == n
  {
    if n == 0 then [] else [bytes[..SECTOR_SIZE]] + Cut(bytes[SECTOR_SIZE..], n - 1)
  }

  /** Cutting the bytes of sectors gives the sectors back, whatever follows them. */
  lemma {:induction false} CutFlattened(sectors: seq<Sector>, pad: seq<Byte>)
    requires Whole(sectors)
    ensures |Flatten(sectors)| == |sectors| * SECTOR_SIZE
    ensures Cut(Flatten(sectors) + pad, |sectors|) == sectors
  {
    if sectors != [] {
      var first, others := sectors[0], sectors[1..];
      assert [first] + others == sectors;
      FlattenCons(first, others);
      var rest := Flatten(others) + pad;
      Associative(first, Flatten(others), pad);
      assert (first + rest)[..SECTOR_SIZE] == first;
      assert (first + rest)[SECTOR_SIZE..] == rest;
      CutFlattened(others, pad);
    }
  }

  // ---- writing ----

  /** A header word: a sector number or a percentage, and flags in the nine bits below it. */
  function Header(value: nat, flags: nat): (s: seq<Byte>)
    ensures |s| == 8
  {
    Be(SECTOR_SIZE * value + flags, 8)
  }

  /** What a section carries before its end mark. The buffer of a chunk is always sent whole; `pad`
      is what it holds after the last sector of the disk. */
  datatype Item = Chunk(block: Block, pad: seq<Byte>) | Report(percent: nat)

  ghost predicate Padded(data: seq<Sector>, pad: seq<Byte>) {
    Whole(data) && |Flatten(data)| + |pad| == CHUNK * SECTOR_SIZE
  }

  function EncodeChunk(name: Name, b: Block, pad: seq<Byte>): seq<Byte>
    requires |name| < 256
  {
    Header(b.chunk * CHUNK, DEVICE_BLOCK) + (NameField(name, false) + (Flatten(b.data) + pad))
  }

  ghost predicate ValidNames(names: seq<Name>) {
    && (forall d | 0 <= d < |names| :: ValidName(names[d]))
    && forall d, e | 0 <= d < e < |names| :: names[d] != names[e]
  }

  /** Sector numbers fit the header: a disk has less than 2^63 bytes. */
  ghost predicate Addressable(disks: Disks) {
    forall d | 0 <= d < |disks| :: |disks[d]| * SECTOR_SIZE < 0x8000_0000_0000_0000
  }

  ghost predicate Fits(names: seq<Name>, disks: Disks, item: Item) {
    match item
    case Chunk(b, pad) =>
      && b.dev < |names| == |disks|
      && b.chunk * CHUNK < |disks[b.dev]| && |b.data| == ChunkLength(|disks[b.dev]|, b.chunk)
      && Padded(b.data, pad)
    case Report(percent) => percent <= 100
  }

  ghost predicate AllFit(names: seq<Name>, disks: Disks, items: seq<Item>) {
    forall i | 0 <= i < |items| :: Fits(names, disks, items[i])
  }

  ghost function Encode(names: seq<Name>, disks: Disks, item: Item): seq<Byte>
    requires ValidNames(names) && Fits(names, disks, item)
  {
    match item
    case Chunk(b, pad) => EncodeChunk(names[b.dev], b, pad)
    case Report(percent) => Header(percent, PROGRESS)
  }

  ghost function EncodeSection(names: seq<Name>, disks: Disks, items: seq<Item>): seq<Byte>
    requires ValidNames(names) && AllFit(names, disks, items)
  {
    if items == [] then Header(0, EOS)
    else Encode(names, disks, items[0]) + EncodeSection(names, disks, items[1..])
  }

  /** The chunks among the items, in order. */
  function Chunks(items: seq<Item>): seq<Block> {
    if items == [] then []
    else (if items[0].Chunk? then [items[0].block] else []) + Chunks(items[1..])
  }

  // ---- reading ----

  /** bdrv_find: the first device at or after `d` with this name. */
  function Find(names: seq<Name>, d: nat, name: Name): (r: Option<nat>)
    requires d <= |names|
    ensures r.Some? ==> d <= r.value < |names| && names[r.value] == name
    ensures r.None? ==> forall e | d <= e < |names| :: names[e] != name
    decreases |names| - d
  {
    if d == |names| then None else if names[d] == name then Some(d) else Find(names, d + 1, name)
  }

  /** A 64-bit word as a signed number. */
  function Signed(n: nat): int {
    if n < 0x8000_0000_0000_0000 then n else n - 0x1_0000_0000_0000_0000
  }

  /** bdrv_write: sectors from `sector` on are replaced; None when they do not lie on the disk. */
  function WriteSectors(disk: seq<Sector>, sector: int, data: seq<Sector>): (r: Option<seq<Sector>>)
    ensures r.Some? ==> |r.value| == |disk|
  {
    if sector < 0 || sector + |data| > |disk| then None
    else Some(disk[..sector] + data + disk[sector + |data|..])
  }

  /** A receiver: its disks and its input. */
  datatype Receiver = Receiver(disks: Disks, stream: Stream)

  /** How many sectors of a chunk are written: a chunk is cut at the end of the disk. */
  function Length(total: nat, sector: int): int {
    if total - sector < CHUNK then total - sector else CHUNK
  }

  /** The part of a turn that reads a chunk: the new state, and 0 or an error. */
  function LoadChunk(names: seq<Name>, sector: int, s: Receiver): (r: (Receiver, int))
    requires |names| == |s.disks|
    ensures SameSizes(s.disks, r.0.disks) && |r.0.stream.input| <= |s.stream.input|
    ensures r.1 <= 0 && (s.stream.error ==> r.0.stream.error)
  {
    var name := GetName(s.stream);
    var found := Find(names, 0, CString(name.0));
    if found.None? || |s.disks[found.value]| == 0 then (s.(stream := name.1), -EINVAL)
    else
      var d := found.value;
      var data := Get(name.1, CHUNK * SECTOR_SIZE);
      var n := Length(|s.disks[d]|, sector);
      var disk := if n < 0 then None else WriteSectors(s.disks[d], sector, Cut(data.0, n));
      if disk.None? then (s.(stream := data.1), -EIO)
      else (Receiver(s.disks[d := disk.value], data.1), 0)
  }

  predicate SameSizes(a: Disks, b: Disks) {
    |a| == |b| && forall d | 0 <= d < |a| :: |a[d]| == |b[d]|
  }

  /** How a turn of the loop ends: another turn, or the return value. */
  datatype Turn = Again(next: Receiver) | Returned(last: Receiver, ret: int)

  function LoadTurn(names: seq<Name>, s: Receiver): (r: Turn)
    requires |names| == |s.disks|
    ensures r.Again? ==> |r.next.stream.input| < |s.stream.input| && SameSizes(s.disks, r.next.disks)
    ensures r.Returned? ==> SameSizes(s.disks, r.last.disks)
  {
    var word := Get(s.stream, 8);
    var n := FromBe(word.0);
    var flags := n % SECTOR_SIZE;
    var s1 := s.(stream := word.1);
    if HasFlag(flags, DEVICE_BLOCK) then
      var chunk := LoadChunk(names, Signed(n) / SECTOR_SIZE, s1);
      AtEnd(s);
      if chunk.1 < 0 then Returned(chunk.0, chunk.1) else After(flags, chunk.0)
    else if HasFlag(flags, PROGRESS) || HasFlag(flags, EOS) then
      AtEnd(s);
      After(flags, s1)
    else Returned(s1, -EINVAL)
  }

  /** The end of a turn. */
  function After(flags: nat, s: Receiver): Turn {
    if s.stream.error then Returned(s, -EIO) else if HasFlag(flags, EOS) then Returned(s, 0) else Again(s)
  }

  lemma AtEnd(s: Receiver)
    ensures s.stream.input == [] ==> FromBe(Get(s.stream, 8).0) == 0
  {
    if s.stream.input == [] {
      assert [] + Zeros(8) == Zeros(8);
      FromZeros(8);
    }
  }

  /** block_load: turns until an end mark or an error. */
  function Load(names: seq<Name>, s: Receiver): (r: (Receiver, int))
    requires |names| == |s.disks|
    ensures SameSizes(s.disks, r.0.disks)
    decreases |s.stream.input|
  {
    var turn := LoadTurn(names, s);
    if turn.Again? then Load(names, turn.next) else (turn.last, turn.ret)
  }

  /** The sections of a stream, one after the other; None when one of them is refused. */
  function LoadAll(names: seq<Name>, disks: Disks, sections: seq<seq<Byte>>): (r: Option<Disks>)
    requires |names| == |disks|
    decreases |sections|
  {
    if sections == [] then Some(disks)
    else
      var r := Load(names, Receiver(disks, Stream(sections[0], false)));
      if r.1 != 0 then None else LoadAll(names, r.0.disks, sections[1..])
  }
}
