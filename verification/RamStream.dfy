/** The RAM section of a migration stream: how pages are written to it and read back. */
module RamStream {
  import opened Options
  import opened QemuFile
  import opened RamLayout

  // ---- flags in the low bits of a page offset ----

  const COMPRESS: nat := 0x02
  const MEM_SIZE: nat := 0x04
  const PAGE: nat := 0x08
  const EOS: nat := 0x10
  const CONTINUE: nat := 0x20

  /** A header word: a page number, and flags in the twelve bits below it. */
  function Header(page: nat, flags: nat): (s: seq<Byte>)
    ensures |s| == 8
  {
    Be(4096 * page + flags, 8)
  }

  // ---- writing ----

  predicate IsDup(data: Page) {
    forall i | 0 <= i < 4096 :: data[i] == data[0]
  }

  /** One page record. `last` is the block of the record before, if there was one. */
  function EncodePage(blocks: seq<Block>, w: PageWrite, last: Option<nat>): seq<Byte>
    requires InBlocks(blocks, w.place) && |blocks[w.place.block].id| < 256
  {
    var cont := last == Some(w.place.block);
    Header(w.place.page, PageFlags(cont, IsDup(w.data)))
    + (NameField(blocks[w.place.block].id, cont) + Payload(w.data))
  }

  function PageFlags(cont: bool, dup: bool): nat {
    (if cont then CONTINUE else 0) + (if dup then COMPRESS else PAGE)
  }

  function Payload(data: Page): seq<Byte> {
    if IsDup(data) then [data[0]] else data
  }

  /** The block of the last record. */
  function LastBlock(writes: seq<PageWrite>, last: Option<nat>): Option<nat> {
    if writes == [] then last else Some(writes[|writes| - 1].place.block)
  }

  ghost function EncodePages(blocks: seq<Block>, writes: seq<PageWrite>, last: Option<nat>): seq<Byte>
    requires ValidBlocks(blocks) && AllInBlocks(blocks, writes)
  {
    if writes == [] then []
    else EncodePage(blocks, writes[0], last)
         + EncodePages(blocks, writes[1..], Some(writes[0].place.block))
  }

  lemma {:induction false} EncodePagesSnoc(blocks: seq<Block>, writes: seq<PageWrite>, w: PageWrite, last: Option<nat>)
    requires ValidBlocks(blocks) && AllInBlocks(blocks, writes) && InBlocks(blocks, w.place)
    ensures AllInBlocks(blocks, writes + [w])
    ensures EncodePages(blocks, writes + [w], last)
            == EncodePages(blocks, writes, last) + EncodePage(blocks, w, LastBlock(writes, last))
  {
    hide EncodePage;
    if writes == [] {
      assert (writes + [w])[1..] == [];
    } else {
      assert (writes + [w])[1..] == writes[1..] + [w];
      EncodePagesSnoc(blocks, writes[1..], w, Some(writes[0].place.block));
    }
  }

  ghost predicate NamesFit(blocks: seq<Block>) {
    forall i | 0 <= i < |blocks| :: |blocks[i].id| < 256
  }

  lemma NamesFitFrom(blocks: seq<Block>, i: nat)
    requires ValidBlocks(blocks) && i <= |blocks|
    ensures NamesFit(blocks[i..])
  {
  }

  /** The list of blocks and their lengths, as the first section carries it. */
  function EncodeBlocks(blocks: seq<Block>): seq<Byte>
    requires NamesFit(blocks)
  {
    if blocks == [] then []
    else NameField(blocks[0].id, false) + (Be(4096 * blocks[0].pages, 8) + EncodeBlocks(blocks[1..]))
  }

  function EncodeStart(blocks: seq<Block>): seq<Byte>
    requires NamesFit(blocks)
  {
    Header(TotalPages(blocks), MEM_SIZE) + EncodeBlocks(blocks)
  }

  // ---- reading ----

  /** The first block at or after `i` with this name. */
  function Find(blocks: seq<Block>, i: nat, name: seq<Byte>): (r: Option<nat>)
    requires i <= |blocks|
    ensures r.Some? ==> i <= r.value < |blocks| && blocks[r.value].id == name
    ensures r.None? ==> forall j | i <= j < |blocks| :: blocks[j].id != name
    decreases |blocks| - i
  {
    if i == |blocks| then None else if blocks[i].id == name then Some(i) else Find(blocks, i + 1, name)
  }

  lemma FindOwn(blocks: seq<Block>, b: nat)
    requires ValidBlocks(blocks) && b < |blocks|
    ensures Find(blocks, 0, CString(blocks[b].id)) == Some(b)
  {
    CStringOfName(blocks[b].id);
  }

  /** A receiver: its memory, the block of the last page record, and its input. */
  datatype Loader = Loader(mem: Memory, current: Option<nat>, stream: Stream)

  ghost predicate ValidLoader(blocks: seq<Block>, s: Loader) {
    HasShape(blocks, s.mem) && (s.current.Some? ==> s.current.value < |blocks|)
  }

  /**
   * Check the list of blocks against our own, until `total` bytes are accounted for; None when a
   * name is unknown or a length differs. The count of bytes left wraps at 64 bits.
   */
  ghost function CheckBlocks(blocks: seq<Block>, total: nat, s: Stream): (r: Option<Stream>)
    requires ValidBlocks(blocks)
    ensures r.Some? ==> |r.value.input| <= |s.input| && (s.error ==> r.value.error)
    decreases |s.input|
  {
    if total == 0 then Some(s)
    else
      var name := GetName(s);
      var length := Get(name.1, 8);
      var found := Find(blocks, 0, CString(name.0));
      if found.None? || 4096 * blocks[found.value].pages != FromBe(length.0) then None
      else
        ReadsAtEnd(s);
        CheckBlocks(blocks, (total - FromBe(length.0)) % 0x1_0000_0000_0000_0000, length.1)
  }

  /** host_from_stream_offset: where a page record goes. None stands for the null pointer. */
  function Locate(blocks: seq<Block>, page: nat, flags: nat, s: Loader): (r: (Option<Place>, Loader))
  {
    if HasFlag(flags, CONTINUE) then
      (if s.current.None? then None else Some(Place(s.current.value, page)), s)
    else
      var name := GetName(s.stream);
      var found := Find(blocks, 0, CString(name.0));
      (if found.None? then None else Some(Place(found.value, page)), s.(current := found, stream := name.1))
  }

  /** What one turn of ram_load's loop, or all of them, comes to. Fault: a write outside every block. */
  datatype Turn = Again(next: Loader) | Loaded(last: Loader) | Failed(ret: int) | Fault

  /** Read one page record: a byte to fill the page with, or the page. Reading a page at the end of the
      input touches no memory. */
  ghost function LoadPage(blocks: seq<Block>, page: nat, flags: nat, s: Loader): (r: Turn)
    requires ValidBlocks(blocks) && ValidLoader(blocks, s)
    ensures r.Again? ==> ValidLoader(blocks, r.next) && |r.next.stream.input| <= |s.stream.input|
    ensures r.Again? && s.stream.error ==> r.next.stream.error
    ensures !r.Loaded?
  {
    var there := Locate(blocks, page, flags, s);
    if there.0.None? && HasFlag(flags, COMPRESS) then Failed(-EINVAL)
    else if there.0.None? || !InBlocks(blocks, there.0.value) then
      if !HasFlag(flags, COMPRESS) && there.1.stream.input == [] then Failed(-EIO) else Fault
    else
      var got := Get(there.1.stream, if HasFlag(flags, COMPRESS) then 1 else 4096);
      var data: Page := if HasFlag(flags, COMPRESS) then seq(4096, _ => got.0[0]) else got.0;
      PutAt(blocks, s.mem, there.0.value, data);
      Again(there.1.(mem := Put(s.mem, there.0.value, data), stream := got.1))
  }

  /** One turn of the loop of ram_load (version 4). */
  ghost function LoadTurn(blocks: seq<Block>, s: Loader): (r: Turn)
    requires ValidBlocks(blocks) && ValidLoader(blocks, s)
    ensures r.Again? ==> ValidLoader(blocks, r.next) && |r.next.stream.input| < |s.stream.input|
    ensures r.Loaded? ==> ValidLoader(blocks, r.last)
  {
    var word := Get(s.stream, 8);
    var page, flags := FromBe(word.0) / 4096, FromBe(word.0) % 4096;
    var checked := if HasFlag(flags, MEM_SIZE) then CheckBlocks(blocks, 4096 * page, word.1) else Some(word.1);
    if checked.None? then Failed(-EINVAL)
    else
      var after :=
        if HasFlag(flags, COMPRESS) || HasFlag(flags, PAGE)
        then LoadPage(blocks, page, flags, s.(stream := checked.value))
        else Again(s.(stream := checked.value));
      if !after.Again? then after
      else if after.next.stream.error then Failed(-EIO)
      else if HasFlag(flags, EOS) then Loaded(after.next)
      else after
  }

  /** The loop of ram_load. */
  ghost function Load(blocks: seq<Block>, s: Loader): (r: Turn)
    requires ValidBlocks(blocks) && ValidLoader(blocks, s)
    ensures !r.Again? && (r.Loaded? ==> ValidLoader(blocks, r.last))
    decreases |s.stream.input|
  {
    var turn := LoadTurn(blocks, s);
    if turn.Again? then Load(blocks, turn.next) else turn
  }
}
