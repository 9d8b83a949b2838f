/** What ram_load makes of a stream that is not all there, or was written for other blocks. */
module RamRefused {
  import opened Bytes
  import opened Options
  import opened QemuFile
  import opened RamLayout
  import opened RamStream
  import opened RamRoundTrip

  // ---- input that ends too soon ----

  function LongerLoader(s: Loader, more: seq<Byte>): Loader {
    s.(stream := Longer(s.stream, more))
  }

  lemma {:induction false} CheckLonger(blocks: seq<Block>, total: nat, s: Stream, more: seq<Byte>)
    requires ValidBlocks(blocks) && CheckBlocks(blocks, total, s).Some?
    requires !CheckBlocks(blocks, total, s).value.error
    ensures CheckBlocks(blocks, total, Longer(s, more)) == Some(Longer(CheckBlocks(blocks, total, s).value, more))
    decreases |s.input|
  {
    hide GetName, Get, FromBe, Find, CString, ValidBlocks;
    if total > 0 {
      var name := GetName(s);
      var length := Get(name.1, 8);
      ReadsAtEnd(s);
      GetNameLonger(s, more);
      GetLonger(name.1, 8, more);
      CheckLonger(blocks, (total - FromBe(length.0)) % 0x1_0000_0000_0000_0000, length.1, more);
    }
  }

  lemma LocateLonger(blocks: seq<Block>, page: nat, flags: nat, s: Loader, more: seq<Byte>)
    requires !Locate(blocks, page, flags, s).1.stream.error
    ensures var r := Locate(blocks, page, flags, s);
            Locate(blocks, page, flags, LongerLoader(s, more)) == (r.0, LongerLoader(r.1, more))
  {
    hide GetName, Find, CString, HasFlag;
    if !HasFlag(flags, CONTINUE) {
      GetNameLonger(s.stream, more);
    }
  }

  lemma LoadPageLonger(blocks: seq<Block>, page: nat, flags: nat, s: Loader, more: seq<Byte>)
    requires ValidBlocks(blocks) && ValidLoader(blocks, s)
    requires LoadPage(blocks, page, flags, s).Again? && !LoadPage(blocks, page, flags, s).next.stream.error
    ensures ValidLoader(blocks, LongerLoader(s, more))
    ensures LoadPage(blocks, page, flags, LongerLoader(s, more))
            == Again(LongerLoader(LoadPage(blocks, page, flags, s).next, more))
  {
    hide Locate, Get, HasFlag, Put, ValidBlocks;
    var there := Locate(blocks, page, flags, s);
    LocateLonger(blocks, page, flags, s, more);
    GetLonger(there.1.stream, if HasFlag(flags, COMPRESS) then 1 else 4096, more);
  }

  /** A turn that succeeds does the same whatever follows what it has read. */
  lemma TurnLonger(blocks: seq<Block>, s: Loader, more: seq<Byte>)
    requires ValidBlocks(blocks) && ValidLoader(blocks, s)
    ensures ValidLoader(blocks, LongerLoader(s, more))
    ensures match LoadTurn(blocks, s)
            case Again(r) => LoadTurn(blocks, LongerLoader(s, more)) == Again(LongerLoader(r, more))
            case Loaded(r) => !r.stream.error && LoadTurn(blocks, LongerLoader(s, more)) == Loaded(LongerLoader(r, more))
            case _ => true
  {
    hide Get, FromBe, HasFlag, CheckBlocks, LoadPage, ValidBlocks;
    var turn := LoadTurn(blocks, s);
    if turn.Again? || turn.Loaded? {
      var word := Get(s.stream, 8);
      var page, flags := FromBe(word.0) / 4096, FromBe(word.0) % 4096;
      var checked := if HasFlag(flags, MEM_SIZE) then CheckBlocks(blocks, 4096 * page, word.1) else Some(word.1);
      var t := s.(stream := checked.value);
      assert !checked.value.error;
      GetLonger(s.stream, 8, more);
      if HasFlag(flags, MEM_SIZE) {
        CheckLonger(blocks, 4096 * page, word.1, more);
      }
      if HasFlag(flags, COMPRESS) || HasFlag(flags, PAGE) {
        LoadPageLonger(blocks, page, flags, t, more);
      }
    }
  }

  /** A load that succeeds has read only what was there, and does not depend on what follows. */
  lemma {:induction false} LoadLonger(blocks: seq<Block>, s: Loader, more: seq<Byte>)
    requires ValidBlocks(blocks) && ValidLoader(blocks, s) && Load(blocks, s).Loaded?
    ensures ValidLoader(blocks, LongerLoader(s, more)) && !Load(blocks, s).last.stream.error
    ensures Load(blocks, LongerLoader(s, more)) == Loaded(LongerLoader(Load(blocks, s).last, more))
    decreases |s.stream.input|
  {
    hide LoadTurn, LongerLoader, ValidBlocks, ValidLoader;
    TurnLonger(blocks, s, more);
    var turn := LoadTurn(blocks, s);
    if turn.Again? {
      LoadLonger(blocks, turn.next, more);
    }
  }

  /** A section of which the end is missing is refused, wherever it was cut. */
  lemma TruncatedFails(blocks: seq<Block>, first: bool, writes: seq<PageWrite>, last: Option<nat>, s: Loader, k: nat)
    requires ValidBlocks(blocks) && ValidLoader(blocks, s) && AllInBlocks(blocks, writes)
    requires InStep(last, s.current)
    requires k < |Section(blocks, first, writes, last)|
    requires s.stream == Stream(Section(blocks, first, writes, last)[..k], false)
    ensures !Load(blocks, s).Loaded?
  {
    hide Load, Section, ValidBlocks, ValidLoader, AllInBlocks, Apply, LastBlock;
    var bytes := Section(blocks, first, writes, last);
    if Load(blocks, s).Loaded? {
      LoadLonger(blocks, s, bytes[k..]);
      assert bytes[..k] + bytes[k..] == bytes == bytes + [];
      SectionRoundTrip(blocks, first, writes, last, LongerLoader(s, bytes[k..]), []);
    }
  }

  lemma EndFails(blocks: seq<Block>, s: Loader)
    requires ValidBlocks(blocks) && ValidLoader(blocks, s) && s.stream == Stream([], false)
    ensures Load(blocks, s) == Failed(-EIO)
  {
    assert [] + Zeros(8) == Zeros(8);
    FromZeros(8);
    assert Get(s.stream, 8) == (Zeros(8), Stream([], true));
    hide Get, FromBe, CheckBlocks, LoadPage, ValidBlocks;
    assert !HasFlag(0, MEM_SIZE) && !HasFlag(0, COMPRESS) && !HasFlag(0, PAGE);
    assert LoadTurn(blocks, s) == Failed(-EIO);
  }

  /** When the connection is lost between two records, or before the end mark, the error of the file is
      returned. */
  lemma CutBetweenRecords(blocks: seq<Block>, first: bool, writes: seq<PageWrite>, last: Option<nat>, s: Loader)
    requires ValidBlocks(blocks) && ValidLoader(blocks, s) && AllInBlocks(blocks, writes)
    requires InStep(last, s.current)
    requires s.stream == Stream(SectionSoFar(blocks, first, writes, last), false)
    ensures Load(blocks, s) == Failed(-EIO)
  {
    hide Load, SectionSoFar, ValidBlocks, AllInBlocks, Apply, LastBlock;
    var bytes := SectionSoFar(blocks, first, writes, last);
    assert bytes + [] == bytes;
    SoFarRead(blocks, first, writes, last, s, []);
    EndFails(blocks, Loader(Apply(blocks, s.mem, writes), LastBlock(writes, s.current), Stream([], false)));
  }

  // ---- blocks the receiver does not have ----

  predicate Known(blocks: seq<Block>, a: Block) {
    exists i | 0 <= i < |blocks| :: blocks[i].id == a.id && blocks[i].pages == a.pages
  }

  /** What the receiver demands of each entry of the list. */
  ghost predicate AllKnown(blocks: seq<Block>, sender: seq<Block>) {
    forall j | 0 <= j < |sender| :: Known(blocks, sender[j])
  }

  lemma KnownOrNot(blocks: seq<Block>, a: Block)
    requires ValidBlocks(blocks) && ValidName(a.id)
    ensures var found := Find(blocks, 0, CString(a.id));
            Known(blocks, a) <==> found.Some? && blocks[found.value].pages == a.pages
  {
    hide Find;
    CStringOfName(a.id);
    var found := Find(blocks, 0, a.id);
    if Known(blocks, a) {
      var i :| 0 <= i < |blocks| && blocks[i].id == a.id && blocks[i].pages == a.pages;
      FindOwn(blocks, i);
    }
  }

  /** One entry of the list: taken off the count, or the list refused. */
  lemma {:induction false} EntryChecked(blocks: seq<Block>, a: Block, total: nat, rest: seq<Byte>)
    requires ValidBlocks(blocks) && ValidName(a.id) && 0 < 4096 * a.pages <= total < 0x1_0000_0000_0000_0000
    ensures CheckBlocks(blocks, total, Stream(NameField(a.id, false) + (Be(4096 * a.pages, 8) + rest), false))
            == if Known(blocks, a) then CheckBlocks(blocks, total - 4096 * a.pages, Stream(rest, false)) else None
  {
    hide GetName, Get, FromBe, Be, NameField, ValidBlocks, Pow256, Find, CString, Known;
    var bytes := 4096 * a.pages;
    var length := Be(bytes, 8);
    Pow256Of8();
    BeRoundTrip(bytes, 8);
    GetNameField(a.id, length + rest);
    GetPrefix(length, rest, false);
    KnownOrNot(blocks, a);
    NoWrap(total, bytes);
  }

  /** The list of a sender is accepted by a receiver exactly when it has every block, with that length. */
  lemma {:induction false} ListExact(blocks: seq<Block>, sender: seq<Block>, i: nat, rest: seq<Byte>)
    requires ValidBlocks(blocks) && ValidBlocks(sender) && i <= |sender|
    requires 4096 * TotalPages(sender[i..]) < 0x1_0000_0000_0000_0000
    ensures NamesFit(sender[i..])
    ensures CheckBlocks(blocks, 4096 * TotalPages(sender[i..]), Stream(EncodeBlocks(sender[i..]) + rest, false))
            == if AllKnown(blocks, sender[i..]) then Some(Stream(rest, false)) else None
    decreases |sender| - i
  {
    hide CheckBlocks, EncodeBlocks, TotalPages, Be, NameField, ValidBlocks, NamesFit, AllKnown, Known;
    NamesFitFrom(sender, i);
    if i == |sender| {
      assert sender[i..] == [];
      ListEnds(blocks, rest);
    } else {
      EncodeBlocksFrom(sender, i);
      EntryValid(sender, i);
      AllKnownFrom(blocks, sender, i);
      var others := EncodeBlocks(sender[i + 1..]);
      Associative4(NameField(sender[i].id, false), Be(4096 * sender[i].pages, 8), others, rest);
      var total, left := 4096 * TotalPages(sender[i..]), 4096 * TotalPages(sender[i + 1..]);
      assert total - 4096 * sender[i].pages == left;
      EntryChecked(blocks, sender[i], total, others + rest);
      ListExact(blocks, sender, i + 1, rest);
    }
  }

  lemma ListEnds(blocks: seq<Block>, rest: seq<Byte>)
    requires ValidBlocks(blocks)
    ensures NamesFit([]) && AllKnown(blocks, [])
    ensures CheckBlocks(blocks, 4096 * TotalPages([]), Stream(EncodeBlocks([]) + rest, false)) == Some(Stream(rest, false))
  {
    assert EncodeBlocks([]) + rest == rest;
  }

  lemma EntryValid(sender: seq<Block>, i: nat)
    requires ValidBlocks(sender) && i < |sender|
    ensures ValidName(sender[i].id) && sender[i].pages > 0
  {
  }

  lemma AllKnownFrom(blocks: seq<Block>, sender: seq<Block>, i: nat)
    requires i < |sender|
    ensures AllKnown(blocks, sender[i..]) <==> Known(blocks, sender[i]) && AllKnown(blocks, sender[i + 1..])
  {
    hide Known;
    var from, after := sender[i..], sender[i + 1..];
    assert forall j | 0 <= j < |after| :: after[j] == from[j + 1];
    assert from[0] == sender[i];
    if Known(blocks, sender[i]) && AllKnown(blocks, after) {
      forall j | 0 <= j < |from| ensures Known(blocks, from[j]) {
        assert j > 0 ==> from[j] == after[j - 1];
      }
    }
  }

  /** A first section is read beyond its list of blocks exactly when the receiver has all of them. */
  lemma StartExact(blocks: seq<Block>, sender: seq<Block>, s: Loader, rest: seq<Byte>)
    requires ValidBlocks(blocks) && ValidLoader(blocks, s) && ValidBlocks(sender) && NamesFit(sender)
    requires s.stream == Stream(EncodeStart(sender) + rest, false)
    ensures if AllKnown(blocks, sender)
            then LoadTurn(blocks, s) == Again(s.(stream := Stream(rest, false)))
            else LoadTurn(blocks, s) == Failed(-EINVAL)
  {
    var header, list := Header(TotalPages(sender), MEM_SIZE), EncodeBlocks(sender);
    assert sender[0..] == sender;
    assert 4096 * TotalPages(sender) + 4 < 0x1_0000_0000_0000_0000;
    assert EncodeStart(sender) == header + list;
    Associative(header, list, rest);
    StartFlagsRead();
    hide Get, CheckBlocks, EncodeStart, EncodeBlocks, Header, ValidBlocks, ValidLoader, NamesFit, TotalPages, HasFlag,
      FromBe, AllKnown;
    GetHeader(TotalPages(sender), MEM_SIZE, list + rest);
    ListExact(blocks, sender, 0, rest);
    var word := Get(s.stream, 8);
    assert 4096 * (FromBe(word.0) / 4096) == 4096 * TotalPages(sender);
  }

  /** A page record that names a block the receiver does not have: a fill record is refused, and the bytes of
      a page would go to no block. */
  lemma UnknownBlock(blocks: seq<Block>, page: nat, dup: bool, name: seq<Byte>, rest: seq<Byte>, s: Loader)
    requires ValidBlocks(blocks) && ValidLoader(blocks, s) && ValidName(name) && 4096 * page + 4095 < 0x1_0000_0000_0000_0000
    requires forall i | 0 <= i < |blocks| :: blocks[i].id != name
    requires s.stream == Stream(Header(page, PageFlags(false, dup)) + (NameField(name, false) + rest), false)
    ensures LoadTurn(blocks, s) == if dup then Failed(-EINVAL) else if rest == [] then Failed(-EIO) else Fault
  {
    hide Get, GetName, Header, HasFlag, FromBe, Find, CString, NameField, ValidBlocks, CheckBlocks, PageFlags;
    PageFlagsRead(false, dup);
    GetHeader(page, PageFlags(false, dup), NameField(name, false) + rest);
    GetNameField(name, rest);
    CStringOfName(name);
    assert Find(blocks, 0, name).None?;
  }
}
