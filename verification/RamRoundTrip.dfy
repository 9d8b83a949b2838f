/** Reading a RAM section back: every sender's section decodes to exactly the pages it was sent. */
module RamRoundTrip {
  import opened Bytes
  import opened Options
  import opened QemuFile
  import opened RamLayout
  import opened RamStream

  lemma GetHeader(page: nat, flags: nat, rest: seq<Byte>)
    requires flags < 4096 && 4096 * page + flags < 0x1_0000_0000_0000_0000
    ensures var word := Get(Stream(Header(page, flags) + rest, false), 8);
            word.1 == Stream(rest, false) && FromBe(word.0) / 4096 == page && FromBe(word.0) % 4096 == flags
  {
    Pow256Of8();
    BeRoundTrip(4096 * page + flags, 8);
    GetPrefix(Header(page, flags), rest, false);
  }

  // ---- the block list ----

  lemma {:induction false} TotalPagesCons(blocks: seq<Block>)
    requires blocks != []
    ensures TotalPages(blocks) == blocks[0].pages + TotalPages(blocks[1..])
  {
    if |blocks| > 1 {
      var n := |blocks| - 1;
      assert blocks[..n][1..] == blocks[1..][..n - 1];
      TotalPagesCons(blocks[..n]);
    }
  }

  lemma NoWrap(total: nat, length: nat)
    requires length <= total < 0x1_0000_0000_0000_0000
    ensures (total - length) % 0x1_0000_0000_0000_0000 == total - length
  {
  }

  /** One turn of the block-list loop, given what it reads. */
  lemma {:induction false} CheckTurn(blocks: seq<Block>, i: nat, total: nat, s: Stream, t: Stream, u: Stream, length: seq<Byte>)
    requires ValidBlocks(blocks) && i < |blocks| && total > 0
    requires GetName(s) == (blocks[i].id, t) && Get(t, 8) == (length, u)
    requires FromBe(length) == 4096 * blocks[i].pages
    ensures CheckBlocks(blocks, total, s) ==
            CheckBlocks(blocks, (total - 4096 * blocks[i].pages) % 0x1_0000_0000_0000_0000, u)
  {
    hide GetName, Get, FromBe, Find, CString;
    FindOwn(blocks, i);
  }

  /** Reading the entry of block `i` takes exactly its length off the count. */
  lemma {:induction false} CheckOne(blocks: seq<Block>, i: nat, total: nat, rest: seq<Byte>)
    requires ValidBlocks(blocks) && i < |blocks|
    requires 4096 * blocks[i].pages <= total < 0x1_0000_0000_0000_0000
    ensures CheckBlocks(blocks, total, Stream(NameField(blocks[i].id, false) + (Be(4096 * blocks[i].pages, 8) + rest), false))
            == CheckBlocks(blocks, total - 4096 * blocks[i].pages, Stream(rest, false))
  {
    var bytes := 4096 * blocks[i].pages;
    var id, length := blocks[i].id, Be(bytes, 8);
    assert ValidName(id) && blocks[i].pages > 0;
    hide CheckBlocks, GetName, Get, FromBe, Be, NameField, ValidBlocks, Pow256;
    Pow256Of8();
    BeRoundTrip(bytes, 8);
    var s, t, u := Stream(NameField(id, false) + (length + rest), false), Stream(length + rest, false), Stream(rest, false);
    GetNameField(id, length + rest);
    GetPrefix(length, rest, false);
    CheckTurn(blocks, i, total, s, t, u, length);
    NoWrap(total, bytes);
    assert CheckBlocks(blocks, total, s) == CheckBlocks(blocks, total - bytes, u);
  }

  /** The entries from block `i` on: that of block `i`, then the others. */
  lemma EncodeBlocksFrom(blocks: seq<Block>, i: nat)
    requires ValidBlocks(blocks) && i < |blocks|
    ensures NamesFit(blocks[i..]) && NamesFit(blocks[i + 1..]) && |blocks[i].id| < 256
    ensures EncodeBlocks(blocks[i..]) ==
            NameField(blocks[i].id, false) + (Be(4096 * blocks[i].pages, 8) + EncodeBlocks(blocks[i + 1..]))
    ensures TotalPages(blocks[i..]) == blocks[i].pages + TotalPages(blocks[i + 1..])
  {
    NamesFitFrom(blocks, i);
    NamesFitFrom(blocks, i + 1);
    assert blocks[i..][1..] == blocks[i + 1..];
    TotalPagesCons(blocks[i..]);
  }

  /** The block-list loop ends exactly where the list ends. */
  lemma {:induction false} CheckBlocksReads(blocks: seq<Block>, i: nat, rest: seq<Byte>)
    requires ValidBlocks(blocks) && i <= |blocks|
    requires 4096 * TotalPages(blocks[i..]) < 0x1_0000_0000_0000_0000
    ensures NamesFit(blocks[i..])
    ensures CheckBlocks(blocks, 4096 * TotalPages(blocks[i..]), Stream(EncodeBlocks(blocks[i..]) + rest, false))
            == Some(Stream(rest, false))
    decreases |blocks| - i
  {
    NamesFitFrom(blocks, i);
    if i == |blocks| {
      assert blocks[i..] == [] && EncodeBlocks(blocks[i..]) + rest == rest;
    } else {
      hide CheckBlocks, EncodeBlocks, TotalPages, Be, NameField, ValidBlocks, NamesFit;
      EncodeBlocksFrom(blocks, i);
      var others := EncodeBlocks(blocks[i + 1..]);
      Associative4(NameField(blocks[i].id, false), Be(4096 * blocks[i].pages, 8), others, rest);
      var total, left := 4096 * TotalPages(blocks[i..]), 4096 * TotalPages(blocks[i + 1..]);
      assert total - 4096 * blocks[i].pages == left;
      CheckOne(blocks, i, total, others + rest);
      CheckBlocksReads(blocks, i + 1, rest);
      assert CheckBlocks(blocks, left, Stream(others + rest, false)) == Some(Stream(rest, false));
    }
  }

  // ---- page records ----

  lemma PageFlagsRead(cont: bool, dup: bool)
    ensures var flags := PageFlags(cont, dup);
            && 0 < flags < 4096
            && HasFlag(flags, CONTINUE) == cont && HasFlag(flags, COMPRESS) == dup && HasFlag(flags, PAGE) == !dup
            && !HasFlag(flags, MEM_SIZE) && !HasFlag(flags, EOS)
  {
  }

  /** The receiver's block agrees with the sender's, unless the sender has none. */
  predicate InStep(last: Option<nat>, current: Option<nat>) {
    last.None? || last == current
  }

  /** Either way of naming the block finds the sender's block. */
  lemma LocateReads(blocks: seq<Block>, w: PageWrite, last: Option<nat>, flags: nat, s: Loader, rest: seq<Byte>)
    requires ValidBlocks(blocks) && InBlocks(blocks, w.place) && InStep(last, s.current)
    requires HasFlag(flags, CONTINUE) <==> last == Some(w.place.block)
    requires |blocks[w.place.block].id| < 256
    requires s.stream == Stream(NameField(blocks[w.place.block].id, last == Some(w.place.block)) + rest, false)
    ensures Locate(blocks, w.place.page, flags, s)
            == (Some(w.place), s.(current := Some(w.place.block), stream := Stream(rest, false)))
  {
    var id := blocks[w.place.block].id;
    if last == Some(w.place.block) {
      assert [] + rest == rest;
    } else {
      hide GetName, HasFlag, CString, Find;
      GetNameField(id, rest);
      FindOwn(blocks, w.place.block);
    }
  }

  lemma DupPage(data: Page)
    requires IsDup(data)
    ensures data == seq(4096, _ => data[0])
  {
  }

  /** The record of a page, once its block is found, writes that page. */
  lemma LoadPageReads(blocks: seq<Block>, w: PageWrite, last: Option<nat>, flags: nat, s: Loader, rest: seq<Byte>)
    requires ValidBlocks(blocks) && ValidLoader(blocks, s) && InBlocks(blocks, w.place)
    requires HasFlag(flags, COMPRESS) <==> IsDup(w.data)
    requires Locate(blocks, w.place.page, flags, s)
             == (Some(w.place), s.(current := Some(w.place.block), stream := Stream(Payload(w.data) + rest, false)))
    ensures LoadPage(blocks, w.place.page, flags, s)
            == Again(Loader(Put(s.mem, w.place, w.data), Some(w.place.block), Stream(rest, false)))
  {
    hide Locate, HasFlag, Get, Put;
    GetPrefix(Payload(w.data), rest, false);
    if IsDup(w.data) {
      DupPage(w.data);
    }
  }

  /** One turn reads one page record. */
  lemma TurnReadsPage(blocks: seq<Block>, w: PageWrite, last: Option<nat>, s: Loader, rest: seq<Byte>)
    requires ValidBlocks(blocks) && ValidLoader(blocks, s) && InBlocks(blocks, w.place) && InStep(last, s.current)
    requires |blocks[w.place.block].id| < 256
    requires s.stream == Stream(EncodePage(blocks, w, last) + rest, false)
    ensures LoadTurn(blocks, s)
            == Again(Loader(Put(s.mem, w.place, w.data), Some(w.place.block), Stream(rest, false)))
  {
    var cont := last == Some(w.place.block);
    var flags := PageFlags(cont, IsDup(w.data));
    var name := NameField(blocks[w.place.block].id, cont);
    var header := Header(w.place.page, flags);
    PageFits(blocks, w.place);
    PageFlagsRead(cont, IsDup(w.data));
    assert EncodePage(blocks, w, last) == header + (name + Payload(w.data));
    hide Get, LoadPage, Locate, HasFlag, EncodePage, PageFlags, NameField, Payload, ValidBlocks, ValidLoader, Put, Header, IsDup;
    Associative4(header, name, Payload(w.data), rest);
    GetHeader(w.place.page, flags, name + (Payload(w.data) + rest));
    var t := s.(stream := Stream(name + (Payload(w.data) + rest), false));
    ValidLoaderStream(blocks, s, t.stream);
    LocateReads(blocks, w, last, flags, t, Payload(w.data) + rest);
    LoadPageReads(blocks, w, last, flags, t, rest);
  }

  lemma ValidLoaderStream(blocks: seq<Block>, s: Loader, stream: Stream)
    requires ValidLoader(blocks, s)
    ensures ValidLoader(blocks, s.(stream := stream))
  {
  }

  /** Page offsets leave room for the flags. */
  lemma PageFits(blocks: seq<Block>, p: Place)
    requires ValidBlocks(blocks) && InBlocks(blocks, p)
    ensures 4096 * p.page + 4095 < 0x1_0000_0000_0000_0000
  {
    IndexInRange(blocks, p);
  }

  lemma StartFlagsRead()
    ensures HasFlag(MEM_SIZE, MEM_SIZE) && !HasFlag(MEM_SIZE, COMPRESS) && !HasFlag(MEM_SIZE, PAGE)
    ensures !HasFlag(MEM_SIZE, EOS)
  {
  }

  /** One turn reads the header of the first section, and the whole block list. */
  lemma TurnReadsStart(blocks: seq<Block>, s: Loader, rest: seq<Byte>)
    requires ValidBlocks(blocks) && ValidLoader(blocks, s) && NamesFit(blocks)
    requires s.stream == Stream(EncodeStart(blocks) + rest, false)
    ensures LoadTurn(blocks, s) == Again(s.(stream := Stream(rest, false)))
  {
    var header, list := Header(TotalPages(blocks), MEM_SIZE), EncodeBlocks(blocks);
    assert blocks[0..] == blocks;
    assert 4096 * TotalPages(blocks) + 4 < 0x1_0000_0000_0000_0000;
    assert EncodeStart(blocks) == header + list;
    Associative(header, list, rest);
    StartFlagsRead();
    hide Get, CheckBlocks, EncodeStart, EncodeBlocks, Header, ValidBlocks, ValidLoader, NamesFit, TotalPages, HasFlag, FromBe;
    GetHeader(TotalPages(blocks), MEM_SIZE, list + rest);
    CheckBlocksReads(blocks, 0, rest);
    var word := Get(s.stream, 8);
    assert 4096 * (FromBe(word.0) / 4096) == 4096 * TotalPages(blocks);
    assert CheckBlocks(blocks, 4096 * (FromBe(word.0) / 4096), word.1) == Some(Stream(rest, false));
  }

  /** One turn reads the end mark. */
  lemma TurnReadsEnd(blocks: seq<Block>, s: Loader, rest: seq<Byte>)
    requires ValidBlocks(blocks) && ValidLoader(blocks, s)
    requires s.stream == Stream(Header(0, EOS) + rest, false)
    ensures LoadTurn(blocks, s) == Loaded(s.(stream := Stream(rest, false)))
  {
    hide Get, Header, ValidBlocks, ValidLoader;
    GetHeader(0, EOS, rest);
  }

  // ---- whole sections ----

  lemma LoadOnce(blocks: seq<Block>, s: Loader, t: Loader)
    requires ValidBlocks(blocks) && ValidLoader(blocks, s) && ValidLoader(blocks, t)
    requires LoadTurn(blocks, s) == Again(t)
    ensures Load(blocks, s) == Load(blocks, t)
  {
    hide LoadTurn;
  }

  lemma LoadEnds(blocks: seq<Block>, s: Loader, t: Loader)
    requires ValidBlocks(blocks) && ValidLoader(blocks, s)
    requires LoadTurn(blocks, s) == Loaded(t)
    ensures Load(blocks, s) == Loaded(t)
  {
    hide LoadTurn;
  }

  /** The first record of a section, and the others. */
  lemma PagesCons(blocks: seq<Block>, writes: seq<PageWrite>, last: Option<nat>, s: Loader)
    requires ValidBlocks(blocks) && ValidLoader(blocks, s) && AllInBlocks(blocks, writes) && writes != []
    ensures var w, more := writes[0], writes[1..];
            && InBlocks(blocks, w.place) && AllInBlocks(blocks, more) && |blocks[w.place.block].id| < 256
            && EncodePages(blocks, writes, last)
               == EncodePage(blocks, w, last) + EncodePages(blocks, more, Some(w.place.block))
            && HasShape(blocks, Put(s.mem, w.place, w.data))
            && Apply(blocks, s.mem, writes) == Apply(blocks, Put(s.mem, w.place, w.data), more)
            && LastBlock(writes, s.current) == LastBlock(more, Some(w.place.block))
  {
    hide EncodePage, Put;
    assert ValidName(blocks[writes[0].place.block].id);
    PutAt(blocks, s.mem, writes[0].place, writes[0].data);
  }

  /** Page records decode to exactly the pages sent, in order, whatever follows them. */
  lemma {:induction false} PagesRead(blocks: seq<Block>, writes: seq<PageWrite>, last: Option<nat>, s: Loader,
                                     rest: seq<Byte>)
    requires ValidBlocks(blocks) && ValidLoader(blocks, s) && AllInBlocks(blocks, writes)
    requires InStep(last, s.current)
    requires s.stream == Stream(EncodePages(blocks, writes, last) + rest, false)
    ensures var t := Loader(Apply(blocks, s.mem, writes), LastBlock(writes, s.current), Stream(rest, false));
            ValidLoader(blocks, t) && Load(blocks, s) == Load(blocks, t)
    decreases |writes|
  {
    if writes == [] {
      assert EncodePages(blocks, writes, last) + rest == rest;
    } else {
      PagesCons(blocks, writes, last, s);
      var w, more := writes[0], writes[1..];
      var others := EncodePages(blocks, more, Some(w.place.block));
      var t := Loader(Put(s.mem, w.place, w.data), Some(w.place.block), Stream(others + rest, false));
      assert ValidLoader(blocks, t);
      hide LoadTurn, Load, LastBlock, EncodePage, EncodePages, Header, Put, Apply, ValidBlocks, ValidLoader, AllInBlocks;
      Associative(EncodePage(blocks, w, last), others, rest);
      TurnReadsPage(blocks, w, last, s, others + rest);
      LoadOnce(blocks, s, t);
      PagesRead(blocks, more, Some(w.place.block), t, rest);
    }
  }

  /** A section so far: the block list if it is the first, and page records. */
  ghost function SectionSoFar(blocks: seq<Block>, first: bool, writes: seq<PageWrite>, last: Option<nat>): seq<Byte>
    requires ValidBlocks(blocks) && AllInBlocks(blocks, writes)
  {
    NamesFitFrom(blocks, 0);
    assert blocks[0..] == blocks;
    (if first then EncodeStart(blocks) else []) + EncodePages(blocks, writes, last)
  }

  /** A whole section ends with the end mark. */
  ghost function Section(blocks: seq<Block>, first: bool, writes: seq<PageWrite>, last: Option<nat>): seq<Byte>
    requires ValidBlocks(blocks) && AllInBlocks(blocks, writes)
  {
    SectionSoFar(blocks, first, writes, last) + Header(0, EOS)
  }

  /** A section so far has no error, and leads to exactly the pages sent, whatever follows it. */
  lemma SoFarRead(blocks: seq<Block>, first: bool, writes: seq<PageWrite>, last: Option<nat>, s: Loader,
                  rest: seq<Byte>)
    requires ValidBlocks(blocks) && ValidLoader(blocks, s) && AllInBlocks(blocks, writes)
    requires InStep(last, s.current)
    requires s.stream == Stream(SectionSoFar(blocks, first, writes, last) + rest, false)
    ensures var t := Loader(Apply(blocks, s.mem, writes), LastBlock(writes, s.current), Stream(rest, false));
            ValidLoader(blocks, t) && Load(blocks, s) == Load(blocks, t)
  {
    NamesFitFrom(blocks, 0);
    assert blocks[0..] == blocks;
    var pages := EncodePages(blocks, writes, last);
    var start := if first then EncodeStart(blocks) else [];
    assert SectionSoFar(blocks, first, writes, last) == start + pages;
    var t := s.(stream := Stream(pages + rest, false));
    assert ValidLoader(blocks, t);
    hide LoadTurn, Load, SectionSoFar, EncodePages, Header, ValidBlocks, ValidLoader, AllInBlocks, EncodeStart, NamesFit;
    Associative(start, pages, rest);
    if first {
      TurnReadsStart(blocks, s, pages + rest);
      LoadOnce(blocks, s, t);
    } else {
      assert [] + (pages + rest) == pages + rest;
    }
    PagesRead(blocks, writes, last, t, rest);
  }

  /** Any section of a sender loads with no error, to exactly the pages sent and no further. */
  lemma SectionRoundTrip(blocks: seq<Block>, first: bool, writes: seq<PageWrite>, last: Option<nat>, s: Loader,
                         rest: seq<Byte>)
    requires ValidBlocks(blocks) && ValidLoader(blocks, s) && AllInBlocks(blocks, writes)
    requires InStep(last, s.current)
    requires s.stream == Stream(Section(blocks, first, writes, last) + rest, false)
    ensures Load(blocks, s) ==
            Loaded(Loader(Apply(blocks, s.mem, writes), LastBlock(writes, s.current), Stream(rest, false)))
  {
    hide LoadTurn, Load, SectionSoFar, Header, ValidBlocks, AllInBlocks, Apply, LastBlock;
    var end := Header(0, EOS);
    Associative(SectionSoFar(blocks, first, writes, last), end, rest);
    SoFarRead(blocks, first, writes, last, s, end + rest);
    var t := Loader(Apply(blocks, s.mem, writes), LastBlock(writes, s.current), Stream(end + rest, false));
    TurnReadsEnd(blocks, t, rest);
    LoadEnds(blocks, t, t.(stream := Stream(rest, false)));
  }

  // ---- whole migrations ----

  ghost predicate AllParts(blocks: seq<Block>, parts: seq<seq<PageWrite>>) {
    forall i | 0 <= i < |parts| :: AllInBlocks(blocks, parts[i])
  }

  lemma {:induction false} FlatInBlocks(blocks: seq<Block>, parts: seq<seq<PageWrite>>)
    requires AllParts(blocks, parts)
    ensures AllInBlocks(blocks, Flatten(parts))
  {
    if parts != [] {
      FlatInBlocks(blocks, parts[..|parts| - 1]);
    }
  }

  /** The sections a sender emits: the first names the blocks, each carries on from the one before. */
  ghost function Sections(blocks: seq<Block>, parts: seq<seq<PageWrite>>): (r: seq<seq<Byte>>)
    requires ValidBlocks(blocks) && AllParts(blocks, parts)
  {
    if parts == [] then []
    else
      var front := parts[..|parts| - 1];
      Sections(blocks, front) + [Section(blocks, front == [], parts[|parts| - 1], LastBlock(Flatten(front), None))]
  }

  /** ram_load called once for each section, on one receiver. */
  ghost function LoadAll(blocks: seq<Block>, s: Loader, sections: seq<seq<Byte>>): (r: Turn)
    requires ValidBlocks(blocks) && ValidLoader(blocks, s)
    ensures !r.Again? && (r.Loaded? ==> ValidLoader(blocks, r.last))
  {
    if sections == [] then Loaded(s)
    else
      var before := LoadAll(blocks, s, sections[..|sections| - 1]);
      if !before.Loaded? then before
      else
        ValidLoaderStream(blocks, before.last, Stream(sections[|sections| - 1], false));
        Load(blocks, before.last.(stream := Stream(sections[|sections| - 1], false)))
  }

  lemma {:induction false} ApplyAppend(blocks: seq<Block>, mem: Memory, a: seq<PageWrite>, b: seq<PageWrite>)
    requires HasShape(blocks, mem) && AllInBlocks(blocks, a) && AllInBlocks(blocks, b)
    ensures AllInBlocks(blocks, a + b)
    ensures Apply(blocks, mem, a + b) == Apply(blocks, Apply(blocks, mem, a), b)
    decreases |b|
  {
    if b == [] {
      assert a + b == a;
    } else {
      var n := |b| - 1;
      assert a + b == a + b[..n] + [b[n]];
      assert b == b[..n] + [b[n]];
      hide Apply, HasShape;
      ApplyAppend(blocks, mem, a, b[..n]);
      ApplySnoc(blocks, mem, a + b[..n], b[n]);
      ApplySnoc(blocks, Apply(blocks, mem, a), b[..n], b[n]);
    }
  }

  /** A whole migration loads with no error to the pages sent in all its sections, in order. */
  lemma {:induction false} SessionRoundTrip(blocks: seq<Block>, parts: seq<seq<PageWrite>>, s: Loader)
    requires ValidBlocks(blocks) && ValidLoader(blocks, s) && AllParts(blocks, parts)
    ensures AllInBlocks(blocks, Flatten(parts))
    ensures var r := LoadAll(blocks, s, Sections(blocks, parts));
            && r.Loaded? && r.last.mem == Apply(blocks, s.mem, Flatten(parts))
            && r.last.current == LastBlock(Flatten(parts), s.current)
  {
    FlatInBlocks(blocks, parts);
    if parts != [] {
      var front, part := parts[..|parts| - 1], parts[|parts| - 1];
      SessionRoundTrip(blocks, front, s);
      var sections := Sections(blocks, parts);
      assert sections[..|sections| - 1] == Sections(blocks, front);
      var before := LoadAll(blocks, s, Sections(blocks, front)).last;
      var section := Section(blocks, front == [], part, LastBlock(Flatten(front), None));
      var t := before.(stream := Stream(section, false));
      ValidLoaderStream(blocks, before, t.stream);
      hide Load, Section, Apply, HasShape, ValidBlocks;
      assert section + [] == section;
      SectionRoundTrip(blocks, front == [], part, LastBlock(Flatten(front), None), t, []);
      ApplyAppend(blocks, s.mem, Flatten(front), part);
    }
  }
}
