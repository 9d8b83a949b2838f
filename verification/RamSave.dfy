/** The sending side of RAM migration: the dirty-page scan and the stages of a live migration. */
module RamSave {
  import opened Bytes
  import opened Options
  import opened QemuFile
  import opened RamLayout
  import opened RamStream
  import opened RamRoundTrip

  // ---- duplicate pages ----

  /** Four bytes read as one word. */
  function Word(a: nat, b: nat, c: nat, d: nat): nat {
    16777216 * a + 65536 * b + 256 * c + d
  }

  lemma WordRepeats(a: Byte, b: Byte, c: Byte, d: Byte, ch: Byte)
    ensures Word(a, b, c, d) == Word(ch, ch, ch, ch) <==> a == b == c == d == ch
  {
    if Word(a, b, c, d) == Word(ch, ch, ch, ch) {
      assert a == ch;
      assert b == ch;
      assert c == ch;
    }
  }

  /** is_dup_page: a word at a time, whether every byte of the page is `ch`. */
  method IsDupPage(page: Page, ch: Byte) returns (dup: bool)
    ensures dup <==> forall i | 0 <= i < 4096 :: page[i] == ch
  {
    hide Word;
    var val := Word(ch, ch, ch, ch);
    for i := 0 to 1024
      invariant forall j | 0 <= j < 4 * i :: page[j] == ch
    {
      WordRepeats(page[4 * i], page[4 * i + 1], page[4 * i + 2], page[4 * i + 3], ch);
      if Word(page[4 * i], page[4 * i + 1], page[4 * i + 2], page[4 * i + 3]) != val {
        return false;
      }
    }
    return true;
  }

  // ---- dirty flags ----

  /** MIGRATION_DIRTY_FLAG */
  predicate IsSet(flags: bv8) {
    flags & 0x08 != 0
  }

  /** Clearing the migration flag leaves the other flags. */
  function Cleared(flags: bv8): (r: bv8)
    ensures !IsSet(r) && r | 0x08 == flags | 0x08
  {
    flags & 0xf7
  }

  /** A guest write sets every flag but the one for translated code. */
  function Written(flags: bv8): (r: bv8)
    ensures IsSet(r)
  {
    flags | 0xfd
  }

  ghost predicate CoversAll(blocks: seq<Block>, flags: seq<bv8>) {
    forall p | InBlocks(blocks, p) :: PageNumber(blocks, p) < |flags|
  }

  predicate Dirty(blocks: seq<Block>, flags: seq<bv8>, p: Place)
    requires InBlocks(blocks, p) && PageNumber(blocks, p) < |flags|
  {
    IsSet(flags[PageNumber(blocks, p)])
  }

  ghost predicate NoneDirty(blocks: seq<Block>, flags: seq<bv8>)
    requires CoversAll(blocks, flags)
  {
    forall p | InBlocks(blocks, p) :: !Dirty(blocks, flags, p)
  }

  ghost predicate AllDirty(blocks: seq<Block>, flags: seq<bv8>)
    requires CoversAll(blocks, flags)
  {
    forall p | InBlocks(blocks, p) :: Dirty(blocks, flags, p)
  }

  /** The dirty pages. */
  ghost function DirtyPlaces(blocks: seq<Block>, flags: seq<bv8>): set<Place>
    requires CoversAll(blocks, flags)
  {
    set b, k | 0 <= b < |blocks| && 0 <= k < blocks[b].pages && Dirty(blocks, flags, Place(b, k)) :: Place(b, k)
  }

  /** Setting or clearing one page's flags changes no other page. */
  lemma FlagsUpdate(blocks: seq<Block>, flags: seq<bv8>, p: Place, f: bv8)
    requires ValidBlocks(blocks) && CoversAll(blocks, flags) && InBlocks(blocks, p)
    ensures CoversAll(blocks, flags[PageNumber(blocks, p) := f])
    ensures Dirty(blocks, flags[PageNumber(blocks, p) := f], p) == IsSet(f)
    ensures forall q | InBlocks(blocks, q) && q != p ::
              Dirty(blocks, flags[PageNumber(blocks, p) := f], q) == Dirty(blocks, flags, q)
  {
    forall q | InBlocks(blocks, q) && q != p
      ensures Dirty(blocks, flags[PageNumber(blocks, p) := f], q) == Dirty(blocks, flags, q)
    {
      PageNumberInjective(blocks, p, q);
    }
  }

  // ---- what migration keeps ----

  /** Every page is dirty or the receiver already holds its contents. */
  ghost predicate CleanMeansCopied(blocks: seq<Block>, flags: seq<bv8>, host: Memory, remote: Memory)
    requires CoversAll(blocks, flags) && HasShape(blocks, host) && HasShape(blocks, remote)
  {
    forall p | InBlocks(blocks, p) :: Dirty(blocks, flags, p) || At(host, p) == At(remote, p)
  }

  lemma GuestWriteKeeps(blocks: seq<Block>, flags: seq<bv8>, host: Memory, remote: Memory, p: Place, data: Page)
    requires ValidBlocks(blocks) && CoversAll(blocks, flags) && HasShape(blocks, host) && HasShape(blocks, remote)
    requires InBlocks(blocks, p) && CleanMeansCopied(blocks, flags, host, remote)
    ensures var after := flags[PageNumber(blocks, p) := Written(flags[PageNumber(blocks, p)])];
            && CoversAll(blocks, after) && HasShape(blocks, Put(host, p, data))
            && CleanMeansCopied(blocks, after, Put(host, p, data), remote)
            && (AllDirty(blocks, flags) ==> AllDirty(blocks, after))
  {
    hide At, Put, Dirty, Written, PageNumber;
    FlagsUpdate(blocks, flags, p, Written(flags[PageNumber(blocks, p)]));
    PutAt(blocks, host, p, data);
  }

  lemma SendKeeps(blocks: seq<Block>, flags: seq<bv8>, host: Memory, remote: Memory, p: Place)
    requires ValidBlocks(blocks) && CoversAll(blocks, flags) && HasShape(blocks, host) && HasShape(blocks, remote)
    requires InBlocks(blocks, p) && CleanMeansCopied(blocks, flags, host, remote)
    ensures var after := flags[PageNumber(blocks, p) := Cleared(flags[PageNumber(blocks, p)])];
            && CoversAll(blocks, after) && HasShape(blocks, Put(remote, p, At(host, p)))
            && CleanMeansCopied(blocks, after, host, Put(remote, p, At(host, p)))
            && DirtyPlaces(blocks, after) == DirtyPlaces(blocks, flags) - {p}
  {
    hide At, Put, Dirty, Cleared, PageNumber;
    FlagsUpdate(blocks, flags, p, Cleared(flags[PageNumber(blocks, p)]));
    PutAt(blocks, remote, p, At(host, p));
  }

  /** With no page dirty the receiver's memory is the sender's. */
  lemma DrainedMeansEqual(blocks: seq<Block>, flags: seq<bv8>, host: Memory, remote: Memory)
    requires CoversAll(blocks, flags) && HasShape(blocks, host) && HasShape(blocks, remote)
    requires CleanMeansCopied(blocks, flags, host, remote) && NoneDirty(blocks, flags)
    ensures host == remote
  {
    forall b | 0 <= b < |blocks| ensures host[b] == remote[b] {
      forall k | 0 <= k < blocks[b].pages ensures host[b][k] == remote[b][k] {
        assert InBlocks(blocks, Place(b, k));
        assert At(host, Place(b, k)) == At(remote, Place(b, k));
      }
    }
  }

  // ---- ring order ----

  /** Steps along the ring of `n` from `s` to `x`. */
  function Distance(s: nat, x: nat, n: nat): nat
    requires s < n && x < n
  {
    if x >= s then x - s else x + n - s
  }

  function From(blocks: seq<Block>, start: Place, p: Place): nat
    requires InBlocks(blocks, start) && InBlocks(blocks, p)
  {
    IndexInRange(blocks, start);
    IndexInRange(blocks, p);
    Distance(Index(blocks, start), Index(blocks, p), TotalPages(blocks))
  }

  /** The pages nearer than `t` steps from `start` are clean. */
  ghost predicate CleanUpTo(blocks: seq<Block>, flags: seq<bv8>, start: Place, t: nat)
    requires CoversAll(blocks, flags) && InBlocks(blocks, start)
  {
    forall p | InBlocks(blocks, p) && From(blocks, start, p) < t :: !Dirty(blocks, flags, p)
  }

  /** The first dirty page in ring order from `start`. */
  ghost predicate FirstDirty(blocks: seq<Block>, flags: seq<bv8>, start: Place, p: Place)
    requires CoversAll(blocks, flags) && InBlocks(blocks, start)
  {
    InBlocks(blocks, p) && Dirty(blocks, flags, p) && CleanUpTo(blocks, flags, start, From(blocks, start, p))
  }

  lemma FromInjective(blocks: seq<Block>, start: Place, p: Place, q: Place)
    requires InBlocks(blocks, start) && InBlocks(blocks, p) && InBlocks(blocks, q)
    ensures From(blocks, start, p) < TotalPages(blocks)
    ensures From(blocks, start, p) == From(blocks, start, q) ==> p == q
  {
    IndexInRange(blocks, start);
    IndexInRange(blocks, p);
    IndexInRange(blocks, q);
    IndexInjective(blocks, p, q);
  }

  /** The step to the next page goes one further, or completes the ring back to the start. */
  lemma NextFrom(blocks: seq<Block>, start: Place, p: Place)
    requires ValidBlocks(blocks) && InBlocks(blocks, start) && InBlocks(blocks, p)
    ensures InBlocks(blocks, Next(blocks, p))
    ensures if Next(blocks, p) == start then From(blocks, start, p) + 1 == TotalPages(blocks)
            else From(blocks, start, Next(blocks, p)) == From(blocks, start, p) + 1
  {
    NextStep(blocks, p);
    IndexInRange(blocks, start);
    IndexInRange(blocks, p);
    IndexInRange(blocks, Next(blocks, p));
    IndexInjective(blocks, Next(blocks, p), start);
  }

  lemma CleanOneMore(blocks: seq<Block>, flags: seq<bv8>, start: Place, p: Place)
    requires ValidBlocks(blocks) && CoversAll(blocks, flags) && InBlocks(blocks, start) && InBlocks(blocks, p)
    requires CleanUpTo(blocks, flags, start, From(blocks, start, p)) && !Dirty(blocks, flags, p)
    ensures CleanUpTo(blocks, flags, start, From(blocks, start, p) + 1)
  {
    hide From, Dirty;
    forall q | InBlocks(blocks, q) && From(blocks, start, q) < From(blocks, start, p) + 1
      ensures !Dirty(blocks, flags, q)
    {
      FromInjective(blocks, start, p, q);
    }
  }

  lemma CleanAllRound(blocks: seq<Block>, flags: seq<bv8>, start: Place)
    requires CoversAll(blocks, flags) && InBlocks(blocks, start)
    requires CleanUpTo(blocks, flags, start, TotalPages(blocks))
    ensures NoneDirty(blocks, flags)
  {
    hide From, Dirty;
    forall p | InBlocks(blocks, p) ensures !Dirty(blocks, flags, p) {
      FromInjective(blocks, start, p, p);
    }
  }

  // ---- the sender ----

  ghost predicate Shaped(blocks: seq<Block>, host: Memory, flags: seq<bv8>) {
    ValidBlocks(blocks) && HasShape(blocks, host) && CoversAll(blocks, flags)
  }

  /**
   * `remote`, the receiver's memory were it to load what has been sent, holds the current contents
   * of every clean page.
   */
  ghost predicate Copied(blocks: seq<Block>, host: Memory, flags: seq<bv8>, atFirst: Memory, remote: Memory,
                         parts: seq<seq<PageWrite>>, section: seq<PageWrite>)
    requires Shaped(blocks, host, flags)
  {
    && HasShape(blocks, remote) && HasShape(blocks, atFirst)
    && AllParts(blocks, parts) && AllInBlocks(blocks, section) && AllInBlocks(blocks, Flatten(parts) + section)
    && remote == Apply(blocks, atFirst, Flatten(parts) + section)
    && CleanMeansCopied(blocks, flags, host, remote)
  }

  /** The place a scan starts from. */
  function StartOf(lastBlock: Option<nat>, lastOffset: nat): Place {
    Place(if lastBlock.None? then 0 else lastBlock.value, lastOffset)
  }

  /** The sender's place is the last page sent, and it has none only while every page is dirty. */
  ghost predicate Positioned(blocks: seq<Block>, flags: seq<bv8>, lastBlock: Option<nat>, lastOffset: nat,
                             sent: seq<PageWrite>)
    requires CoversAll(blocks, flags)
  {
    && InBlocks(blocks, StartOf(lastBlock, lastOffset))
    && lastBlock == LastBlock(sent, None)
    && (lastBlock.None? ==> lastOffset == 0 && AllDirty(blocks, flags))
  }

  /** What has been put to the file encodes the pages sent. */
  ghost predicate Streamed(blocks: seq<Block>, sections: seq<seq<Byte>>, output: seq<Byte>,
                           parts: seq<seq<PageWrite>>, section: seq<PageWrite>)
    requires ValidBlocks(blocks) && AllParts(blocks, parts) && AllInBlocks(blocks, section)
  {
    && sections == Sections(blocks, parts)
    && output == SectionSoFar(blocks, parts == [], section, LastBlock(Flatten(parts), None))
  }

  class RamSaver {
    const blocks: seq<Block>
    /** Guest memory, written by the guest between calls. */
    var host: Memory
    var physDirty: seq<bv8>
    /** Where the last page sent was; offsets are counted in pages. */
    var lastBlock: Option<nat>
    var lastOffset: nat
    /** The bytes of the section being written, and the sections completed. */
    var output: seq<Byte>
    var sections: seq<seq<Byte>>

    /** Pages sent in the section being written and in each section completed. */
    ghost var section: seq<PageWrite>
    ghost var parts: seq<seq<PageWrite>>
    /** The receiver's memory, were it to load what has been sent, and what it was at first. */
    ghost var remote: Memory
    ghost var atFirst: Memory

    /** What holds in every state from the start of the first stage on, whatever is sent next. */
    ghost predicate Kept()
      reads this
    {
      && Shaped(blocks, host, physDirty)
      && Copied(blocks, host, physDirty, atFirst, remote, parts, section)
      && Streamed(blocks, sections, output, parts, section)
    }

    ghost predicate Valid()
      reads this
    {
      Kept() && Positioned(blocks, physDirty, lastBlock, lastOffset, Flatten(parts) + section)
    }

    function Start(): Place
      reads this
    {
      StartOf(lastBlock, lastOffset)
    }

    constructor (blocks: seq<Block>, host: Memory, physDirty: seq<bv8>)
      requires Shaped(blocks, host, physDirty)
      ensures this.blocks == blocks && this.host == host && this.physDirty == physDirty
    {
      this.blocks, this.host, this.physDirty := blocks, host, physDirty;
      lastBlock, lastOffset, output, sections := None, 0, [], [];
    }

    /** The guest writes a page, which marks it. */
    method GuestWrite(p: Place, data: Page)
      requires Valid() && InBlocks(blocks, p)
      modifies this`host, this`physDirty
      ensures Valid() && host == Put(old(host), p, data)
      ensures Dirty(blocks, physDirty, p)
    {
      hide CoversAll, CleanMeansCopied, AllDirty, Put, At, Apply, Sections, SectionSoFar, Flatten, Written, ValidBlocks;
      GuestWriteKeeps(blocks, physDirty, host, remote, p, data);
      WrittenIsDirty(blocks, physDirty, p);
      var n := PageNumber(blocks, p);
      host := Put(host, p, data);
      physDirty := physDirty[n := Written(physDirty[n])];
    }

    /** The part of ram_save_block that sends a page: its record goes out and its flag is cleared. */
    method PutPage(block: nat, offset: nat) returns (bytesSent: nat)
      requires Valid() && InBlocks(blocks, Place(block, offset))
      modifies this`physDirty, this`output, this`section, this`remote
      ensures Kept()
      ensures bytesSent == if IsDup(At(host, Place(block, offset))) then 1 else 4096
      ensures section == old(section) + [PageWrite(Place(block, offset), At(host, Place(block, offset)))]
      ensures LastBlock(Flatten(parts) + section, None) == Some(block)
      ensures DirtyPlaces(blocks, physDirty) == old(DirtyPlaces(blocks, physDirty)) - {Place(block, offset)}
    {
      hide CoversAll, HasShape, ValidBlocks, AllInBlocks, AllParts, Put, At, Flatten, LastBlock, PageNumber, InBlocks;
      hide SectionSoFar, Sections, EncodePage, DirtyPlaces, Cleared, IsDup, CleanMeansCopied, Apply, AllDirty;
      var p := Place(block, offset);
      InRange(blocks, host, physDirty, p);
      InRange(blocks, remote, physDirty, p);
      PutPageKeeps(blocks, host, physDirty, atFirst, remote, parts, section, p);
      var w := PageWrite(p, At(host, p));
      var n := PageNumber(blocks, p);
      physDirty := physDirty[n := Cleared(physDirty[n])];
      bytesSent := EmitPage(w);
      section := section + [w];
      remote := Put(remote, p, w.data);
    }

    /** Put the record of a page to the file. */
    method EmitPage(w: PageWrite) returns (bytesSent: nat)
      requires InBlocks(blocks, w.place) && |blocks[w.place.block].id| < 256
      modifies this`output
      ensures output == old(output) + EncodePage(blocks, w, lastBlock)
      ensures bytesSent == if IsDup(w.data) then 1 else 4096
    {
      var id := blocks[w.place.block].id;
      var cont := lastBlock == Some(w.place.block);
      var dup := IsDupPage(w.data, w.data[0]);
      DupMeans(w.data, dup);
      var header := Header(w.place.page, PageFlags(cont, dup));
      ghost var name, payload := NameField(id, cont), Payload(w.data);
      assert EncodePage(blocks, w, lastBlock) == header + (name + payload);
      ghost var was := output;
      output := output + header;
      if !cont {
        Associative(output, [|id|], id);
        output := output + [|id|];
        output := output + id;
      }
      assert output == was + header + name;
      if dup {
        output, bytesSent := output + [w.data[0]], 1;
      } else {
        output, bytesSent := output + w.data, 4096;
      }
      assert output == was + header + name + payload;
      hide EncodePage, Header, NameField, Payload, IsDup;
      Associative4(was, header, name, payload);
    }

    /**
     * ram_save_block: from the page after which it last stopped, once round the ring at most, send
     * the first dirty page. Returns 0, and changes nothing, exactly when no page is dirty.
     */
    method RamSaveBlock() returns (bytesSent: nat)
      requires Valid()
      modifies this`physDirty, this`output, this`section, this`remote, this`lastBlock, this`lastOffset
      ensures Valid()
      ensures bytesSent == 0 <==> NoneDirty(blocks, old(physDirty))
      ensures bytesSent == 0 ==> unchanged(this)
      ensures bytesSent != 0 ==>
                && FirstDirty(blocks, old(physDirty), old(Start()), Start())
                && Start() in DirtyPlaces(blocks, old(physDirty))
                && section == old(section) + [PageWrite(Start(), At(host, Start()))]
                && DirtyPlaces(blocks, physDirty) == DirtyPlaces(blocks, old(physDirty)) - {Start()}
    {
      hide CoversAll, HasShape, ValidBlocks, AllInBlocks, AllParts, Put, At, Flatten, LastBlock, InBlocks;
      hide SectionSoFar, Sections, DirtyPlaces, IsDup, CleanMeansCopied, Apply, AllDirty, NoneDirty, Dirty;
      hide Next, From, CleanUpTo, FirstDirty, TotalPages, Copied, Streamed;
      var block: nat := if lastBlock.None? then 0 else lastBlock.value;
      var offset: nat := lastOffset;
      ghost var start := Start();
      bytesSent := 0;
      ScanStarts(blocks, physDirty, start);
      InRange(blocks, host, physDirty, start);
      while true
        invariant unchanged(this) && bytesSent == 0 && start.block < |blocks|
        invariant InBlocks(blocks, Place(block, offset))
        invariant CleanUpTo(blocks, physDirty, start, From(blocks, start, Place(block, offset)))
        decreases TotalPages(blocks) - From(blocks, start, Place(block, offset))
      {
        var p := Place(block, offset);
        InRange(blocks, host, physDirty, p);
        if Dirty(blocks, physDirty, p) {
          FoundDirty(blocks, physDirty, start, p);
          bytesSent := PutPage(block, offset);
          break;
        }
        ScanGoesOn(blocks, physDirty, start, p, lastBlock.None?);
        offset := offset + 1;
        if offset >= blocks[block].pages {
          offset := 0;
          block := if block + 1 < |blocks| then block + 1 else 0;
        }
        NextIs(blocks, p, Place(block, offset));
        PageNumberInjective(blocks, Place(block, offset), start);
        if blocks[block].first + offset == blocks[lastBlock.value].first + lastOffset {
          break;
        }
      }
      lastBlock := Some(block);
      lastOffset := offset;
    }

    /** ram_save_remaining: the number of dirty pages. */
    method RamSaveRemaining() returns (count: nat)
      requires Shaped(blocks, host, physDirty)
      ensures count == |DirtyPlaces(blocks, physDirty)|
    {
      hide Dirty, DirtyPlaces, ValidBlocks, HasShape;
      count := 0;
      ghost var seen: set<Place> := {};
      var b := 0;
      while b < |blocks|
        invariant 0 <= b <= |blocks| && count == |seen| && Counted(blocks, physDirty, seen, b, 0)
      {
        var k := 0;
        while k < blocks[b].pages
          invariant 0 <= k <= blocks[b].pages && count == |seen| && Counted(blocks, physDirty, seen, b, k)
        {
          if Dirty(blocks, physDirty, Place(b, k)) {
            count := count + 1;
            seen := seen + {Place(b, k)};
          }
          k := k + 1;
        }
        b := b + 1;
      }
      CountedAll(blocks, physDirty, seen);
    }

    /** Stage 1: make sure the migration flag of every page is set. */
    method MarkAll()
      requires Shaped(blocks, host, physDirty)
      modifies this`physDirty
      ensures Shaped(blocks, host, physDirty) && AllDirty(blocks, physDirty)
    {
      hide Dirty, ValidBlocks, HasShape, CoversAll, PageNumber;
      var b := 0;
      while b < |blocks|
        invariant 0 <= b <= |blocks| && Shaped(blocks, host, physDirty) && MarkedUpTo(blocks, physDirty, b, 0)
      {
        var k := 0;
        while k < blocks[b].pages
          invariant 0 <= k <= blocks[b].pages
          invariant Shaped(blocks, host, physDirty) && MarkedUpTo(blocks, physDirty, b, k)
        {
          var p := Place(b, k);
          InRange(blocks, host, physDirty, p);
          if !Dirty(blocks, physDirty, p) {
            FlagsUpdate(blocks, physDirty, p, 0xff);
            physDirty := physDirty[PageNumber(blocks, p) := 0xff];
          }
          k := k + 1;
        }
        b := b + 1;
      }
    }

    /** ram_bytes_total */
    method RamBytesTotal() returns (total: nat)
      ensures total == 4096 * TotalPages(blocks)
    {
      total := 0;
      assert blocks[..0] == [];
      for i := 0 to |blocks|
        invariant total == 4096 * TotalPages(blocks[..i])
      {
        assert blocks[..i + 1][..i] == blocks[..i];
        total := total + 4096 * blocks[i].pages;
      }
      assert blocks[..|blocks|] == blocks;
    }

    /** Stage 1: the size of memory, and the name and length of every block. */
    method PutBlockList()
      requires ValidBlocks(blocks) && NamesFit(blocks)
      modifies this`output
      ensures output == old(output) + EncodeStart(blocks)
    {
      hide Be, Header, TotalPages, NameField, EncodeBlocks, ValidBlocks, NamesFit;
      var total := RamBytesTotal();
      ghost var was := output;
      output := output + Be(total + MEM_SIZE, 8);
      TotalHeader(blocks, total);
      Associative(was, Header(TotalPages(blocks), MEM_SIZE), EncodeBlocks(blocks));
      assert blocks[0..] == blocks;
      NamesFitFrom(blocks, 0);
      for i := 0 to |blocks|
        invariant NamesFit(blocks[i..])
        invariant output + EncodeBlocks(blocks[i..]) == was + EncodeStart(blocks)
      {
        EncodeBlocksFrom(blocks, i);
        var id, length := blocks[i].id, Be(4096 * blocks[i].pages, 8);
        Appended(output, id, length, EncodeBlocks(blocks[i + 1..]));
        output := output + [|id|];
        output := output + id;
        output := output + length;
      }
      NoBlocksLeft(blocks, output);
    }

    /** The setup of stage 1. The receiver's memory is whatever it is at that time. */
    method Begin(ghost receiver: Memory)
      requires Shaped(blocks, host, physDirty) && HasShape(blocks, receiver)
      modifies this
      ensures Valid() && host == old(host) && atFirst == receiver && parts == [] && section == []
    {
      hide ValidBlocks, HasShape, CoversAll, NamesFit, EncodeStart, AllDirty, SectionSoFar, Sections, Apply, CleanMeansCopied;
      hide Flatten, AllParts, AllInBlocks, LastBlock, InBlocks;
      lastBlock, lastOffset := None, 0;
      MarkAll();
      output, sections := [], [];
      section, parts, atFirst, remote := [], [], receiver, receiver;
      BeginKeeps(blocks, host, physDirty, receiver);
      PutBlockList();
      assert [] + EncodeStart(blocks) == EncodeStart(blocks);
    }

    /** The end mark completes a section. */
    method EndSection()
      requires Valid()
      modifies this`output, this`sections, this`section, this`parts
      ensures Valid() && section == [] && output == []
      ensures parts == old(parts) + [old(section)] && sections == old(sections) + [old(output) + Header(0, EOS)]
    {
      hide ValidBlocks, HasShape, CoversAll, AllDirty, SectionSoFar, Sections, Apply, CleanMeansCopied, Flatten;
      hide AllParts, AllInBlocks, LastBlock, InBlocks, Header;
      EndKeeps(blocks, parts, section);
      output := output + Header(0, EOS);
      sections := sections + [output];
      output := [];
      parts, section := parts + [section], [];
    }

    /** Stage 3: send every page still dirty, whatever the rate limit says. */
    method Flush()
      requires Valid()
      modifies this`physDirty, this`output, this`section, this`remote, this`lastBlock, this`lastOffset
      ensures Valid() && NoneDirty(blocks, physDirty)
    {
      hide ValidBlocks, HasShape, CoversAll, AllDirty, SectionSoFar, Sections, Apply, CleanMeansCopied, Flatten;
      hide AllParts, AllInBlocks, LastBlock, InBlocks, FirstDirty, At, DirtyPlaces, NoneDirty, Streamed, Positioned;
      var sent := RamSaveBlock();
      while sent != 0
        invariant Valid() && (sent == 0 ==> NoneDirty(blocks, physDirty))
        decreases DirtyPlaces(blocks, physDirty), sent
      {
        sent := RamSaveBlock();
      }
    }

    /**
     * ram_save_live, one call for each stage. `synced` stands for the bitmap synchronisation, `limits` for
     * the answers of qemu_file_rate_limit and `soon` for the comparison of the expected time. Pages are
     * sent while the limiter says 0, until none is dirty. Stage 3, once it returns without error, has
     * sent every page.
     */
    method RamSaveLive(stage: int, synced: bool, limits: seq<int>, soon: bool, ghost receiver: Memory)
      returns (ret: int)
      requires 1 <= stage <= 3 && HasShape(blocks, receiver)
      requires if stage == 1 then Shaped(blocks, host, physDirty) else Valid() && section == []
      modifies this
      ensures host == old(host) && (stage != 1 ==> atFirst == old(atFirst))
      ensures !synced ==> ret == -EINVAL && unchanged(this)
      ensures synced && ret < 0 ==> Valid() && ret == Limit(limits, |section|) && AllZero(limits, |section|)
      ensures ret >= 0 ==> Valid() && section == [] && output == [] && ret == if stage == 2 && soon then 1 else 0
      ensures ret >= 0 && stage == 1 ==> |parts| == 1 && atFirst == receiver
      ensures ret >= 0 && stage != 1 ==> |parts| == |old(parts)| + 1 && old(parts) <= parts
      ensures ret >= 0 && stage != 3 ==>
                (var n := |parts[|parts| - 1]|;
                 AllZero(limits, n) && (Limit(limits, n) > 0 || (Limit(limits, n) == 0 && NoneDirty(blocks, physDirty))))
      ensures ret >= 0 && stage == 3 ==> NoneDirty(blocks, physDirty) && remote == host
    {
      hide ValidBlocks, HasShape, CoversAll, AllDirty, SectionSoFar, Sections, Apply, CleanMeansCopied, Flatten;
      hide AllParts, AllInBlocks, LastBlock, InBlocks, Header, FirstDirty, At, DirtyPlaces, NoneDirty, Streamed, Positioned;
      if !synced {
        return -EINVAL;
      }
      if stage == 1 {
        Begin(receiver);
      }
      ghost var before := parts;
      var i := 0;
      ret := Limit(limits, 0);
      while ret == 0
        invariant Valid() && host == old(host) && parts == before && (stage != 1 ==> atFirst == old(atFirst))
        invariant stage == 1 ==> atFirst == receiver
        invariant |section| == i && ret == Limit(limits, i) && AllZero(limits, i)
        decreases DirtyPlaces(blocks, physDirty), ret == 0
      {
        var sent := RamSaveBlock();
        if sent == 0 {
          break;
        }
        i := i + 1;
        ret := Limit(limits, i);
      }
      if ret < 0 {
        return;
      }
      if stage == 3 {
        Flush();
        DrainedMeansEqual(blocks, physDirty, host, remote);
      }
      EndSection();
      ret := if stage == 2 && soon then 1 else 0;
    }
  }

  /** The rate limiter's answer before page `i` of a call: 0 to go on, 1 to stop, or an error. */
  function Limit(limits: seq<int>, i: nat): int {
    if i < |limits| then limits[i] else 1
  }

  ghost predicate AllZero(limits: seq<int>, n: nat) {
    forall j: nat | j < n :: Limit(limits, j) == 0
  }

  /** `seen` holds the dirty pages up to page `k` of block `b`. */
  ghost predicate Counted(blocks: seq<Block>, flags: seq<bv8>, seen: set<Place>, b: nat, k: nat)
    requires CoversAll(blocks, flags)
  {
    forall p :: p in seen <==>
      InBlocks(blocks, p) && (p.block < b || (p.block == b && p.page < k)) && Dirty(blocks, flags, p)
  }

  lemma CountedAll(blocks: seq<Block>, flags: seq<bv8>, seen: set<Place>)
    requires CoversAll(blocks, flags) && Counted(blocks, flags, seen, |blocks|, 0)
    ensures seen == DirtyPlaces(blocks, flags)
  {
    forall p ensures p in seen <==> p in DirtyPlaces(blocks, flags) {
      assert p == Place(p.block, p.page);
    }
  }

  ghost predicate MarkedUpTo(blocks: seq<Block>, flags: seq<bv8>, b: nat, k: nat)
    requires CoversAll(blocks, flags)
  {
    forall p | InBlocks(blocks, p) && (p.block < b || (p.block == b && p.page < k)) :: Dirty(blocks, flags, p)
  }

  lemma TotalHeader(blocks: seq<Block>, total: nat)
    requires total == 4096 * TotalPages(blocks)
    ensures Be(total + MEM_SIZE, 8) == Header(TotalPages(blocks), MEM_SIZE)
  {
  }

  lemma Appended(output: seq<Byte>, id: seq<Byte>, length: seq<Byte>, others: seq<Byte>)
    requires |id| < 256
    ensures output + [|id|] + id + length + others == output + (NameField(id, false) + (length + others))
  {
  }

  lemma NoBlocksLeft(blocks: seq<Block>, output: seq<Byte>)
    requires NamesFit(blocks[|blocks|..])
    ensures output + EncodeBlocks(blocks[|blocks|..]) == output
  {
  }

  lemma ScanStarts(blocks: seq<Block>, flags: seq<bv8>, start: Place)
    requires InBlocks(blocks, start) && CoversAll(blocks, flags)
    ensures CleanUpTo(blocks, flags, start, From(blocks, start, start))
  {
  }

  lemma FoundDirty(blocks: seq<Block>, flags: seq<bv8>, start: Place, p: Place)
    requires InBlocks(blocks, start) && CoversAll(blocks, flags) && InBlocks(blocks, p)
    requires Dirty(blocks, flags, p) && CleanUpTo(blocks, flags, start, From(blocks, start, p))
    ensures FirstDirty(blocks, flags, start, p) && !NoneDirty(blocks, flags) && p in DirtyPlaces(blocks, flags)
  {
    assert p == Place(p.block, p.page);
  }

  /** After a clean page the scan goes one further, or is back where it started with every page clean. */
  lemma ScanGoesOn(blocks: seq<Block>, flags: seq<bv8>, start: Place, p: Place, unplaced: bool)
    requires ValidBlocks(blocks) && CoversAll(blocks, flags) && InBlocks(blocks, start) && InBlocks(blocks, p)
    requires CleanUpTo(blocks, flags, start, From(blocks, start, p)) && !Dirty(blocks, flags, p)
    requires unplaced ==> AllDirty(blocks, flags)
    ensures !unplaced
    ensures var q := Next(blocks, p);
            && InBlocks(blocks, q)
            && From(blocks, start, p) < TotalPages(blocks)
            && (q != start ==> From(blocks, start, q) == From(blocks, start, p) + 1
                               && CleanUpTo(blocks, flags, start, From(blocks, start, q)))
            && (q == start ==> NoneDirty(blocks, flags))
  {
    hide From, Next, CleanUpTo, NoneDirty;
    NextFrom(blocks, start, p);
    FromInjective(blocks, start, p, p);
    CleanOneMore(blocks, flags, start, p);
    if Next(blocks, p) == start {
      CleanAllRound(blocks, flags, start);
    }
  }

  lemma NextIs(blocks: seq<Block>, p: Place, q: Place)
    requires InBlocks(blocks, p)
    requires q == if p.page + 1 >= blocks[p.block].pages
                  then Place(if p.block + 1 < |blocks| then p.block + 1 else 0, 0) else Place(p.block, p.page + 1)
    ensures q == Next(blocks, p)
  {
  }

  lemma InRange(blocks: seq<Block>, mem: Memory, flags: seq<bv8>, p: Place)
    requires InBlocks(blocks, p) && HasShape(blocks, mem) && CoversAll(blocks, flags)
    ensures p.block < |blocks| && p.block < |mem| && p.page < |mem[p.block]| && PageNumber(blocks, p) < |flags|
  {
  }

  lemma WrittenIsDirty(blocks: seq<Block>, flags: seq<bv8>, p: Place)
    requires InBlocks(blocks, p) && CoversAll(blocks, flags)
    ensures PageNumber(blocks, p) < |flags|
    ensures IsSet(flags[PageNumber(blocks, p) := Written(flags[PageNumber(blocks, p)])][PageNumber(blocks, p)])
  {
  }

  lemma LastBlockAppend(a: seq<PageWrite>, b: seq<PageWrite>, last: Option<nat>)
    ensures LastBlock(a + b, last) == LastBlock(b, LastBlock(a, last))
  {
  }

  /** One more page record at the end of the section being written. */
  lemma SectionGrows(blocks: seq<Block>, parts: seq<seq<PageWrite>>, section: seq<PageWrite>, w: PageWrite)
    requires ValidBlocks(blocks) && AllInBlocks(blocks, section) && InBlocks(blocks, w.place)
    ensures AllInBlocks(blocks, section + [w]) && |blocks[w.place.block].id| < 256
    ensures var last := LastBlock(Flatten(parts), None);
            SectionSoFar(blocks, parts == [], section + [w], last) ==
            SectionSoFar(blocks, parts == [], section, last)
            + EncodePage(blocks, w, LastBlock(Flatten(parts) + section, None))
    ensures LastBlock(Flatten(parts) + (section + [w]), None) == Some(w.place.block)
  {
    var last := LastBlock(Flatten(parts), None);
    assert ValidName(blocks[w.place.block].id);
    EncodePagesSnoc(blocks, section, w, last);
    LastBlockAppend(Flatten(parts), section, None);
    hide EncodePage, EncodePages, EncodeStart;
    NamesFitFrom(blocks, 0);
    assert blocks[0..] == blocks;
    Associative(if parts == [] then EncodeStart(blocks) else [], EncodePages(blocks, section, last),
                EncodePage(blocks, w, LastBlock(section, last)));
  }

  lemma RemoteGrows(blocks: seq<Block>, mem: Memory, before: seq<PageWrite>, section: seq<PageWrite>, w: PageWrite)
    requires HasShape(blocks, mem) && AllInBlocks(blocks, before + section) && InBlocks(blocks, w.place)
    ensures AllInBlocks(blocks, before + (section + [w]))
    ensures Apply(blocks, mem, before + (section + [w]))
            == Put(Apply(blocks, mem, before + section), w.place, w.data)
  {
    hide Apply, Put, HasShape, AllInBlocks;
    assert before + (section + [w]) == before + section + [w];
    ApplySnoc(blocks, mem, before + section, w);
  }

  lemma DupMeans(page: Page, dup: bool)
    requires dup <==> forall i | 0 <= i < 4096 :: page[i] == page[0]
    ensures dup <==> IsDup(page)
  {
  }

  /** Sending a page keeps everything that is kept. */
  lemma PutPageKeeps(blocks: seq<Block>, host: Memory, flags: seq<bv8>, atFirst: Memory, remote: Memory,
                     parts: seq<seq<PageWrite>>, section: seq<PageWrite>, p: Place)
    requires Shaped(blocks, host, flags) && Copied(blocks, host, flags, atFirst, remote, parts, section)
    requires InBlocks(blocks, p)
    ensures var after := flags[PageNumber(blocks, p) := Cleared(flags[PageNumber(blocks, p)])];
            var w := PageWrite(p, At(host, p));
            var last := LastBlock(Flatten(parts), None);
            && Shaped(blocks, host, after)
            && Copied(blocks, host, after, atFirst, Put(remote, p, At(host, p)), parts, section + [w])
            && |blocks[p.block].id| < 256
            && SectionSoFar(blocks, parts == [], section + [w], last) ==
               SectionSoFar(blocks, parts == [], section, last)
               + EncodePage(blocks, w, LastBlock(Flatten(parts) + section, None))
            && LastBlock(Flatten(parts) + (section + [w]), None) == Some(p.block)
            && DirtyPlaces(blocks, after) == DirtyPlaces(blocks, flags) - {p}
  {
    var w := PageWrite(p, At(host, p));
    SendKeeps(blocks, flags, host, remote, p);
    SectionGrows(blocks, parts, section, w);
    RemoteGrows(blocks, atFirst, Flatten(parts), section, w);
    hide CleanMeansCopied, Apply, SectionSoFar, Flatten, EncodePage, DirtyPlaces, Put, AllInBlocks, AllParts;
  }

  lemma BeginKeeps(blocks: seq<Block>, host: Memory, flags: seq<bv8>, receiver: Memory)
    requires Shaped(blocks, host, flags) && AllDirty(blocks, flags) && HasShape(blocks, receiver)
    ensures NamesFit(blocks) && Copied(blocks, host, flags, receiver, receiver, [], [])
    ensures Sections(blocks, []) == [] && SectionSoFar(blocks, true, [], LastBlock(Flatten([]), None)) == EncodeStart(blocks)
    ensures Positioned(blocks, flags, None, 0, Flatten([]) + [])
  {
    NamesFitFrom(blocks, 0);
    assert blocks[0..] == blocks;
    assert Flatten<PageWrite>([]) + [] == [];
    assert EncodeStart(blocks) + [] == EncodeStart(blocks);
  }

  lemma EndKeeps(blocks: seq<Block>, parts: seq<seq<PageWrite>>, section: seq<PageWrite>)
    requires ValidBlocks(blocks) && AllParts(blocks, parts) && AllInBlocks(blocks, section)
    ensures AllParts(blocks, parts + [section]) && AllInBlocks(blocks, [])
    ensures Flatten(parts + [section]) + [] == Flatten(parts) + section
    ensures SectionSoFar(blocks, false, [], LastBlock(Flatten(parts + [section]), None)) == []
    ensures Sections(blocks, parts + [section]) ==
            Sections(blocks, parts)
            + [SectionSoFar(blocks, parts == [], section, LastBlock(Flatten(parts), None)) + Header(0, EOS)]
  {
    assert (parts + [section])[..|parts|] == parts;
    assert Flatten(parts + [section]) == Flatten(parts) + section;
  }

  // ---- both ends ----

  /**
   * Between calls, a receiver that has loaded the sections so far holds the current contents of
   * every clean page; with none dirty it holds the sender's memory.
   */
  lemma MigrationSafe(blocks: seq<Block>, host: Memory, flags: seq<bv8>, atFirst: Memory, remote: Memory,
                      parts: seq<seq<PageWrite>>, sections: seq<seq<Byte>>, s: Loader)
    requires Shaped(blocks, host, flags) && Copied(blocks, host, flags, atFirst, remote, parts, [])
    requires Streamed(blocks, sections, [], parts, [])
    requires ValidLoader(blocks, s) && s.mem == atFirst
    ensures var r := LoadAll(blocks, s, sections);
            && r.Loaded? && HasShape(blocks, r.last.mem)
            && (forall p | InBlocks(blocks, p) :: Dirty(blocks, flags, p) || At(r.last.mem, p) == At(host, p))
            && (NoneDirty(blocks, flags) ==> r.last.mem == host)
  {
    hide LoadAll, Apply, Flatten, Sections, SectionSoFar, NoneDirty, Dirty;
    assert Flatten(parts) + [] == Flatten(parts);
    SessionRoundTrip(blocks, parts, s);
    if NoneDirty(blocks, flags) {
      DrainedMeansEqual(blocks, flags, host, remote);
    }
  }
}
