/** Guest RAM as the migration code sees it: a list of blocks of pages, walked as a ring. */
module RamLayout {
  import opened QemuFile

  type Page = p: seq<Byte> | |p| == 4096 witness seq(4096, _ => 0)

  /** A RAMBlock: its name, the number of its first page in the ram address space, and its length in pages. */
  datatype Block = Block(id: seq<Byte>, first: nat, pages: nat)

  /** A page: block `block` of the list, page `page` of the block. */
  datatype Place = Place(block: nat, page: nat)

  predicate InBlocks(blocks: seq<Block>, p: Place) {
    p.block < |blocks| && p.page < blocks[p.block].pages
  }

  /** The index of the page in the table of dirty flags. */
  function PageNumber(blocks: seq<Block>, p: Place): nat
    requires InBlocks(blocks, p)
  {
    blocks[p.block].first + p.page
  }

  predicate Disjoint(a: Block, b: Block) {
    a.first + a.pages <= b.first || b.first + b.pages <= a.first
  }

  ghost predicate ValidBlocks(blocks: seq<Block>) {
    && blocks != []
    && (forall i | 0 <= i < |blocks| :: blocks[i].pages > 0 && ValidName(blocks[i].id))
    && 4096 * TotalPages(blocks) < 0x1_0000_0000_0000_0000
    && (forall i, j | 0 <= i < j < |blocks| :: Disjoint(blocks[i], blocks[j]) && blocks[i].id != blocks[j].id)
  }

  /** Pages of different places have different numbers. */
  lemma PageNumberInjective(blocks: seq<Block>, p: Place, q: Place)
    requires ValidBlocks(blocks) && InBlocks(blocks, p) && InBlocks(blocks, q)
    ensures PageNumber(blocks, p) == PageNumber(blocks, q) <==> p == q
  {
    if p.block < q.block {
      assert Disjoint(blocks[p.block], blocks[q.block]);
    } else if q.block < p.block {
      assert Disjoint(blocks[q.block], blocks[p.block]);
    }
  }

  // ---- the ring of pages ----

  /** Pages in all. */
  function TotalPages(blocks: seq<Block>): nat {
    if blocks == [] then 0 else TotalPages(blocks[..|blocks| - 1]) + blocks[|blocks| - 1].pages
  }

  /** The next page: the next of the block, else the first of the next block, else the first of all. */
  function Next(blocks: seq<Block>, p: Place): Place
    requires InBlocks(blocks, p)
  {
    if p.page + 1 < blocks[p.block].pages then Place(p.block, p.page + 1)
    else if p.block + 1 < |blocks| then Place(p.block + 1, 0)
    else Place(0, 0)
  }

  /** The place of a page on the ring. */
  function Index(blocks: seq<Block>, p: Place): nat
    requires InBlocks(blocks, p)
  {
    TotalPages(blocks[..p.block]) + p.page
  }

  lemma {:induction false} TotalPagesGrows(blocks: seq<Block>, i: nat, j: nat)
    requires i <= j <= |blocks|
    ensures TotalPages(blocks[..i]) <= TotalPages(blocks[..j])
    ensures i < j ==> TotalPages(blocks[..i]) + blocks[i].pages <= TotalPages(blocks[..j])
  {
    if i < j {
      assert blocks[..j][..j - 1] == blocks[..j - 1];
      TotalPagesGrows(blocks, i, j - 1);
    }
  }

  lemma IndexInRange(blocks: seq<Block>, p: Place)
    requires InBlocks(blocks, p)
    ensures Index(blocks, p) < TotalPages(blocks)
  {
    TotalPagesGrows(blocks, p.block, |blocks|);
    assert blocks[..|blocks|] == blocks;
  }

  lemma IndexInjective(blocks: seq<Block>, p: Place, q: Place)
    requires InBlocks(blocks, p) && InBlocks(blocks, q)
    ensures Index(blocks, p) == Index(blocks, q) ==> p == q
  {
    if p.block < q.block {
      TotalPagesGrows(blocks, p.block, q.block);
    } else if q.block < p.block {
      TotalPagesGrows(blocks, q.block, p.block);
    }
  }

  /** `t` steps on from index `s`, round the ring of `n`. */
  function Step(s: nat, t: nat, n: nat): nat {
    if s + t < n then s + t else s + t - n
  }

  /** Stepping to the next page moves one place along the ring. */
  lemma NextStep(blocks: seq<Block>, p: Place)
    requires ValidBlocks(blocks) && InBlocks(blocks, p)
    ensures InBlocks(blocks, Next(blocks, p))
    ensures Index(blocks, Next(blocks, p)) == Step(Index(blocks, p), 1, TotalPages(blocks))
  {
    assert blocks[..p.block + 1][..p.block] == blocks[..p.block];
    IndexInRange(blocks, p);
    if p.block + 1 == |blocks| && p.page + 1 == blocks[p.block].pages {
      assert blocks[..|blocks|] == blocks;
    } else {
      IndexInRange(blocks, Next(blocks, p));
    }
  }

  // ---- contents ----

  /** The pages of each block. */
  type Memory = seq<seq<Page>>

  ghost predicate HasShape(blocks: seq<Block>, mem: Memory) {
    |mem| == |blocks| && forall i | 0 <= i < |blocks| :: |mem[i]| == blocks[i].pages
  }

  function At(mem: Memory, p: Place): Page
    requires p.block < |mem| && p.page < |mem[p.block]|
  {
    mem[p.block][p.page]
  }

  function Put(mem: Memory, p: Place, data: Page): Memory
    requires p.block < |mem| && p.page < |mem[p.block]|
  {
    var pages: seq<Page> := mem[p.block][..p.page] + [data] + mem[p.block][p.page + 1..];
    mem[p.block := pages]
  }

  lemma PutAt(blocks: seq<Block>, mem: Memory, p: Place, data: Page)
    requires HasShape(blocks, mem) && InBlocks(blocks, p)
    ensures HasShape(blocks, Put(mem, p, data))
    ensures At(Put(mem, p, data), p) == data
    ensures forall q | InBlocks(blocks, q) && q != p :: At(Put(mem, p, data), q) == At(mem, q)
  {
  }

  /** One page sent. */
  datatype PageWrite = PageWrite(place: Place, data: Page)

  ghost predicate AllInBlocks(blocks: seq<Block>, writes: seq<PageWrite>) {
    forall i | 0 <= i < |writes| :: InBlocks(blocks, writes[i].place)
  }

  /** Memory after the page writes, in order. */
  ghost function Apply(blocks: seq<Block>, mem: Memory, writes: seq<PageWrite>): (r: Memory)
    requires HasShape(blocks, mem) && AllInBlocks(blocks, writes)
    ensures HasShape(blocks, r)
    decreases |writes|
  {
    if writes == [] then mem
    else
      PutAt(blocks, mem, writes[0].place, writes[0].data);
      Apply(blocks, Put(mem, writes[0].place, writes[0].data), writes[1..])
  }

  lemma {:induction false} ApplySnoc(blocks: seq<Block>, mem: Memory, writes: seq<PageWrite>, w: PageWrite)
    requires HasShape(blocks, mem) && AllInBlocks(blocks, writes) && InBlocks(blocks, w.place)
    ensures AllInBlocks(blocks, writes + [w])
    ensures Apply(blocks, mem, writes + [w]) == Put(Apply(blocks, mem, writes), w.place, w.data)
    decreases |writes|
  {
    if writes == [] {
      assert (writes + [w])[1..] == [];
    } else {
      assert (writes + [w])[1..] == writes[1..] + [w];
      PutAt(blocks, mem, writes[0].place, writes[0].data);
      ApplySnoc(blocks, Put(mem, writes[0].place, writes[0].data), writes[1..], w);
    }
  }
}
