/** The receiving side of RAM migration. */
module RamLoad {
  import opened Options
  import opened QemuFile
  import opened RamLayout
  import opened RamStream
  import opened RamRoundTrip

  /** One turn of the block-list loop, and that it uses up input. */
  lemma {:induction false} CheckUnfolds(blocks: seq<Block>, total: nat, s: Stream)
    requires ValidBlocks(blocks)
    ensures total == 0 ==> CheckBlocks(blocks, total, s) == Some(s)
    ensures total > 0 ==>
            var name := GetName(s);
            var length := Get(name.1, 8);
            var found := Find(blocks, 0, CString(name.0));
            if found.None? || 4096 * blocks[found.value].pages != FromBe(length.0)
            then CheckBlocks(blocks, total, s).None?
            else |length.1.input| < |s.input| &&
                 CheckBlocks(blocks, total, s) ==
                 CheckBlocks(blocks, (total - FromBe(length.0)) % 0x1_0000_0000_0000_0000, length.1)
  {
    hide GetName, Get, FromBe, Find, CString;
    ReadsAtEnd(s);
  }

  class RamLoader {
    const blocks: seq<Block>
    var mem: Memory
    var current: Option<nat>
    var stream: Stream

    ghost function Abs(): Loader
      reads this
    {
      Loader(mem, current, stream)
    }

    ghost predicate Valid()
      reads this
    {
      ValidBlocks(blocks) && ValidLoader(blocks, Abs())
    }

    constructor (blocks: seq<Block>, mem: Memory, input: seq<Byte>)
      requires ValidBlocks(blocks) && HasShape(blocks, mem)
      ensures Valid() && this.blocks == blocks && Abs() == Loader(mem, None, Stream(input, false))
    {
      this.blocks, this.mem, current, stream := blocks, mem, None, Stream(input, false);
    }

    method GetBytes(n: nat) returns (bytes: seq<Byte>)
      modifies this`stream
      ensures (bytes, stream) == Get(old(stream), n)
    {
      var got := Get(stream, n);
      bytes, stream := got.0, got.1;
    }

    method GetNameBytes() returns (name: seq<Byte>)
      modifies this`stream
      ensures (name, stream) == GetName(old(stream))
    {
      var len := GetBytes(1);
      name := GetBytes(len[0]);
    }

    /** The search through the block list for a name. */
    method FindBlock(name: seq<Byte>) returns (found: Option<nat>)
      ensures found == Find(blocks, 0, CString(name))
    {
      var i := 0;
      while i < |blocks|
        invariant 0 <= i <= |blocks|
        invariant Find(blocks, 0, CString(name)) == Find(blocks, i, CString(name))
      {
        if CString(name) == blocks[i].id {
          return Some(i);
        }
        i := i + 1;
      }
      return None;
    }

    /** The block-list loop. */
    method CheckBlockList(total: nat) returns (ok: bool)
      requires ValidBlocks(blocks)
      modifies this`stream
      ensures ok <==> CheckBlocks(blocks, total, old(stream)).Some?
      ensures ok ==> CheckBlocks(blocks, total, old(stream)) == Some(stream)
    {
      hide GetName, Get, FromBe, Find, CString, CheckBlocks;
      var left: int := total;
      while left != 0
        invariant 0 <= left
        invariant CheckBlocks(blocks, total, old(stream)) == CheckBlocks(blocks, left, stream)
        decreases |stream.input|, left
      {
        ghost var before := stream;
        var name := GetNameBytes();
        var bytes := GetBytes(8);
        var length := FromBe(bytes);
        var found := FindBlock(name);
        CheckUnfolds(blocks, left, before);
        if found.None? || 4096 * blocks[found.value].pages != length {
          return false;
        }
        left := (left - length) % 0x1_0000_0000_0000_0000;
      }
      CheckUnfolds(blocks, 0, stream);
      return true;
    }

    /** host_from_stream_offset */
    method HostFromStreamOffset(page: nat, flags: nat) returns (host: Option<Place>)
      modifies this`stream, this`current
      ensures (host, Abs()) == Locate(blocks, page, flags, old(Abs()))
    {
      if HasFlag(flags, CONTINUE) {
        if current.None? {
          return None;
        }
        return Some(Place(current.value, page));
      }
      var name := GetNameBytes();
      current := FindBlock(name);
      if current.None? {
        return None;
      }
      return Some(Place(current.value, page));
    }

    /** The page part of a turn: 0 to go on, otherwise the error to return; or a write outside the blocks. */
    method ReadPage(page: nat, flags: nat) returns (ret: int, fault: bool)
      requires Valid()
      modifies this`mem, this`stream, this`current
      ensures var turn := LoadPage(blocks, page, flags, old(Abs()));
              && (fault <==> turn.Fault?)
              && (turn.Again? ==> ret == 0 && Abs() == turn.next)
              && (turn.Failed? ==> ret == turn.ret && ret != 0)
    {
      var host := HostFromStreamOffset(page, flags);
      hide Locate, Get, HasFlag, Put;
      if HasFlag(flags, COMPRESS) {
        if host.None? {
          return -EINVAL, false;
        }
        var ch := GetBytes(1);
        if !InBlocks(blocks, host.value) {
          return 0, true;
        }
        mem := Put(mem, host.value, seq(4096, _ => ch[0]));
      } else {
        if host.None? || !InBlocks(blocks, host.value) {
          if stream.input == [] {
            return -EIO, false;
          }
          return 0, true;
        }
        var data := GetBytes(4096);
        mem := Put(mem, host.value, data);
      }
      return 0, false;
    }

    /** ram_load, for streams of version 4 and for versions it refuses. */
    method RamLoad(version: int) returns (ret: int, fault: bool)
      requires Valid() && version != 3
      modifies this
      ensures version != 4 ==> ret == -EINVAL && !fault && Abs() == old(Abs())
      ensures version == 4 ==>
                var turn := Load(blocks, old(Abs()));
                && (fault <==> turn.Fault?)
                && (turn.Loaded? ==> ret == 0 && Abs() == turn.last)
                && (turn.Failed? ==> ret == turn.ret)
    {
      if version < 3 || version > 4 {
        return -EINVAL, false;
      }
      while true
        invariant Valid() && Load(blocks, old(Abs())) == Load(blocks, Abs())
        decreases |stream.input|
      {
        ghost var s := Abs();
        var again: bool;
        ret, fault, again := LoadOne();
        hide LoadTurn;
        if !again {
          return;
        }
      }
    }

    /** The body of ram_load's loop. */
    method LoadOne() returns (ret: int, fault: bool, again: bool)
      requires Valid()
      modifies this
      ensures var turn := LoadTurn(blocks, old(Abs()));
              && (fault <==> turn.Fault?)
              && (again <==> turn.Again?)
              && (again ==> Valid() && Abs() == turn.next)
              && (turn.Loaded? ==> ret == 0 && Abs() == turn.last)
              && (turn.Failed? ==> ret == turn.ret)
    {
      ret, fault, again := 0, false, false;
      var bytes := GetBytes(8);
      var addr := FromBe(bytes);
      var flags := addr % 4096;
      if HasFlag(flags, MEM_SIZE) {
        var ok := CheckBlockList(4096 * (addr / 4096));
        if !ok {
          return -EINVAL, false, false;
        }
      }
      hide CheckBlocks, Get, HasFlag, LoadPage, FromBe;
      if HasFlag(flags, COMPRESS) || HasFlag(flags, PAGE) {
        ret, fault := ReadPage(addr / 4096, flags);
        if fault || ret != 0 {
          return;
        }
      }
      if stream.error {
        return -EIO, false, false;
      }
      again := !HasFlag(flags, EOS);
    }
  }
}
