/** blk_send and block_load as they work on a file. */
module BlockStreamCode {
  import opened BlockMigration
  import opened BlockStream
  import opened Bytes
  import opened Options
  import opened QemuFile
  import opened Sectors

  /** The sending end of a migration file. */
  class BlockSender {
    var output: seq<Byte>

    /** blk_send: the address, the name and the whole buffer, whatever part of it the chunk fills. */
    method BlkSend(name: Name, sector: nat, buf: seq<Byte>, ghost b: Block, ghost pad: seq<Byte>)
      requires |name| < 256 && sector == b.chunk * CHUNK && buf == Flatten(b.data) + pad
      modifies this
      ensures output == old(output) + EncodeChunk(name, b, pad)
    {
      ghost var was, header := output, Header(sector, DEVICE_BLOCK);
      output := output + Be(sector * SECTOR_SIZE + DEVICE_BLOCK, 8);
      output := output + [|name|];
      output := output + name;
      output := output + buf;
      hide Header, Be, Flatten;
      assert was + header + [|name|] + name == was + header + NameField(name, false) by {
        Associative(was + header, [|name|], name);
      }
      Associative4(was, header, NameField(name, false), buf);
    }
  }

  /** The receiving end: the disks by name, and the file. */
  class BlockLoader {
    const names: seq<Name>
    var disks: Disks
    var stream: Stream

    ghost function Abs(): Receiver
      reads this
    {
      Receiver(disks, stream)
    }

    constructor (names: seq<Name>, disks: Disks, stream: Stream)
      ensures this.names == names && Abs() == Receiver(disks, stream)
    {
      this.names, this.disks, this.stream := names, disks, stream;
    }

    /** bdrv_find */
    method BdrvFind(name: Name) returns (d: Option<nat>)
      ensures d == Find(names, 0, name)
    {
      var i := 0;
      while i < |names|
        invariant i <= |names| && Find(names, 0, name) == Find(names, i, name)
      {
        if names[i] == name {
          return Some(i);
        }
        i := i + 1;
      }
      return None;
    }

    /** bdrv_write of the first `nr` sectors of a buffer: refused unless they lie on the disk. */
    method BdrvWrite(d: nat, sector: int, buf: seq<Byte>, nr: int) returns (ret: int)
      requires d < |disks| && nr * SECTOR_SIZE <= |buf|
      modifies this`disks
      ensures var disk := if nr < 0 then None else WriteSectors(old(disks[d]), sector, Cut(buf, nr));
              if disk.None? then ret == -EIO && disks == old(disks)
              else ret == 0 && disks == old(disks)[d := disk.value]
    {
      if sector < 0 || nr < 0 || sector + nr > |disks[d]| {
        return -EIO;
      }
      disks := disks[d := disks[d][..sector] + Cut(buf, nr) + disks[d][sector + nr..]];
      return 0;
    }

    /** The size of the device of the record before is remembered. */
    ghost predicate Remembers(prev: Option<nat>, total: int)
      reads this
    {
      prev.Some? ==> prev.value < |disks| && total == |disks[prev.value]| && 0 < total
    }

    /** The part of a turn that reads a chunk. */
    method ReadChunk(sector: int, prev: Option<nat>, total: int)
      returns (ret: int, prev': Option<nat>, total': int)
      requires |names| == |disks| && Remembers(prev, total)
      modifies this`disks, this`stream
      ensures (Abs(), ret) == LoadChunk(names, sector, old(Abs()))
      ensures ret == 0 ==> Remembers(prev', total')
    {
      hide Get, GetName, Find, CString, Cut, WriteSectors;
      prev', total' := prev, total;
      var name := GetName(stream);
      stream := name.1;
      var found := BdrvFind(CString(name.0));
      if found.None? {
        ret := -EINVAL;
        return;
      }
      if found != prev {
        prev', total' := found, |disks[found.value]|;
        if total' <= 0 {
          ret := -EINVAL;
          return;
        }
      }
      var nr: int := CHUNK;
      if total' - sector < CHUNK {
        nr := total' - sector;
      }
      var data := Get(stream, CHUNK * SECTOR_SIZE);
      stream := data.1;
      ret := BdrvWrite(found.value, sector, data.0, nr);
    }

    /** block_load: turns until an end mark or an error. */
    method BlockLoad() returns (ret: int)
      requires |names| == |disks|
      modifies this`disks, this`stream
      ensures (Abs(), ret) == Load(names, old(Abs()))
    {
      hide Get, FromBe, HasFlag, LoadChunk;
      var prev, total := None, 0;
      while true
        invariant |names| == |disks| && Remembers(prev, total)
        invariant Load(names, old(Abs())) == Load(names, Abs())
        decreases |stream.input|
      {
        ghost var s := Abs();
        ghost var turn := LoadTurn(names, s);
        var word := Get(stream, 8);
        stream := word.1;
        var n := FromBe(word.0);
        var flags := n % SECTOR_SIZE;
        if HasFlag(flags, DEVICE_BLOCK) {
          ret, prev, total := ReadChunk(Signed(n) / SECTOR_SIZE, prev, total);
          if ret < 0 {
            return;
          }
        } else if HasFlag(flags, PROGRESS) {
        } else if !HasFlag(flags, EOS) {
          return -EINVAL;
        }
        if stream.error {
          return -EIO;
        }
        if HasFlag(flags, EOS) {
          return 0;
        }
        assert turn == Again(Abs());
      }
    }
  }
}
