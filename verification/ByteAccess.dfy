/** bdrv_pread and bdrv_pwrite: byte access built on sector access. */
module ByteAccess {
  import opened Bytes

  /** BDRV_SECTOR_SIZE */
  const SECTOR: nat := 512
  const EIO: int := 5

  /** A disk that answers sector requests. `faults` lists the results of the next requests: a negative
      entry makes the request fail, and an exhausted list means success. */
  class Disk {
    var bytes: seq<bv8>
    var faults: seq<int>

    ghost predicate Valid()
      reads this
    {
      |bytes| % SECTOR == 0
    }

    /** The next requests succeed. */
    predicate Healthy()
      reads this
    {
      faults == []
    }

    method NextFault() returns (ret: int)
      modifies `faults
      ensures ret <= 0 && (old(Healthy()) ==> ret == 0 && Healthy())
    {
      ret := 0;
      if faults != [] {
        ret := if faults[0] < 0 then faults[0] else 0;
        faults := faults[1..];
      }
    }

    /** bdrv_read */
    method BdrvRead(sector: nat, n: nat) returns (ret: int, data: seq<bv8>)
      requires Valid()
      modifies `faults
      ensures ret <= 0 && (ret == 0 ==> SECTOR * (sector + n) <= |bytes| && data == bytes[SECTOR * sector..SECTOR * (sector + n)])
      ensures old(Healthy()) ==> Healthy() && (SECTOR * (sector + n) <= |bytes| ==> ret == 0)
    {
      data := [];
      ret := NextFault();
      if ret == 0 {
        if SECTOR * (sector + n) > |bytes| {
          ret := -EIO;
        } else {
          data := bytes[SECTOR * sector..SECTOR * (sector + n)];
        }
      }
    }

    /** bdrv_write */
    method BdrvWrite(sector: nat, data: seq<bv8>) returns (ret: int)
      requires Valid() && |data| % SECTOR == 0
      modifies this
      ensures Valid() && ret <= 0 && |bytes| == |old(bytes)|
      ensures ret == 0 ==> SECTOR * sector + |data| <= |bytes| && bytes == Splice(old(bytes), SECTOR * sector, data)
      ensures ret < 0 ==> bytes == old(bytes)
      ensures old(Healthy()) ==> Healthy() && (SECTOR * sector + |data| <= |bytes| ==> ret == 0)
    {
      ret := NextFault();
      if ret == 0 {
        if SECTOR * sector + |data| > |bytes| {
          ret := -EIO;
        } else {
          bytes := Splice(bytes, SECTOR * sector, data);
        }
      }
    }

    /** Read `n` sectors and copy `len` of their bytes, from `skip` on, to the buffer. */
    method ReadInto(sector: nat, n: nat, skip: nat, len: nat, buf: array<bv8>, at: nat, ghost orig: seq<bv8>,
                    ghost offset: nat)
      returns (ret: int)
      requires Valid() && Filled(orig, buf[..], bytes, offset, at) && at + len <= buf.Length
      requires 0 < len && skip + len <= SECTOR * n && offset + at == SECTOR * sector + skip
      modifies `faults, buf
      ensures ret <= 0 && (ret == 0 ==> Filled(orig, buf[..], bytes, offset, at + len))
      ensures old(Healthy()) ==> Healthy() && (SECTOR * (sector + n) <= |bytes| ==> ret == 0)
    {
      hide Splice, Filled;
      FilledLength(orig, buf[..], bytes, offset, at);
      var data;
      ret, data := BdrvRead(sector, n);
      if ret < 0 {
        return;
      }
      FillMore(orig, buf[..], bytes, offset, at, len);
      assert data[skip..skip + len] == bytes[offset + at..offset + at + len];
      Memcpy(buf, at, data[skip..skip + len]);
    }

    /** bdrv_pread: the bytes come from a partial first sector, whole sectors and a partial last
        sector. */
    method Pread(offset: nat, buf: array<bv8>, count1: nat) returns (ret: int)
      requires Valid() && count1 <= buf.Length
      modifies `faults, buf
      ensures ret == count1 || ret < 0
      ensures ret == count1 && count1 > 0 ==>
                offset + count1 <= |bytes| && buf[..] == Splice(old(buf[..]), 0, bytes[offset..offset + count1])
      ensures ret == 0 ==> buf[..] == old(buf[..])
      ensures old(Healthy()) && offset + count1 <= |bytes| ==> ret == count1
    {
      hide Splice;
      ghost var orig := buf[..];
      var count: int := count1;
      var len := (SECTOR - offset) % SECTOR;
      HeadLength(offset, len);
      if len > count {
        len := count;
      }
      var sector, at := offset / SECTOR, 0;
      if len > 0 {
        var r := ReadInto(sector, 1, offset % SECTOR, len, buf, 0, orig, offset);
        if r < 0 {
          return r;
        }
        count := count - len;
        if count == 0 {
          return count1;
        }
        sector := sector + 1;
        at := at + len;
      }
      var nbSectors := count / SECTOR;
      if nbSectors > 0 {
        len := nbSectors * SECTOR;
        var r := ReadInto(sector, nbSectors, 0, len, buf, at, orig, offset);
        if r < 0 {
          return r;
        }
        sector := sector + nbSectors;
        at := at + len;
        count := count - len;
      }
      if count > 0 {
        var r := ReadInto(sector, 1, 0, count, buf, at, orig, offset);
        if r < 0 {
          return r;
        }
      }
      return count1;
    }

    /** Replace part of one sector: read it, change the bytes from `skip` on, write it back. */
    method UpdateSector(sector: nat, skip: nat, data: seq<bv8>) returns (ret: int)
      requires Valid() && skip + |data| <= SECTOR
      modifies this
      ensures Valid() && ret <= 0 && |bytes| == |old(bytes)|
      ensures ret == 0 ==>
                SECTOR * (sector + 1) <= |bytes| && bytes == Splice(old(bytes), SECTOR * sector + skip, data)
      ensures ret < 0 ==> bytes == old(bytes)
      ensures old(Healthy()) ==> Healthy() && (SECTOR * (sector + 1) <= |bytes| ==> ret == 0)
    {
      var tmp;
      ret, tmp := BdrvRead(sector, 1);
      if ret < 0 {
        return;
      }
      SectorSplice(bytes, SECTOR * sector, skip, data);
      tmp := Splice(tmp, skip, data);
      ret := BdrvWrite(sector, tmp);
    }

    /** The read-modify-write of a partly covered sector. */
    method WriteEdge(sector: nat, skip: nat, buf: seq<bv8>, at: nat, len: nat, ghost orig: seq<bv8>, ghost offset: nat)
      returns (ret: int)
      requires Valid() && Written(orig, bytes, buf, offset, at) && at + len <= |buf|
      requires 0 < len && skip + len <= SECTOR && offset + at == SECTOR * sector + skip
      modifies this
      ensures Valid() && |bytes| == |old(bytes)| && ret <= 0
      ensures Written(orig, bytes, buf, offset, if ret == 0 then at + len else at)
      ensures old(Healthy()) ==> Healthy() && (SECTOR * (sector + 1) <= |bytes| ==> ret == 0)
    {
      hide Splice, Written;
      ghost var before := bytes;
      ret := UpdateSector(sector, skip, buf[at..at + len]);
      if ret == 0 {
        WrittenLength(orig, before, buf, offset, at);
        WriteMore(orig, before, buf, offset, at, len);
      }
    }

    /** The sectors covered completely are written in place. */
    method WriteWhole(sector: nat, n: nat, buf: seq<bv8>, at: nat, ghost orig: seq<bv8>, ghost offset: nat)
      returns (ret: int)
      requires Valid() && Written(orig, bytes, buf, offset, at) && at + SECTOR * n <= |buf|
      requires 0 < n && offset + at == SECTOR * sector
      modifies this
      ensures Valid() && |bytes| == |old(bytes)| && ret <= 0
      ensures Written(orig, bytes, buf, offset, if ret == 0 then at + SECTOR * n else at)
      ensures old(Healthy()) ==> Healthy() && (SECTOR * (sector + n) <= |bytes| ==> ret == 0)
    {
      hide Splice, Written;
      ghost var before := bytes;
      ret := BdrvWrite(sector, buf[at..at + SECTOR * n]);
      if ret == 0 {
        WrittenLength(orig, before, buf, offset, at);
        WriteMore(orig, before, buf, offset, at, SECTOR * n);
      }
    }

    /** bdrv_pwrite. On success exactly the requested bytes change; on a failure a prefix of them has
        been written and nothing else. */
    method Pwrite(offset: nat, buf: seq<bv8>) returns (ret: int)
      requires Valid()
      modifies this
      ensures Valid() && |bytes| == |old(bytes)|
      ensures ret == |buf| || ret < 0
      ensures ret == |buf| ==> Written(old(bytes), bytes, buf, offset, |buf|)
      ensures exists k :: 0 <= k <= |buf| && Written(old(bytes), bytes, buf, offset, k)
      ensures old(Healthy()) && offset + |buf| <= |bytes| ==> ret == |buf|
    {
      hide Splice, Written;
      ghost var orig := bytes;
      var count: int := |buf|;
      var len := (SECTOR - offset) % SECTOR;
      HeadLength(offset, len);
      if len > count {
        len := count;
      }
      var sector, at := offset / SECTOR, 0;
      NothingWritten(orig, buf, offset);
      if len > 0 {
        var r := WriteEdge(sector, offset % SECTOR, buf, 0, len, orig, offset);
        if r < 0 {
          return r;
        }
        count := count - len;
        if count == 0 {
          return |buf|;
        }
        sector := sector + 1;
        at := at + len;
      }
      var nbSectors := count / SECTOR;
      if nbSectors > 0 {
        var r := WriteWhole(sector, nbSectors, buf, at, orig, offset);
        if r < 0 {
          return r;
        }
        sector := sector + nbSectors;
        len := nbSectors * SECTOR;
        at := at + len;
        count := count - len;
      }
      if count > 0 {
        var r := WriteEdge(sector, 0, buf, at, count, orig, offset);
        if r < 0 {
          return r;
        }
      }
      return |buf|;
    }
  }

  lemma HeadLength(offset: nat, len: nat)
    requires len == (SECTOR - offset) % SECTOR
    ensures len == 0 ==> offset == SECTOR * (offset / SECTOR)
    ensures len > 0 ==> offset + len == SECTOR * (offset / SECTOR + 1) && offset % SECTOR + len == SECTOR
  {
  }

  lemma WrittenLength(orig: seq<bv8>, bytes: seq<bv8>, buf: seq<bv8>, offset: nat, k: nat)
    requires Written(orig, bytes, buf, offset, k)
    ensures |bytes| == |orig|
  {
  }

  /** The first `k` bytes of `buf` are on the disk at `offset`; every other byte is the original. */
  ghost predicate Written(orig: seq<bv8>, bytes: seq<bv8>, buf: seq<bv8>, offset: nat, k: nat) {
    && k <= |buf| && |bytes| == |orig|
    && (k == 0 ==> bytes == orig)
    && (k > 0 ==> offset + k <= |orig| && bytes == Splice(orig, offset, buf[..k]))
  }

  lemma NothingWritten(orig: seq<bv8>, buf: seq<bv8>, offset: nat)
    ensures Written(orig, orig, buf, offset, 0)
  {
  }

  lemma WriteMore(orig: seq<bv8>, before: seq<bv8>, buf: seq<bv8>, offset: nat, k: nat, m: nat)
    requires Written(orig, before, buf, offset, k) && m > 0 && k + m <= |buf| && offset + k + m <= |orig|
    ensures |before| == |orig|
    ensures Written(orig, Splice(before, offset + k, buf[k..k + m]), buf, offset, k + m)
  {
    if k > 0 {
      SpliceJoin(orig, offset, buf[..k], buf[k..k + m]);
      assert buf[..k] + buf[k..k + m] == buf[..k + m];
    } else {
      assert buf[0..m] == buf[..m];
    }
  }

  /** Writing a changed sector back changes the disk in that place only. */
  lemma SectorSplice(bytes: seq<bv8>, at: nat, skip: nat, data: seq<bv8>)
    requires at + SECTOR <= |bytes| && skip + |data| <= SECTOR
    ensures Splice(bytes, at, Splice(bytes[at..at + SECTOR], skip, data)) == Splice(bytes, at + skip, data)
  {
  }

  /** A complete write followed by a read of the same range returns what was written, and a read of a
      disjoint range returns what was there before. */
  lemma ReadAfterWrite(orig: seq<bv8>, bytes: seq<bv8>, buf: seq<bv8>, offset: nat, from: nat, n: nat)
    requires Written(orig, bytes, buf, offset, |buf|) && buf != [] && from + n <= |bytes|
    ensures bytes[offset..offset + |buf|] == buf
    ensures from + n <= offset || offset + |buf| <= from ==> bytes[from..from + n] == orig[from..from + n]
  {
    assert buf[..|buf|] == buf;
    SpliceRead(orig, offset, buf);
  }

  method Memcpy(dst: array<bv8>, at: nat, src: seq<bv8>)
    requires at + |src| <= dst.Length
    modifies dst
    ensures dst[..] == Splice(old(dst[..]), at, src)
  {
    forall i | 0 <= i < |src| {
      dst[at + i] := src[i];
    }
  }

  /** The first `n` bytes of the buffer are the disk's bytes from `offset` on. */
  ghost predicate Filled(orig: seq<bv8>, buf: seq<bv8>, bytes: seq<bv8>, offset: nat, n: nat) {
    && n <= |orig| && (n == 0 ==> buf == orig)
    && (n > 0 ==> offset + n <= |bytes| && buf == Splice(orig, 0, bytes[offset..offset + n]))
  }

  lemma FilledLength(orig: seq<bv8>, buf: seq<bv8>, bytes: seq<bv8>, offset: nat, n: nat)
    requires Filled(orig, buf, bytes, offset, n)
    ensures |buf| == |orig|
  {
  }

  lemma FillMore(orig: seq<bv8>, buf: seq<bv8>, bytes: seq<bv8>, offset: nat, n: nat, m: nat)
    requires offset + n + m <= |bytes| && n + m <= |orig| == |buf| && m > 0
    requires Filled(orig, buf, bytes, offset, n)
    ensures Filled(orig, Splice(buf, n, bytes[offset + n..offset + n + m]), bytes, offset, n + m)
  {
    if n > 0 {
      SpliceJoin(orig, 0, bytes[offset..offset + n], bytes[offset + n..offset + n + m]);
      assert bytes[offset..offset + n] + bytes[offset + n..offset + n + m] == bytes[offset..offset + n + m];
    }
  }
}
