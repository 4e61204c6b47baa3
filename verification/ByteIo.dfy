/** block.c: byte-granular I/O (`bdrv_pread`, `bdrv_pwrite`) over whole-sector I/O. */
module ByteIo {
  import opened Basics

  /** `disk` with the bytes from `offset` on replaced by `data`. */
  function Splice(disk: seq<Byte>, offset: nat, data: seq<Byte>): (r: seq<Byte>)
    requires offset + |data| <= |disk|
    ensures |r| == |disk|
  {
    disk[..offset] + data + disk[offset + |data|..]
  }

  /** Two adjacent replacements are one. */
  lemma SpliceTwice(disk: seq<Byte>, offset: nat, a: seq<Byte>, b: seq<Byte>)
    requires offset + |a| + |b| <= |disk|
    ensures Splice(Splice(disk, offset, a), offset + |a|, b) == Splice(disk, offset, a + b)
  {
  }

  /** Changing part of a stretch and writing the whole stretch back changes that part only. */
  lemma SplicePart(disk: seq<Byte>, base: nat, n: nat, skip: nat, data: seq<Byte>)
    requires base + n <= |disk| && skip + |data| <= n
    ensures Splice(disk, base, Splice(disk[base..base + n], skip, data)) == Splice(disk, base + skip, data)
  {
    var lhs := Splice(disk, base, Splice(disk[base..base + n], skip, data));
    var rhs := Splice(disk, base + skip, data);
    forall i | 0 <= i < |disk|
      ensures lhs[i] == rhs[i]
    {
    }
  }

  lemma SliceOfSlice(s: seq<Byte>, lo: nat, hi: nat, skip: nat, n: nat)
    requires lo + skip + n <= hi <= |s|
    ensures s[lo..hi][skip..skip + n] == s[lo + skip..lo + skip + n]
  {
    var a, b := s[lo..hi][skip..skip + n], s[lo + skip..lo + skip + n];
    assert forall i :: 0 <= i < n ==> a[i] == b[i];
  }

  lemma JoinSlices(s: seq<Byte>, a: nat, b: nat, c: nat)
    requires a <= b <= c <= |s|
    ensures s[a..b] + s[b..c] == s[a..c]
  {
  }

  /** A written slice reads back as written, and no other byte changed. */
  lemma WriteThenRead(disk: seq<Byte>, offset: nat, data: seq<Byte>)
    requires offset + |data| <= |disk|
    ensures forall i :: 0 <= i < |disk| && (i < offset || i >= offset + |data|) ==>
              Splice(disk, offset, data)[i] == disk[i]
    ensures Splice(disk, offset, data)[offset..offset + |data|] == data
  {
  }

  /** Sectors [sector, sector + nb) are on a device of `size` bytes and none of them fails. */
  predicate GoodSectors(size: nat, failing: set<nat>, sector: nat, nb: nat)
  {
    512 * (sector + nb) <= size && forall k :: sector <= k < sector + nb ==> k !in failing
  }

  /** So are the sectors that hold bytes [offset, offset + count). */
  predicate GoodBytes(size: nat, failing: set<nat>, offset: nat, count: nat)
  {
    count == 0 || GoodSectors(size, failing, offset / 512, (offset + count - 1) / 512 + 1 - offset / 512)
  }

  /** Bytes that end on a sector boundary, and those behind them, make up the whole. */
  lemma GoodSplit(size: nat, failing: set<nat>, offset: nat, a: nat, b: nat)
    requires (offset + a) % 512 == 0
    ensures GoodBytes(size, failing, offset, a + b)
            <==> GoodBytes(size, failing, offset, a) && GoodBytes(size, failing, offset + a, b)
  {
    if a > 0 && b > 0 {
      var s, m, e := offset / 512, (offset + a) / 512, (offset + a + b - 1) / 512 + 1;
      assert (offset + a - 1) / 512 + 1 == m;
      assert GoodSectors(size, failing, s, e - s)
             <==> GoodSectors(size, failing, s, m - s) && GoodSectors(size, failing, m, e - m);
    }
  }

  /** Bytes inside one sector. */
  lemma GoodWithin(size: nat, failing: set<nat>, offset: nat, n: nat)
    requires 0 < n && offset % 512 + n <= 512
    ensures GoodBytes(size, failing, offset, n) <==> GoodSectors(size, failing, offset / 512, 1)
  {
  }

  /** Whole sectors. */
  lemma GoodWhole(size: nat, failing: set<nat>, offset: nat, nb: nat)
    requires offset % 512 == 0 && nb > 0
    ensures GoodBytes(size, failing, offset, 512 * nb) <==> GoodSectors(size, failing, offset / 512, nb)
  {
  }

  /** The sectors that bytes [offset, offset + count) fill only in part are not among these. */
  predicate EndsAvoid(failing: set<nat>, offset: nat, count: nat)
  {
    && (count > 0 && offset % 512 != 0 ==> offset / 512 !in failing)
    && (count > 0 && (offset + count) % 512 != 0 ==> (offset + count) / 512 !in failing)
  }

  /** Bytes can be written: their sectors accept writes, and those filled only in part can be read first. */
  predicate GoodWrite(size: nat, badReads: set<nat>, badWrites: set<nat>, offset: nat, count: nat)
  {
    GoodBytes(size, badWrites, offset, count) && EndsAvoid(badReads, offset, count)
  }

  /** Bytes can be read exactly if the sector of each of them is on the device and good. */
  lemma GoodBytesExactly(size: nat, failing: set<nat>, offset: nat, count: nat)
    ensures GoodBytes(size, failing, offset, count) <==>
              forall i :: offset <= i < offset + count ==> 512 * (i / 512) + 512 <= size && i / 512 !in failing
  {
    if count > 0 {
      var lo, hi := offset / 512, (offset + count - 1) / 512;
      if GoodBytes(size, failing, offset, count) {
        forall i | offset <= i < offset + count
          ensures 512 * (i / 512) + 512 <= size && i / 512 !in failing
        {
          assert lo <= i / 512 <= hi;
        }
      }
      if forall i :: offset <= i < offset + count ==> 512 * (i / 512) + 512 <= size && i / 512 !in failing {
        forall k | lo <= k < hi + 1
          ensures k !in failing
        {
          var i := if k == lo then offset else 512 * k;
          assert offset <= i < offset + count && i / 512 == k;
        }
        assert offset <= offset + count - 1 < offset + count;
      }
    }
  }

  /** Bytes can be written exactly if, besides, every sector of which they leave a part as it is can be read. */
  lemma GoodWriteExactly(size: nat, badReads: set<nat>, badWrites: set<nat>, offset: nat, count: nat)
    ensures GoodWrite(size, badReads, badWrites, offset, count) <==>
              forall i :: offset <= i < offset + count ==>
                && 512 * (i / 512) + 512 <= size && i / 512 !in badWrites
                && (512 * (i / 512) < offset || offset + count < 512 * (i / 512) + 512 ==> i / 512 !in badReads)
  {
    GoodBytesExactly(size, badWrites, offset, count);
    if count > 0 {
      var last := offset + count - 1;
      forall i | offset <= i < offset + count
        ensures 512 * (i / 512) < offset <==> offset % 512 != 0 && i / 512 == offset / 512
        ensures offset + count < 512 * (i / 512) + 512 <==> (offset + count) % 512 != 0 && i / 512 == last / 512
      {
        Ends(offset, count, i);
      }
      assert (offset + count) % 512 != 0 ==> (offset + count) / 512 == last / 512;
      assert offset <= offset < offset + count && offset <= last < offset + count;
    }
  }

  lemma Ends(offset: nat, count: nat, i: nat)
    requires offset <= i < offset + count
    ensures 512 * (i / 512) < offset <==> offset % 512 != 0 && i / 512 == offset / 512
    ensures offset + count < 512 * (i / 512) + 512 <==>
              (offset + count) % 512 != 0 && i / 512 == (offset + count - 1) / 512
  {
  }

  /** A write inside one sector that is not the whole of it. */
  lemma WriteWithin(size: nat, badReads: set<nat>, badWrites: set<nat>, offset: nat, n: nat)
    requires 0 < n < 512 && offset % 512 + n <= 512
    ensures GoodWrite(size, badReads, badWrites, offset, n)
        <==> GoodSectors(size, badReads, offset / 512, 1) && GoodSectors(size, badWrites, offset / 512, 1)
  {
    GoodWithin(size, badWrites, offset, n);
  }

  lemma WriteNothing(size: nat, badReads: set<nat>, badWrites: set<nat>, offset: nat)
    ensures GoodWrite(size, badReads, badWrites, offset, 0)
  {
  }

  lemma WriteWhole(size: nat, badReads: set<nat>, badWrites: set<nat>, offset: nat, nb: nat)
    requires offset % 512 == 0 && nb > 0
    ensures GoodWrite(size, badReads, badWrites, offset, 512 * nb) <==> GoodSectors(size, badWrites, offset / 512, nb)
  {
    GoodWhole(size, badWrites, offset, nb);
  }

  lemma WriteSplit(size: nat, badReads: set<nat>, badWrites: set<nat>, offset: nat, a: nat, b: nat)
    requires (offset + a) % 512 == 0
    ensures GoodWrite(size, badReads, badWrites, offset, a + b)
        <==> GoodWrite(size, badReads, badWrites, offset, a) && GoodWrite(size, badReads, badWrites, offset + a, b)
  {
    GoodSplit(size, badWrites, offset, a, b);
  }

  /** Only sectors that hold bytes [offset, offset + count) differ. */
  ghost predicate ConfinedTo(before: seq<Byte>, after: seq<Byte>, offset: nat, count: nat)
  {
    && |after| == |before|
    && forall i :: 0 <= i < |after| && (i < offset / 512 * 512 || i >= (offset + count + 511) / 512 * 512) ==>
        after[i] == before[i]
  }

  /** What differs lies in a sector that one of the bytes is in. */
  lemma ConfinedMeans(before: seq<Byte>, after: seq<Byte>, offset: nat, count: nat)
    requires ConfinedTo(before, after, offset, count)
    ensures |after| == |before|
    ensures forall i :: 0 <= i < |after| && after[i] != before[i] ==>
              offset / 512 <= i / 512 && 512 * (i / 512) < offset + count
  {
  }

  /** A failure in some of the sectors. */
  lemma ConfinedSectors(before: seq<Byte>, after: seq<Byte>, offset: nat, count: nat, sector: nat, nb: nat)
    requires |after| == |before| && offset / 512 <= sector && sector + nb <= (offset + count + 511) / 512
    requires forall i :: 0 <= i < |after| && !(512 * sector <= i < 512 * (sector + nb)) ==> after[i] == before[i]
    ensures ConfinedTo(before, after, offset, count)
  {
  }

  /** A failure behind bytes already written. */
  lemma ConfinedRest(before: seq<Byte>, mid: seq<Byte>, after: seq<Byte>, offset: nat, data: seq<Byte>, count: nat)
    requires offset + |data| <= |before| && mid == Splice(before, offset, data)
    requires (offset + |data|) % 512 == 0 && ConfinedTo(mid, after, offset + |data|, count)
    ensures ConfinedTo(before, after, offset, |data| + count)
  {
    WriteThenRead(before, offset, data);
  }

  /** A block device of whole 512-byte sectors; the driver fails to read some of them and to write some. */
  class Device {
    var disk: seq<Byte>
    const badReads: set<nat>
    const badWrites: set<nat>

    constructor (sectors: nat, badReads: set<nat>, badWrites: set<nat>)
      ensures |disk| == 512 * sectors && this.badReads == badReads && this.badWrites == badWrites
    {
      disk := seq(512 * sectors, _ => 0);
      this.badReads, this.badWrites := badReads, badWrites;
    }

    /** `bdrv_read` */
    method Read(sector: nat, nb: nat) returns (ok: bool, buf: seq<Byte>)
      ensures ok == GoodSectors(|disk|, badReads, sector, nb)
      ensures ok <==> 512 * (sector + nb) <= |disk| && forall k :: sector <= k < sector + nb ==> k !in badReads
      ensures ok ==> buf == disk[512 * sector..512 * (sector + nb)]
    {
      ok, buf := GoodSectors(|disk|, badReads, sector, nb), [];
      if ok {
        buf := disk[512 * sector..512 * (sector + nb)];
      }
    }

    /** `bdrv_write`: a failed write may leave anything in its own sectors. */
    method Write(sector: nat, nb: nat, data: seq<Byte>) returns (ok: bool)
      requires |data| == 512 * nb
      modifies this
      ensures |disk| == |old(disk)| && ok == old(GoodSectors(|disk|, badWrites, sector, nb))
      ensures ok <==> 512 * (sector + nb) <= |disk| && forall k :: sector <= k < sector + nb ==> k !in badWrites
      ensures ok ==> 512 * (sector + nb) <= |disk| && disk == Splice(old(disk), 512 * sector, data)
      ensures !ok ==> forall i :: 0 <= i < |disk| && !(512 * sector <= i < 512 * (sector + nb)) ==>
                disk[i] == old(disk[i])
    {
      ok := GoodSectors(|disk|, badWrites, sector, nb);
      if ok {
        disk := Splice(disk, 512 * sector, data);
      }
    }

    /** One of the three parts of `bdrv_pread`: `n` bytes from `skip` of the sectors read, to `buf + at`. */
    method ReadPart(sector: nat, nb: nat, skip: nat, n: nat, buf: array<Byte>, at: nat) returns (ok: bool)
      requires skip + n <= 512 * nb && at + n <= buf.Length
      modifies buf
      ensures ok == GoodSectors(|disk|, badReads, sector, nb)
      ensures ok ==> 512 * (sector + nb) <= |disk|
      ensures ok ==> buf[..] == Splice(old(buf[..]), at, disk[512 * sector + skip..512 * sector + skip + n])
    {
      var data;
      ok, data := Read(sector, nb);
      if ok {
        SliceOfSlice(disk, 512 * sector, 512 * (sector + nb), skip, n);
        Fill(buf, at, data[skip..skip + n]);
      }
    }

    /** `bdrv_pread`: for every offset and count, exactly that slice of the flat byte array. */
    method Pread(offset: nat, count1: nat, buf: array<Byte>) returns (ok: bool)
      requires count1 <= buf.Length
      modifies buf
      ensures ok == GoodBytes(|disk|, badReads, offset, count1)
      ensures ok && count1 > 0 ==> offset + count1 <= |disk|
      ensures ok && count1 > 0 ==> buf[..] == Splice(old(buf[..]), 0, disk[offset..offset + count1])
      ensures ok && count1 == 0 ==> buf[..] == old(buf[..])
    {
      hide Splice, GoodSectors;
      ghost var b0 := buf[..];
      var count, at := count1, 0;
      var len := (512 - offset % 512) % 512;
      if len > count {
        len := count;
      }
      var sector := offset / 512;
      if len > 0 {
        GoodWithin(|disk|, badReads, offset, len);
        ok := ReadPart(sector, 1, offset % 512, len, buf, at);
        count := count - len;
        if count > 0 {
          GoodSplit(|disk|, badReads, offset, len, count);
        }
        if !ok {
          return;
        }
        if count == 0 {
          return;
        }
        sector := sector + 1;
        at := at + len;
      }
      ok := ReadRest(offset + at, sector, count, buf, at);
      if ok && at > 0 {
        SpliceTwice(b0, 0, disk[offset..offset + at], disk[offset + at..offset + count1]);
        JoinSlices(disk, offset, offset + at, offset + count1);
      }
    }

    /** `bdrv_pread` from the aligned part on. */
    method ReadRest(ghost offset: nat, sector0: nat, count0: nat, buf: array<Byte>, at0: nat) returns (ok: bool)
      requires (count0 > 0 ==> offset == 512 * sector0) && at0 + count0 <= buf.Length
      modifies buf
      ensures ok == GoodBytes(|disk|, badReads, offset, count0)
      ensures ok && count0 > 0 ==> offset + count0 <= |disk|
      ensures ok && count0 > 0 ==> buf[..] == Splice(old(buf[..]), at0, disk[offset..offset + count0])
      ensures ok && count0 == 0 ==> buf[..] == old(buf[..])
    {
      hide Splice, GoodSectors;
      if count0 == 0 {
        return true;
      }
      ghost var b0 := buf[..];
      var nb := count0 / 512;
      var mid := 512 * nb;
      GoodSplit(|disk|, badReads, offset, mid, count0 - mid);
      if nb > 0 {
        GoodWhole(|disk|, badReads, offset, nb);
        ok := ReadPart(sector0, nb, 0, mid, buf, at0);
        if !ok {
          return;
        }
      }
      ok := true;
      if count0 - mid > 0 {
        GoodWithin(|disk|, badReads, offset + mid, count0 - mid);
        ok := ReadPart(sector0 + nb, 1, 0, count0 - mid, buf, at0 + mid);
        if ok && nb > 0 {
          SpliceTwice(b0, at0, disk[offset..offset + mid], disk[offset + mid..offset + count0]);
          JoinSlices(disk, offset, offset + mid, offset + count0);
        }
      }
    }

    /** The unaligned ends of `bdrv_pwrite`: read a sector, change part of it, write it back. */
    method ModifySector(sector: nat, skip: nat, data: seq<Byte>) returns (ok: bool)
      requires skip + |data| <= 512
      modifies this
      ensures |disk| == |old(disk)|
              && ok == old(GoodSectors(|disk|, badReads, sector, 1) && GoodSectors(|disk|, badWrites, sector, 1))
      ensures ok ==> 512 * (sector + 1) <= |disk| && disk == Splice(old(disk), 512 * sector + skip, data)
      ensures !ok ==> forall i :: 0 <= i < |disk| && !(512 * sector <= i < 512 * (sector + 1)) ==>
                disk[i] == old(disk[i])
    {
      var tmp;
      ok, tmp := Read(sector, 1);
      if !ok {
        return;
      }
      SplicePart(disk, 512 * sector, 512, skip, data);
      ok := Write(sector, 1, Splice(tmp, skip, data));
    }

    /** `bdrv_pwrite`: for every offset and count, exactly that slice of the flat byte array changes. */
    method Pwrite(offset: nat, buf: seq<Byte>) returns (ok: bool)
      modifies this
      ensures |disk| == |old(disk)| && ok == old(GoodWrite(|disk|, badReads, badWrites, offset, |buf|))
      ensures ok && |buf| > 0 ==> offset + |buf| <= |disk| && disk == Splice(old(disk), offset, buf)
      ensures ok && |buf| == 0 ==> disk == old(disk)
      ensures !ok ==> ConfinedTo(old(disk), disk, offset, |buf|)
      ensures !ok ==> forall i :: 0 <= i < |disk| && disk[i] != old(disk)[i] ==>
                        offset / 512 <= i / 512 && 512 * (i / 512) < offset + |buf|
    {
      hide Splice, GoodSectors, GoodWrite, ConfinedTo;
      ghost var d0 := disk;
      var count, at := |buf|, 0;
      var len := (512 - offset % 512) % 512;
      if len > count {
        len := count;
      }
      var sector := offset / 512;
      if len > 0 {
        WriteWithin(|disk|, badReads, badWrites, offset, len);
        ok := ModifySector(sector, offset % 512, buf[..len]);
        count := count - len;
        if count > 0 {
          WriteSplit(|disk|, badReads, badWrites, offset, len, count);
        }
        if !ok {
          ConfinedSectors(d0, disk, offset, |buf|, sector, 1);
          ConfinedMeans(d0, disk, offset, |buf|);
          return;
        }
        if count == 0 {
          assert buf[..|buf|] == buf;
          return;
        }
        sector := sector + 1;
        at := at + len;
      }
      ghost var d1 := disk;
      ok := WriteRest(offset + at, sector, buf[at..]);
      if at > 0 {
        if ok {
          SpliceTwice(d0, offset, buf[..at], buf[at..]);
          assert buf[..at] + buf[at..] == buf;
        } else {
          ConfinedRest(d0, d1, disk, offset, buf[..at], |buf| - at);
          ConfinedMeans(d0, disk, offset, |buf|);
        }
      } else {
        assert buf[0..] == buf;
        if !ok {
          ConfinedMeans(d0, disk, offset, |buf|);
        }
      }
    }

    /** `bdrv_pwrite` from the aligned part on. */
    method WriteRest(ghost offset: nat, sector: nat, buf: seq<Byte>) returns (ok: bool)
      requires |buf| > 0 ==> offset == 512 * sector
      modifies this
      ensures |disk| == |old(disk)| && ok == old(GoodWrite(|disk|, badReads, badWrites, offset, |buf|))
      ensures ok && |buf| > 0 ==> offset + |buf| <= |disk| && disk == Splice(old(disk), offset, buf)
      ensures ok && |buf| == 0 ==> disk == old(disk)
      ensures !ok ==> ConfinedTo(old(disk), disk, offset, |buf|)
    {
      hide Splice, GoodSectors, GoodWrite, ConfinedTo;
      WriteNothing(|disk|, badReads, badWrites, offset + |buf|);
      if |buf| == 0 {
        return true;
      }
      ghost var d0 := disk;
      var nb := |buf| / 512;
      var mid := 512 * nb;
      WriteSplit(|disk|, badReads, badWrites, offset, mid, |buf| - mid);
      if nb > 0 {
        WriteWhole(|disk|, badReads, badWrites, offset, nb);
        ok := Write(sector, nb, buf[..mid]);
        if !ok {
          ConfinedSectors(d0, disk, offset, |buf|, sector, nb);
          return;
        }
      }
      ok := true;
      if |buf| - mid > 0 {
        WriteWithin(|disk|, badReads, badWrites, offset + mid, |buf| - mid);
        ghost var d1 := disk;
        ok := ModifySector(sector + nb, 0, buf[mid..]);
        if !ok {
          ConfinedSectors(d1, disk, offset + mid, |buf| - mid, sector + nb, 1);
        }
        if nb > 0 {
          if ok {
            SpliceTwice(d0, offset, buf[..mid], buf[mid..]);
            assert buf[..mid] + buf[mid..] == buf;
          } else {
            ConfinedRest(d0, d1, disk, offset, buf[..mid], |buf| - mid);
          }
        } else {
          assert buf[0..] == buf;
        }
      } else {
        assert buf[..mid] == buf;
      }
    }
  }

  /** Byte `i` of what `data` at `offset` has made of `before`. */
  function Updated(before: seq<Byte>, offset: nat, data: seq<Byte>, i: nat): Byte
    requires i < |before|
  {
    if offset <= i < offset + |data| then data[i - offset] else before[i]
  }

  lemma ReadBack(before: seq<Byte>, after: seq<Byte>, offset: nat, data: seq<Byte>, at: nat, n: nat, found: seq<Byte>)
    requires |after| == |before| && at + n <= |after| && found == after[at..at + n]
    requires if |data| == 0 then after == before
             else offset + |data| <= |before| && after == Splice(before, offset, data)
    ensures forall i :: 0 <= i < n ==> found[i] == Updated(before, offset, data, at + i)
  {
    forall i | 0 <= i < n
      ensures found[i] == Updated(before, offset, data, at + i)
    {
      assert found[i] == after[at + i];
    }
  }

  /** A slice copied to the head of a buffer. */
  lemma HeadIs(buf: seq<Byte>, data: seq<Byte>)
    requires |data| <= |buf|
    ensures forall i :: 0 <= i < |buf| ==> Splice(buf, 0, data)[i] == if i < |data| then data[i] else buf[i]
  {
  }

  /** After a successful `Pwrite`, a `Pread` anywhere finds the bytes written where they were written and the old ones
      elsewhere. */
  method WriteReadBack(dev: Device, offset: nat, data: seq<Byte>, at: nat, n: nat, buf: array<Byte>)
    returns (written: bool, read: bool)
    requires n <= buf.Length
    modifies dev, buf
    ensures written == old(GoodWrite(|dev.disk|, dev.badReads, dev.badWrites, offset, |data|))
    ensures read == old(GoodBytes(|dev.disk|, dev.badReads, at, n))
    ensures read && n > 0 ==> at + n <= old(|dev.disk|)
    ensures written && read ==> forall i :: 0 <= i < n ==> buf[i] == Updated(old(dev.disk), offset, data, at + i)
  {
    hide Splice, GoodWrite, GoodBytes, Updated;
    written := dev.Pwrite(offset, data);
    ghost var b0 := buf[..];
    read := dev.Pread(at, n, buf);
    if written && read && n > 0 {
      ReadBack(old(dev.disk), dev.disk, offset, data, at, n, dev.disk[at..at + n]);
      HeadIs(b0, dev.disk[at..at + n]);
      assert forall i :: 0 <= i < buf.Length ==> buf[i] == buf[..][i];
    }
  }

  /** `memcpy(buf + at, data, |data|)` */
  method Fill(buf: array<Byte>, at: nat, data: seq<Byte>)
    requires at + |data| <= buf.Length
    modifies buf
    ensures buf[..] == Splice(old(buf[..]), at, data)
  {
    for n := 0 to |data|
      invariant forall j :: 0 <= j < buf.Length ==> buf[j] == if at <= j < at + n then data[j - at] else old(buf[j])
    {
      buf[at + n] := data[n];
    }
  }
}
