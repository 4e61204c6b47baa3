/** block.c: the dirty bitmap of a block device. One bit stands for a chunk of 2048 sectors. */
module DirtyBitmap {
  import opened Words
  import opened Bitops
  import opened Bitmap

  /** BDRV_SECTORS_PER_DIRTY_CHUNK is 2048; a word of the bitmap spans 2048 * 64 sectors. */
  function Chunks(totalSectors: nat): nat
  {
    (totalSectors + 2047) / 2048
  }

  /** First dirty chunk in cyclic order after chunk `c`. */
  function NextDirtyChunk(bm: seq<Word>, chunks: nat, c: nat): nat
    requires chunks <= |bm| * 64
  {
    var r := Scan(bm, chunks, c + 1, true);
    if r < chunks then r else Scan(bm, chunks, 0, true)
  }

  class BlockDriverState {
    var totalSectors: nat
    var dirtyBitmap: array?<Word>
    var dirtyCount: int

    /** The bitmap has the size `bdrv_set_dirty_tracking` gives it, and the counter counts its bits. */
    ghost predicate Valid()
      reads this, dirtyBitmap
    {
      if dirtyBitmap == null then dirtyCount == 0
      else
        && dirtyBitmap.Length == (totalSectors + 2048 * 64 - 1) / (2048 * 64)
        && dirtyCount == Count(dirtyBitmap[..])
        && forall i: nat :: Chunks(totalSectors) <= i < dirtyBitmap.Length * 64 ==> !BitAt(dirtyBitmap[..], i)
    }

    constructor (sectors: nat)
      ensures Valid() && dirtyBitmap == null && totalSectors == sectors
    {
      totalSectors, dirtyBitmap, dirtyCount := sectors, null, 0;
    }

    /** `bdrv_set_dirty_tracking`. Enabling twice zeroes the counter but keeps the bits, so the counter
        is right afterwards exactly when tracking was off or nothing was dirty. */
    method SetDirtyTracking(enable: bool)
      requires Valid()
      modifies this
      ensures totalSectors == old(totalSectors) && dirtyCount == 0
      ensures !enable ==> dirtyBitmap == null && Valid()
      ensures enable ==> dirtyBitmap != null
      ensures enable && old(dirtyBitmap) == null ==> fresh(dirtyBitmap) && Count(dirtyBitmap[..]) == 0
      ensures enable && old(dirtyBitmap) == null ==> dirtyBitmap.Length == (totalSectors + 131071) / 131072
      ensures old(dirtyBitmap) != null && enable ==> dirtyBitmap == old(dirtyBitmap) && unchanged(old(dirtyBitmap))
      ensures enable ==> (Valid() <==> old(dirtyBitmap) == null || old(dirtyCount) == 0)
    {
      dirtyCount := 0;
      if enable {
        if dirtyBitmap == null {
          var size := (totalSectors + 2048 * 64 - 1) / (2048 * 64);
          dirtyBitmap := new Word[size](_ => ZERO);
          CountToZero(dirtyBitmap[..], size * 64);
        }
      } else {
        dirtyBitmap := null;
      }
    }

    /** `set_dirty_bitmap`: exactly the chunks the sectors touch change, and the counter follows. */
    method SetDirtyBitmap(sectorNum: nat, nbSectors: nat, dirty: bool)
      requires Valid() && dirtyBitmap != null
      requires nbSectors > 0 && sectorNum + nbSectors <= totalSectors
      modifies this`dirtyCount, dirtyBitmap
      ensures Valid()
      ensures RangeUpdated(old(dirtyBitmap[..]), dirtyBitmap[..],
                           sectorNum / 2048, (sectorNum + nbSectors - 1) / 2048 + 1, dirty)
      ensures forall c: nat :: c < dirtyBitmap.Length * 64 ==>
                BitAt(dirtyBitmap[..], c)
                == if sectorNum / 2048 <= c <= (sectorNum + nbSectors - 1) / 2048 then dirty
                   else BitAt(old(dirtyBitmap[..]), c)
    {
      hide Count, BitAt, RangeUpdated, BitUpdated;
      var start := sectorNum / 2048;
      var end := (sectorNum + nbSectors - 1) / 2048;
      ChunkInDevice(end / 64, end % 64, totalSectors);
      RangeNone(dirtyBitmap[..], start, dirty);
      while start <= end
        invariant sectorNum / 2048 <= start <= end + 1
        invariant dirtyCount == Count(dirtyBitmap[..])
        invariant RangeUpdated(old(dirtyBitmap[..]), dirtyBitmap[..], sectorNum / 2048, start, dirty)
      {
        ghost var before := dirtyBitmap[..];
        FlipBit(start, dirty);
        RangeExtend(old(dirtyBitmap[..]), before, dirtyBitmap[..], sectorNum / 2048, start, dirty);
        start := start + 1;
      }
      RangeBelow(old(dirtyBitmap[..]), dirtyBitmap[..], sectorNum / 2048, end + 1, dirty, Chunks(totalSectors));
      RangeIs(old(dirtyBitmap[..]), dirtyBitmap[..], sectorNum / 2048, end + 1, dirty);
    }

    /** One iteration of the loop of `set_dirty_bitmap`. */
    method FlipBit(start: nat, dirty: bool)
      requires dirtyBitmap != null && start < dirtyBitmap.Length * 64
      requires dirtyCount == Count(dirtyBitmap[..])
      modifies this`dirtyCount, dirtyBitmap
      ensures dirtyCount == Count(dirtyBitmap[..])
      ensures BitUpdated(old(dirtyBitmap[..]), dirtyBitmap[..], start, dirty)
    {
      var idx, bit := start / 64, start % 64;
      var val := dirtyBitmap[idx];
      MaskTests(val, bit);
      if dirty {
        if And(val, BitMask(bit)) == ZERO {
          dirtyCount := dirtyCount + 1;
          val := Or(val, BitMask(bit));
        }
      } else {
        if And(val, BitMask(bit)) != ZERO {
          dirtyCount := dirtyCount - 1;
          val := And(val, Not(BitMask(bit)));
        }
      }
      dirtyBitmap[idx] := val;
      CountToUpdate(old(dirtyBitmap[..]), dirtyBitmap[..], start, dirty, dirtyBitmap.Length * 64);
    }

    /** `bdrv_get_next_dirty`: with its whole-word skip, the first dirty chunk in cyclic order
        after the chunk of `sector0`; it terminates because some chunk is dirty. */
    method GetNextDirty(sector0: nat) returns (sector: nat)
      requires Valid() && dirtyBitmap != null && dirtyCount > 0
      ensures sector < totalSectors
      ensures sector == 2048 * NextDirtyChunk(dirtyBitmap[..], Chunks(totalSectors), sector0 / 2048)
    {
      hide CleanUpTo, NextDirtyChunk, BitAt;
      ghost var bm, n, c0 := dirtyBitmap[..], Chunks(totalSectors), sector0 / 2048;
      CountToZero(bm, |bm| * 64);
      sector := sector0 - sector0 % 2048 + 2048;
      var chunk := sector / 2048;
      var elem: nat, bit: nat := chunk / 64, chunk % 64;
      assert elem * 64 + bit == c0 + 1;
      CleanStart(bm, n, c0);
      ghost var wrapped := false;
      var hit := false;
      while !hit
        invariant sector == 2048 * (elem * 64 + bit) && bit < 64
        invariant CleanUpTo(bm, n, c0, elem * 64 + bit, wrapped)
        invariant hit ==> elem * 64 + bit < n && BitAt(bm, elem * 64 + bit)
        decreases !hit, !wrapped, if sector < totalSectors then totalSectors - sector else 0
      {
        CleanWrap(bm, n, c0, elem * 64 + bit, wrapped);
        ChunkInDevice(elem, bit, totalSectors);
        ChunkInDevice(0, 0, totalSectors);
        if sector >= totalSectors {
          sector, bit, elem := 0, 0, 0;
          wrapped := true;
        }
        hit, sector, elem, bit := Probe(dirtyBitmap, sector, elem, bit, n, c0, wrapped);
      }
      FirstHit(bm, n, c0, elem * 64 + bit, wrapped);
    }
  }

  /** Enabling tracking again while a chunk is dirty: the counter is 0 and the bit still set. */
  method TrackedTwice() returns (bs: BlockDriverState)
    ensures bs.dirtyBitmap != null && bs.dirtyCount == 0 && Count(bs.dirtyBitmap[..]) > 0 && !bs.Valid()
  {
    hide Count;
    bs := new BlockDriverState(2048);
    bs.SetDirtyTracking(true);
    bs.SetDirtyBitmap(0, 1, true);
    ghost var bm := bs.dirtyBitmap[..];
    assert BitAt(bm, 0);
    CountPositive(bm, 0);
    bs.SetDirtyTracking(true);
  }

  lemma CountPositive(bm: seq<Word>, i: nat)
    requires i < |bm| * 64 && BitAt(bm, i)
    ensures Count(bm) > 0
  {
    CountToZero(bm, |bm| * 64);
  }

  /** A chunk starts inside the device exactly when it is one of its chunks; its word is then in the bitmap. */
  lemma ChunkInDevice(elem: nat, bit: nat, total: nat)
    requires bit < 64
    ensures 2048 * (elem * 64 + bit) < total <==> elem * 64 + bit < Chunks(total)
    ensures elem * 64 + bit < Chunks(total) ==> elem < (total + 2048 * 64 - 1) / (2048 * 64)
    ensures Chunks(total) <= (total + 2048 * 64 - 1) / (2048 * 64) * 64
  {
  }

  /** The body of the search loop below the wrap-around test. */
  method Probe(bm: array<Word>, sector0: nat, elem0: nat, bit0: nat, ghost n: nat, ghost c0: nat, ghost wrapped: bool)
    returns (hit: bool, sector: nat, elem: nat, bit: nat)
    requires elem0 < bm.Length && bit0 < 64 && elem0 * 64 + bit0 < n <= bm.Length * 64
    requires sector0 == 2048 * (elem0 * 64 + bit0)
    requires CleanUpTo(bm[..], n, c0, elem0 * 64 + bit0, wrapped)
    ensures bit < 64 && sector == 2048 * (elem * 64 + bit)
    ensures CleanUpTo(bm[..], n, c0, elem * 64 + bit, wrapped)
    ensures if hit then elem == elem0 && bit == bit0 && BitAt(bm[..], elem * 64 + bit) else sector > sector0
  {
    hit, sector, elem, bit := false, sector0, elem0, bit0;
    ghost var c := elem * 64 + bit;
    if bit == 0 && bm[elem] == ZERO {
      EmptyWord(bm[..], elem);
      CleanSkip(bm[..], n, c0, c, c + 64, wrapped);
      sector := sector + 2048 * 64;
      elem := elem + 1;
    } else {
      MaskTests(bm[elem], bit);
      BitOfWord(bm[..], elem, bit);
      if And(bm[elem], BitMask(bit)) != ZERO {
        hit := true;
        return;
      }
      CleanSkip(bm[..], n, c0, c, c + 1, wrapped);
      sector := sector + 2048;
      bit := bit + 1;
      if bit == 64 {
        bit, elem := 0, elem + 1;
      }
    }
  }

  /** The cyclic search after chunk `c0` has passed only clean chunks on its way to `c`. */
  ghost predicate CleanUpTo(bm: seq<Word>, n: nat, c0: nat, c: nat, wrapped: bool)
    requires n <= |bm| * 64
  {
    if wrapped then forall i: nat :: i < n && (c0 < i || i < c) ==> !BitAt(bm, i)
    else c0 < c && forall i: nat :: c0 < i < c && i < n ==> !BitAt(bm, i)
  }

  lemma CleanStart(bm: seq<Word>, n: nat, c0: nat)
    requires n <= |bm| * 64
    ensures CleanUpTo(bm, n, c0, c0 + 1, false)
  {
  }

  /** Reaching the end restarts the search at chunk 0; with a dirty chunk left that happens only once. */
  lemma CleanWrap(bm: seq<Word>, n: nat, c0: nat, c: nat, wrapped: bool)
    requires n <= |bm| * 64 && CleanUpTo(bm, n, c0, c, wrapped)
    requires exists i: nat :: i < n && BitAt(bm, i)
    ensures c >= n ==> !wrapped && CleanUpTo(bm, n, c0, 0, true)
  {
  }

  lemma CleanSkip(bm: seq<Word>, n: nat, c0: nat, c: nat, d: nat, wrapped: bool)
    requires n <= |bm| * 64 && CleanUpTo(bm, n, c0, c, wrapped) && c <= d
    requires forall i: nat :: c <= i < d && i < n ==> !BitAt(bm, i)
    ensures CleanUpTo(bm, n, c0, d, wrapped)
  {
  }

  lemma EmptyWord(bm: seq<Word>, elem: nat)
    requires elem < |bm| && bm[elem] == ZERO
    ensures forall i: nat :: elem * 64 <= i < elem * 64 + 64 ==> !BitAt(bm, i)
  {
    forall i: nat | elem * 64 <= i < elem * 64 + 64
      ensures !BitAt(bm, i)
    {
      BitOfWord(bm, elem, i - elem * 64);
    }
  }

  /** Extending an updated range by its next bit. */
  lemma RangeExtend(a: seq<Word>, b: seq<Word>, c: seq<Word>, start: nat, end: nat, v: bool)
    requires start <= end < |a| * 64 && RangeUpdated(a, b, start, end, v) && BitUpdated(b, c, end, v)
    ensures RangeUpdated(a, c, start, end + 1, v)
  {
  }

  lemma RangeNone(a: seq<Word>, start: nat, v: bool)
    ensures RangeUpdated(a, a, start, start, v)
  {
  }

  lemma RangeIs(a: seq<Word>, b: seq<Word>, start: nat, end: nat, v: bool)
    requires RangeUpdated(a, b, start, end, v)
    ensures |b| == |a| && forall k: nat :: k < |a| * 64 ==> BitAt(b, k) == if start <= k < end then v else BitAt(a, k)
  {
  }

  /** Bits behind the range stay clear. */
  lemma RangeBelow(a: seq<Word>, b: seq<Word>, start: nat, end: nat, v: bool, n: nat)
    requires RangeUpdated(a, b, start, end, v) && end <= n
    requires forall i: nat :: n <= i < |a| * 64 ==> !BitAt(a, i)
    ensures |b| == |a| && forall i: nat :: n <= i < |b| * 64 ==> !BitAt(b, i)
  {
  }

  /** The next dirty chunk is dirty, and all chunks before it in cyclic order after `c` are clean. */
  lemma NextDirtyIs(bm: seq<Word>, n: nat, c: nat)
    requires n <= |bm| * 64 && exists i: nat :: i < n && BitAt(bm, i)
    ensures var d := NextDirtyChunk(bm, n, c);
            && d < n && BitAt(bm, d)
            && (d > c ==> forall i: nat :: c < i < d ==> !BitAt(bm, i))
            && (d <= c ==> forall i: nat :: i < n && (c < i || i < d) ==> !BitAt(bm, i))
  {
    ScanIsLeast(bm, n, c + 1, true);
    ScanIsLeast(bm, n, 0, true);
  }

  /** Ruling out the chunks in cyclic order up to a dirty one identifies it as the next dirty chunk. */
  lemma FirstHit(bm: seq<Word>, n: nat, c0: nat, c: nat, wrapped: bool)
    requires c < n <= |bm| * 64 && BitAt(bm, c)
    requires CleanUpTo(bm, n, c0, c, wrapped)
    ensures NextDirtyChunk(bm, n, c0) == c
  {
    ScanIsLeast(bm, n, c0 + 1, true);
    ScanIsLeast(bm, n, 0, true);
  }
}
