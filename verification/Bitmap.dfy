/** bitmap.c: ranges of bits in an array of words. */
module Bitmap {
  import opened Words
  import opened Bitops
  import opened Alignment

  /** Word `j` of a bitmap after bits [start, end) of the bitmap are made `v`. */
  function RangeWord(w: Word, j: nat, start: nat, end: nat, v: bool): (r: Word)
  {
    seq(64, k requires 0 <= k < 64 => (if start <= j * 64 + k && j * 64 + k < end then v else w[k]))
  }

  /** `b` is `a` with exactly the bits [start, end) made `v`. */
  ghost predicate RangeUpdated(a: seq<Word>, b: seq<Word>, start: nat, end: nat, v: bool)
  {
    && |b| == |a|
    && forall k: nat :: k < |a| * 64 ==> BitAt(b, k) == if start <= k < end then v else BitAt(a, k)
  }

  lemma RangeByWords(a: seq<Word>, b: seq<Word>, start: nat, end: nat, v: bool)
    requires |a| == |b|
    requires forall j: nat :: j < |a| ==> b[j] == RangeWord(a[j], j, start, end, v)
    ensures RangeUpdated(a, b, start, end, v)
  {
    forall k: nat | k < |a| * 64
      ensures BitAt(b, k) == if start <= k < end then v else BitAt(a, k)
    {
      assert b[k / 64] == RangeWord(a[k / 64], k / 64, start, end, v);
    }
  }

  /** `BITMAP_LAST_WORD_MASK` */
  function LastWordMask(nbits: nat): (w: Word)
  {
    if nbits % 64 != 0 then LowBits(nbits % 64) else LowBits(64)
  }

  /** `*p |= mask` or `*p &= ~mask` */
  function MaskedWord(w: Word, mask: Word, v: bool): (r: Word)
  {
    if v then Or(w, mask) else And(w, Not(mask))
  }

  /** One loop step writes word `p` exactly as the range demands; `lo` is where the range enters the word. */
  lemma MaskIsRange(w: Word, p: nat, lo: nat, start: nat, size: nat, mask: Word, v: bool)
    requires lo < 64 && if p == start / 64 then lo == start % 64 else p > start / 64 && lo == 0
    requires mask == if p * 64 + 64 <= size then Shl(ONES, lo) else And(Shl(ONES, lo), LastWordMask(size))
    requires size < p * 64 + 64 ==> p == size / 64
    requires p * 64 + lo < size
    ensures MaskedWord(w, mask, v) == RangeWord(w, p, start, size, v)
  {
    forall k: nat | k < 64
      ensures mask[k] == (start <= p * 64 + k < size)
    {
      assert Shl(ONES, lo)[k] == (lo <= k);
    }
  }

  /** `bitmap_set` (`v`) and `bitmap_clear` (`!v`): the two loops differ only in the word operation. */
  method Fill(bm: array<Word>, start: nat, nr: nat, v: bool)
    requires start + nr <= bm.Length * 64
    modifies bm
    ensures RangeUpdated(old(bm[..]), bm[..], start, start + nr, v)
    ensures forall k: nat :: k < bm.Length * 64 ==>
              BitAt(bm[..], k) == if start <= k < start + nr then v else BitAt(old(bm[..]), k)
  {
    var p: nat := start / 64;
    var size := start + nr;
    var left: nat := nr;
    var bits: nat := 64 - start % 64;
    var mask := Shl(ONES, start % 64);
    while left >= bits
      invariant 0 < bits <= 64 && p * 64 + 64 - bits + left == size
      invariant if p == start / 64 then bits == 64 - start % 64 else p > start / 64 && bits == 64
      invariant mask == Shl(ONES, 64 - bits)
      invariant forall j: nat :: j < p && j < bm.Length ==> bm[j] == RangeWord(old(bm[j]), j, start, size, v)
      invariant forall j: nat :: p <= j < bm.Length ==> bm[j] == old(bm[j])
      decreases left
    {
      MaskIsRange(bm[p], p, 64 - bits, start, size, mask, v);
      bm[p] := MaskedWord(bm[p], mask, v);
      left := left - bits;
      bits := 64;
      mask := ONES;
      assert ONES == Shl(ONES, 0);
      p := p + 1;
    }
    if left != 0 {
      mask := And(mask, LastWordMask(size));
      MaskIsRange(bm[p], p, 64 - bits, start, size, mask, v);
      bm[p] := MaskedWord(bm[p], mask, v);
    }
    RangeByWords(old(bm[..]), bm[..], start, size, v);
  }

  // ---- bitmap_find_next_zero_area ----

  /** `x` starts an aligned run of `nr` clear bits inside the first `size` bits. */
  ghost predicate IsZeroArea(bm: seq<Word>, size: nat, nr: nat, align: nat, x: nat)
    requires size <= |bm| * 64 && align > 0
  {
    Aligned(x, align) && x + nr <= size && forall i: nat :: x <= i < x + nr ==> !BitAt(bm, i)
  }

  /** The sums of `bitmap_find_next_zero_area` on words of `width` bits, from a bit `zero` the search has found: while
      size, mask and length together stay below 2^width they are the unbounded ones, and the masking rounds up. */
  lemma AreaArithmetic(size: nat, zero: nat, k: nat, nr: nat, width: nat)
    requires zero <= size && size + (Pow2(k) - 1) + nr < Pow2(width)
    ensures AlignMask(zero, Pow2(k) - 1, width) == AlignUp(zero, Pow2(k))
    ensures (AlignUp(zero, Pow2(k)) + nr) % Pow2(width) == AlignUp(zero, Pow2(k)) + nr
  {
    hide Pow2, AlignUp, AlignMask;
    MaskRoundsUp(zero, k, width);
    SmallMod(AlignUp(zero, Pow2(k)) + nr, Pow2(width));
  }

  /** `bitmap_find_next_zero_area` with `align == align_mask + 1`. */
  method FindNextZeroArea(bm: array<Word>, size: nat, start0: nat, nr: nat, align: nat) returns (r: nat)
    requires size <= bm.Length * 64 && align > 0
    ensures nr > 0 && r <= size ==> start0 <= r && IsZeroArea(bm[..], size, nr, align, r)
    ensures nr > 0 && r <= size ==> forall x: nat :: start0 <= x < r ==> !IsZeroArea(bm[..], size, nr, align, x)
    ensures nr > 0 && r > size ==> forall x: nat :: start0 <= x ==> !IsZeroArea(bm[..], size, nr, align, x)
    ensures nr == 0 ==> r == AlignUp(Scan(bm[..], size, start0, false), align)
  {
    var start := start0;
    while true
      invariant start0 <= start
      invariant nr == 0 ==> start == start0
      invariant forall x: nat :: start0 <= x < start ==> !IsZeroArea(bm[..], size, nr, align, x)
      decreases size - start
    {
      var index := FindNextZeroBit(bm, size, start);
      ScanIsLeast(bm[..], size, start, false);
      ghost var zero := index;
      index := AlignUp(index, align);
      if nr > 0 {
        forall x: nat | start <= x < index
          ensures !IsZeroArea(bm[..], size, nr, align, x)
        {
          if IsZeroArea(bm[..], size, nr, align, x) {
            assert !BitAt(bm[..], x);
            AlignUpIsLeast(zero, align, x);
          }
        }
      }
      var end := index + nr;
      if end > size {
        return end;
      }
      var i := FindNextBit(bm, end, index);
      ScanIsLeast(bm[..], end, index, true);
      if i < end {
        forall x: nat | index <= x <= i
          ensures !IsZeroArea(bm[..], size, nr, align, x)
        {
          assert x <= i < x + nr;
        }
        start := i + 1;
      } else {
        return index;
      }
    }
  }
}
