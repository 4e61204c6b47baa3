/** bitops.h and bitops.c: searching and changing single bits in an array of words. */
module Bitops {
  import opened Words

  /** `p` is the least set bit of `w`. */
  ghost predicate IsFirst(w: Word, p: nat)
  {
    p < 64 && w[p] && forall k :: 0 <= k < p ==> !w[k]
  }

  /** `p` is the greatest set bit of `w`. */
  ghost predicate IsLast(w: Word, p: nat)
  {
    p < 64 && w[p] && forall k :: p < k < 64 ==> !w[k]
  }

  lemma {:induction false} FirstExists(w: Word, from: nat) returns (p: nat)
    requires from < 64 && forall k :: 0 <= k < from ==> !w[k]
    requires w != ZERO
    ensures IsFirst(w, p)
    decreases 64 - from
  {
    if w[from] {
      p := from;
    } else {
      NonzeroHasBit(w);
      p := FirstExists(w, from + 1);
    }
  }

  lemma {:induction false} LastExists(w: Word, from: nat) returns (p: nat)
    requires from < 64 && forall k :: from < k < 64 ==> !w[k]
    requires w != ZERO
    ensures IsLast(w, p)
  {
    if w[from] {
      p := from;
    } else {
      NonzeroHasBit(w);
      p := LastExists(w, from - 1);
    }
  }

  /** One halving stage of `bitops_ffsl`: the first set bit `p` stays inside the window that remains. */
  method FfslStage(word: Word, num: nat, n: nat, ghost orig: Word, ghost p: nat)
    returns (word': Word, num': nat)
    requires IsFirst(orig, p) && word == Shr(orig, num)
    requires num <= p < num + 2 * n && 0 < n <= 32
    ensures word' == Shr(orig, num')
    ensures num' <= p < num' + n
  {
    word', num' := word, num;
    var low := And(word, LowBits(n));
    assert p < num + n ==> low[p - num];
    if low == ZERO {
      num' := num + n;
      word' := Shr(word, n);
      assert word' == Shr(orig, num');
    } else {
      NonzeroHasBit(low);
    }
  }

  /** `bitops_ffsl`: the binary search lands on the least set bit. */
  method Ffsl(word: Word) returns (num: nat)
    requires word != ZERO
    ensures IsFirst(word, num) && num < 64 && word[num] && forall k :: 0 <= k < num ==> !word[k]
  {
    ghost var p := FirstExists(word, 0);
    assert word == Shr(word, 0);
    var w := word;
    num := 0;
    w, num := FfslStage(w, num, 32, word, p);
    w, num := FfslStage(w, num, 16, word, p);
    w, num := FfslStage(w, num, 8, word, p);
    w, num := FfslStage(w, num, 4, word, p);
    w, num := FfslStage(w, num, 2, word, p);
    w, num := FfslStage(w, num, 1, word, p);
  }

  /** One halving stage of `bitops_flsl`. */
  method FlslStage(word: Word, num: nat, n: nat, ghost orig: Word, ghost p: nat)
    returns (word': Word, num': nat)
    requires IsLast(orig, p) && num < 64 && word == Shl(orig, 63 - num)
    requires p <= num < p + 2 * n && 0 < n <= 32
    ensures num' <= num && word' == Shl(orig, 63 - num')
    ensures p <= num' < p + n
  {
    word', num' := word, num;
    var high := And(word, Shl(ONES, 64 - n));
    assert num < p + n ==> high[p + 63 - num];
    if high == ZERO {
      num' := num - n;
      word' := Shl(word, n);
      assert word' == Shl(orig, 63 - num');
    } else {
      NonzeroHasBit(high);
    }
  }

  /** `bitops_flsl`: the binary search lands on the greatest set bit. */
  method Flsl(word: Word) returns (num: nat)
    requires word != ZERO
    ensures IsLast(word, num) && num < 64 && word[num] && forall k :: num < k < 64 ==> !word[k]
  {
    ghost var p := LastExists(word, 63);
    assert word == Shl(word, 0);
    var w := word;
    num := 63;
    w, num := FlslStage(w, num, 32, word, p);
    w, num := FlslStage(w, num, 16, word, p);
    w, num := FlslStage(w, num, 8, word, p);
    w, num := FlslStage(w, num, 4, word, p);
    w, num := FlslStage(w, num, 2, word, p);
    w, num := FlslStage(w, num, 1, word, p);
  }

  /** `ffz` */
  method Ffz(word: Word) returns (num: nat)
    requires word != ONES
    ensures num < 64 && !word[num]
    ensures forall k :: 0 <= k < num ==> word[k]
  {
    NonzeroHasBit(word);
    var inv := Not(word);
    NonzeroHasBit(inv);
    var k: nat :| k < 64 && !word[k];
    assert inv[k];
    num := Ffsl(inv);
    assert forall k :: 0 <= k < 64 ==> inv[k] == !word[k];
  }

  // ---- bits of a word array ----

  /** Bit `i` of the bitmap held in `addr`. */
  predicate BitAt(addr: seq<Word>, i: nat)
    requires i < |addr| * 64
  {
    addr[i / 64][i % 64]
  }

  /** Bit-by-bit scan for the next bit equal to `v`, or `size`. */
  function Scan(addr: seq<Word>, size: nat, offset: nat, v: bool): (r: nat)
    requires size <= |addr| * 64
    decreases size - offset
  {
    if offset >= size then size
    else if BitAt(addr, offset) == v then offset
    else Scan(addr, size, offset + 1, v)
  }

  /** The scan skips any stretch without the sought value. */
  lemma {:induction false} ScanSkip(addr: seq<Word>, size: nat, offset: nat, stop: nat, v: bool)
    requires offset <= stop <= size <= |addr| * 64
    requires forall i: nat :: offset <= i < stop ==> BitAt(addr, i) != v
    ensures Scan(addr, size, offset, v) == Scan(addr, size, stop, v)
    decreases stop - offset
  {
    if offset < stop {
      ScanSkip(addr, size, offset + 1, stop, v);
    }
  }

  /** What the scan means: the least index from `offset` on whose bit is `v`, else `size`. */
  lemma {:induction false} ScanIsLeast(addr: seq<Word>, size: nat, offset: nat, v: bool)
    requires size <= |addr| * 64
    ensures var r := Scan(addr, size, offset, v);
            && (r < size ==> offset <= r && BitAt(addr, r) == v)
            && r <= size
            && (forall i: nat :: offset <= i < r ==> BitAt(addr, i) != v)
    decreases size - offset
  {
    if offset < size && BitAt(addr, offset) != v {
      ScanIsLeast(addr, size, offset + 1, v);
    }
  }

  /** Bit `k` of word `j` is bit `64 j + k` of the bitmap. */
  lemma BitOfWord(addr: seq<Word>, j: nat, k: nat)
    requires j < |addr| && k < 64
    ensures j * 64 + k < |addr| * 64
    ensures BitAt(addr, j * 64 + k) == addr[j][k]
  {
    assert (j * 64 + k) / 64 == j;
  }

  /** The bits of word `j` from `lo` up to `hi` are free of `v`. */
  ghost predicate WordLacks(w: Word, lo: nat, hi: nat, v: bool)
    requires hi <= 64
  {
    forall k: nat :: lo <= k < hi ==> w[k] != v
  }

  lemma ScanEnd(addr: seq<Word>, size: nat, v: bool)
    requires size <= |addr| * 64
    ensures Scan(addr, size, size, v) == size
  {
  }

  /** A scan entering word `j` at bit `lo` passes over the bits that lack `v`. */
  lemma ScanWithinWord(addr: seq<Word>, size: nat, j: nat, lo: nat, hi: nat, v: bool)
    requires size <= |addr| * 64 && j < |addr|
    requires lo <= hi <= 64 && j * 64 + hi <= size
    requires WordLacks(addr[j], lo, hi, v)
    ensures Scan(addr, size, j * 64 + lo, v) == Scan(addr, size, j * 64 + hi, v)
  {
    forall i: nat | j * 64 + lo <= i < j * 64 + hi
      ensures BitAt(addr, i) != v
    {
      BitOfWord(addr, j, i - j * 64);
    }
    ScanSkip(addr, size, j * 64 + lo, j * 64 + hi, v);
  }

  /** The label `found_middle` of both searches: bit `k` of word `j` is the first hit. */
  lemma ScanHitsWord(addr: seq<Word>, size: nat, j: nat, lo: nat, k: nat, v: bool)
    requires size <= |addr| * 64 && j < |addr|
    requires lo <= k < 64 && j * 64 + k < size
    requires WordLacks(addr[j], lo, k, v) && addr[j][k] == v
    ensures Scan(addr, size, j * 64 + lo, v) == j * 64 + k
  {
    ScanWithinWord(addr, size, j, lo, k, v);
    BitOfWord(addr, j, k);
  }

  lemma NoMask(w: Word)
    ensures And(w, Shl(ONES, 0)) == w && Or(w, LowBits(0)) == w
  {
  }

  /** Masked from both sides, a word keeps exactly the bits between. */
  lemma BetweenMasks(w: Word, lo: nat, hi: nat)
    requires lo <= hi <= 64
    ensures var t := And(And(w, Shl(ONES, lo)), Shr(ONES, 64 - hi));
            forall k: nat :: k < 64 ==> t[k] == (lo <= k < hi && w[k])
  {
  }

  /** Filled from both sides, a word is clear only between. */
  lemma BetweenFills(w: Word, lo: nat, hi: nat)
    requires lo <= hi <= 64
    ensures var t := Or(Or(w, LowBits(lo)), Shl(ONES, hi));
            forall k: nat :: k < 64 ==> t[k] == (w[k] || k < lo || hi <= k)
  {
  }

  /** `find_next_bit` from the label `found_first` on; `tmp` holds word `j` with the bits below `lo` cleared. */
  method NextBitFoundFirst(addr: array<Word>, tmp: Word, ghost size: nat, j: nat, rest: nat, ghost lo: nat)
    returns (r: nat)
    requires j < addr.Length && 0 < rest < 64 && size == j * 64 + rest
    requires lo <= rest && tmp == And(addr[j], Shl(ONES, lo))
    ensures r == Scan(addr[..], size, j * 64 + lo, true)
  {
    hide Scan, And, Shl, Shr;
    var t := And(tmp, Shr(ONES, 64 - rest));
    NonzeroHasBit(t);
    BetweenMasks(addr[j], lo, rest);
    if t == ZERO {
      ScanWithinWord(addr[..], size, j, lo, rest, true);
      ScanEnd(addr[..], size, true);
      return j * 64 + rest;
    }
    var num := Ffsl(t);
    ScanHitsWord(addr[..], size, j, lo, num, true);
    r := j * 64 + num;
  }

  /** The word loop of `find_next_bit`, entered at the start of word `p`. */
  method NextBitFromWord(addr: array<Word>, size: nat, p0: nat) returns (r: nat)
    requires p0 * 64 <= size <= addr.Length * 64
    ensures r == Scan(addr[..], size, p0 * 64, true)
  {
    hide Scan, And, Shl;
    var p, rest: nat := p0, size - p0 * 64;
    while rest >= 64
      invariant p * 64 + rest == size
      invariant Scan(addr[..], size, p0 * 64, true) == Scan(addr[..], size, p * 64, true)
    {
      if addr[p] != ZERO {
        var num := Ffsl(addr[p]);
        ScanHitsWord(addr[..], size, p, 0, num, true);
        return p * 64 + num;
      }
      ScanWithinWord(addr[..], size, p, 0, 64, true);
      p := p + 1;
      rest := rest - 64;
    }
    if rest == 0 {
      ScanEnd(addr[..], size, true);
      return p * 64;
    }
    NoMask(addr[p]);
    r := NextBitFoundFirst(addr, addr[p], size, p, rest, 0);
  }

  /** `find_next_bit` agrees with the bit-by-bit scan. */
  method FindNextBit(addr: array<Word>, size: nat, offset: nat) returns (r: nat)
    requires size <= addr.Length * 64
    ensures r == Scan(addr[..], size, offset, true)
  {
    var p, off := offset / 64, offset % 64;
    if offset >= size {
      return size;
    }
    var rest := size - p * 64;
    if off != 0 {
      var tmp := And(addr[p], Shl(ONES, off));
      if rest < 64 {
        r := NextBitFoundFirst(addr, tmp, size, p, rest, off);
        return;
      }
      assert forall k: nat :: off <= k < 64 ==> tmp[k] == addr[p][k];
      if tmp != ZERO {
        var num := Ffsl(tmp);
        ScanHitsWord(addr[..], size, p, off, num, true);
        return p * 64 + num;
      }
      ScanWithinWord(addr[..], size, p, off, 64, true);
      p := p + 1;
    }
    r := NextBitFromWord(addr, size, p);
  }

  /** `find_next_zero_bit` from the label `found_first` on; `tmp` holds word `j` with the bits below `lo` set. */
  method NextZeroFoundFirst(addr: array<Word>, tmp: Word, ghost size: nat, j: nat, rest: nat, ghost lo: nat)
    returns (r: nat)
    requires j < addr.Length && 0 < rest < 64 && size == j * 64 + rest
    requires lo <= rest && tmp == Or(addr[j], LowBits(lo))
    ensures r == Scan(addr[..], size, j * 64 + lo, false)
  {
    hide Scan, Or, Shl, LowBits;
    var t := Or(tmp, Shl(ONES, rest));
    NonzeroHasBit(t);
    BetweenFills(addr[j], lo, rest);
    if t == ONES {
      ScanWithinWord(addr[..], size, j, lo, rest, false);
      ScanEnd(addr[..], size, false);
      return j * 64 + rest;
    }
    var num := Ffz(t);
    ScanHitsWord(addr[..], size, j, lo, num, false);
    r := j * 64 + num;
  }

  /** The word loop of `find_next_zero_bit`, entered at the start of word `p`. */
  method NextZeroFromWord(addr: array<Word>, size: nat, p0: nat) returns (r: nat)
    requires p0 * 64 <= size <= addr.Length * 64
    ensures r == Scan(addr[..], size, p0 * 64, false)
  {
    hide Scan, Or, LowBits;
    var p, rest: nat := p0, size - p0 * 64;
    while rest >= 64
      invariant p * 64 + rest == size
      invariant Scan(addr[..], size, p0 * 64, false) == Scan(addr[..], size, p * 64, false)
    {
      if addr[p] != ONES {
        var num := Ffz(addr[p]);
        ScanHitsWord(addr[..], size, p, 0, num, false);
        return p * 64 + num;
      }
      ScanWithinWord(addr[..], size, p, 0, 64, false);
      p := p + 1;
      rest := rest - 64;
    }
    if rest == 0 {
      ScanEnd(addr[..], size, false);
      return p * 64;
    }
    NoMask(addr[p]);
    r := NextZeroFoundFirst(addr, addr[p], size, p, rest, 0);
  }

  /** `find_next_zero_bit` agrees with the bit-by-bit scan. */
  method FindNextZeroBit(addr: array<Word>, size: nat, offset: nat) returns (r: nat)
    requires size <= addr.Length * 64
    ensures r == Scan(addr[..], size, offset, false)
  {
    var p, off := offset / 64, offset % 64;
    if offset >= size {
      return size;
    }
    var rest := size - p * 64;
    if off != 0 {
      var tmp := Or(addr[p], Shr(ONES, 64 - off));
      assert tmp == Or(addr[p], LowBits(off));
      if rest < 64 {
        r := NextZeroFoundFirst(addr, tmp, size, p, rest, off);
        return;
      }
      assert forall k: nat :: off <= k < 64 ==> tmp[k] == addr[p][k];
      if tmp != ONES {
        var num := Ffz(tmp);
        ScanHitsWord(addr[..], size, p, off, num, false);
        return p * 64 + num;
      }
      ScanWithinWord(addr[..], size, p, off, 64, false);
      p := p + 1;
    }
    r := NextZeroFromWord(addr, size, p);
  }

  /** Bit-by-bit scan downwards from below `n` for a set bit, or `size`. */
  function ScanDown(addr: seq<Word>, size: nat, n: nat): (r: nat)
    requires n <= size <= |addr| * 64
  {
    if n == 0 then size
    else if BitAt(addr, n - 1) then n - 1
    else ScanDown(addr, size, n - 1)
  }

  /** What the downward scan means: the greatest set bit below `n`, else `size`. */
  lemma {:induction false} ScanDownIsGreatest(addr: seq<Word>, size: nat, n: nat)
    requires n <= size <= |addr| * 64
    ensures var r := ScanDown(addr, size, n);
            || (r < n && BitAt(addr, r) && forall i: nat :: r < i < n ==> !BitAt(addr, i))
            || (r == size && forall i: nat :: i < n ==> !BitAt(addr, i))
  {
    if n > 0 && !BitAt(addr, n - 1) {
      ScanDownIsGreatest(addr, size, n - 1);
    }
  }

  /** The downward scan passes over the clear bits of word `j` from `hi` down to `lo`. */
  lemma {:induction false} ScanDownWithinWord(addr: seq<Word>, size: nat, j: nat, lo: nat, hi: nat)
    requires size <= |addr| * 64 && j < |addr|
    requires lo <= hi <= 64 && j * 64 + hi <= size
    requires WordLacks(addr[j], lo, hi, true)
    ensures ScanDown(addr, size, j * 64 + hi) == ScanDown(addr, size, j * 64 + lo)
    decreases hi
  {
    if lo < hi {
      BitOfWord(addr, j, hi - 1);
      ScanDownWithinWord(addr, size, j, lo, hi - 1);
    }
  }

  /** `find_last_bit` agrees with the downward scan over the whole bitmap. */
  method FindLastBit(addr: array<Word>, size: nat) returns (r: nat)
    requires size <= addr.Length * 64
    ensures r == ScanDown(addr[..], size, size)
  {
    var words: nat, part := size / 64, size % 64;
    if part != 0 {
      var tmp := And(addr[words], Shr(ONES, 64 - part));
      assert forall k: nat :: k < part ==> tmp[k] == addr[words][k];
      if tmp != ZERO {
        r := LastBitFound(addr, tmp, size, words, part);
        return;
      }
      ScanDownWithinWord(addr[..], size, words, 0, part);
    }
    r := LastBitBelowWord(addr, size, words);
  }

  /** The word loop of `find_last_bit`. */
  method LastBitBelowWord(addr: array<Word>, size: nat, words0: nat) returns (r: nat)
    requires words0 * 64 <= size <= addr.Length * 64
    ensures r == ScanDown(addr[..], size, words0 * 64)
  {
    var words: nat := words0;
    while words > 0
      invariant words * 64 <= size
      invariant ScanDown(addr[..], size, words0 * 64) == ScanDown(addr[..], size, words * 64)
    {
      words := words - 1;
      if addr[words] != ZERO {
        r := LastBitFound(addr, addr[words], size, words, 64);
        return;
      }
      ScanDownWithinWord(addr[..], size, words, 0, 64);
    }
    r := size;
  }

  /** The label `found` of `find_last_bit`. */
  method LastBitFound(addr: array<Word>, tmp: Word, ghost size: nat, words: nat, ghost part: nat) returns (r: nat)
    requires size <= addr.Length * 64 && words < addr.Length
    requires 0 < part <= 64 && words * 64 + part <= size
    requires tmp != ZERO && forall k: nat :: k < 64 ==> tmp[k] == (k < part && addr[words][k])
    ensures r == ScanDown(addr[..], size, words * 64 + part)
  {
    var num := Flsl(tmp);
    ScanDownWithinWord(addr[..], size, words, num + 1, part);
    BitOfWord(addr[..], words, num);
    r := words * 64 + num;
  }

  // ---- single bits ----

  /** The bitmap `b` is `a` with bit `i` made `v`. */
  ghost predicate BitUpdated(a: seq<Word>, b: seq<Word>, i: nat, v: bool)
    requires i < |a| * 64
  {
    && |b| == |a|
    && BitAt(b, i) == v
    && forall k: nat :: k < |a| * 64 && k != i ==> BitAt(b, k) == BitAt(a, k)
  }

  /** `set_bit` */
  method SetBit(nr: nat, addr: array<Word>)
    requires nr < addr.Length * 64
    modifies addr
    ensures BitUpdated(old(addr[..]), addr[..], nr, true)
  {
    var mask := BitMask(nr % 64);
    addr[nr / 64] := Or(addr[nr / 64], mask);
  }

  /** `clear_bit` */
  method ClearBit(nr: nat, addr: array<Word>)
    requires nr < addr.Length * 64
    modifies addr
    ensures BitUpdated(old(addr[..]), addr[..], nr, false)
  {
    var mask := BitMask(nr % 64);
    addr[nr / 64] := And(addr[nr / 64], Not(mask));
  }

  /** `test_and_set_bit` */
  method TestAndSetBit(nr: nat, addr: array<Word>) returns (was: bool)
    requires nr < addr.Length * 64
    modifies addr
    ensures was == old(BitAt(addr[..], nr))
    ensures BitUpdated(old(addr[..]), addr[..], nr, true)
  {
    var mask := BitMask(nr % 64);
    var prev := addr[nr / 64];
    addr[nr / 64] := Or(prev, mask);
    MaskTests(prev, nr % 64);
    was := And(prev, mask) != ZERO;
  }

  // ---- counting ----

  /** Number of set bits below `n`. */
  function CountTo(bm: seq<Word>, n: nat): (c: nat)
    requires n <= |bm| * 64
    ensures c <= n
  {
    if n == 0 then 0 else CountTo(bm, n - 1) + if BitAt(bm, n - 1) then 1 else 0
  }

  function Count(bm: seq<Word>): (c: nat)
  {
    CountTo(bm, |bm| * 64)
  }

  lemma {:induction false} CountToUpdate(a: seq<Word>, b: seq<Word>, i: nat, v: bool, n: nat)
    requires i < |a| * 64 && BitUpdated(a, b, i, v) && n <= |a| * 64
    ensures CountTo(b, n) == CountTo(a, n) + if i < n && BitAt(a, i) != v then (if v then 1 else -1) else 0
  {
    if n > 0 {
      CountToUpdate(a, b, i, v, n - 1);
    }
  }

  /** The count is zero exactly when no bit is set. */
  lemma {:induction false} CountToZero(bm: seq<Word>, n: nat)
    requires n <= |bm| * 64
    ensures CountTo(bm, n) == 0 <==> forall i: nat :: i < n ==> !BitAt(bm, i)
  {
    if n > 0 {
      CountToZero(bm, n - 1);
    }
  }
}
