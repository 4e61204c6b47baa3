/** The 64-bit `unsigned long` of bitops.h.
    A word is its 64 bits, least significant first; the C operators act bit by bit. */
module Words {

  type Word = w: seq<bool> | |w| == 64 witness seq(64, _ => false)

  const ZERO: Word := seq(64, _ => false)
  const ONES: Word := seq(64, _ => true)

  function And(a: Word, b: Word): (w: Word)
  {
    seq(64, k requires 0 <= k < 64 => a[k] && b[k])
  }

  function Or(a: Word, b: Word): (w: Word)
  {
    seq(64, k requires 0 <= k < 64 => a[k] || b[k])
  }

  function Not(a: Word): (w: Word)
  {
    seq(64, k requires 0 <= k < 64 => !a[k])
  }

  /** `a << n` */
  function Shl(a: Word, n: nat): (w: Word)
  {
    seq(64, k requires 0 <= k < 64 => k >= n && a[k - n])
  }

  /** `a >> n` (logical) */
  function Shr(a: Word, n: nat): (w: Word)
  {
    seq(64, k requires 0 <= k < 64 => k + n < 64 && a[k + n])
  }

  /** `1UL << n` */
  function BitMask(n: nat): (w: Word)
  {
    seq(64, k => k == n)
  }

  /** The constants 0xffffffff, 0xffff, 0xff, 0xf, 0x3 and 0x1: the low `n` bits set. */
  function LowBits(n: nat): (w: Word)
  {
    seq(64, k => k < n)
  }

  /** Two words are equal exactly when no bit tells them apart; a nonzero word has a set bit. */
  lemma NonzeroHasBit(w: Word)
    ensures w != ZERO <==> exists k :: 0 <= k < 64 && w[k]
    ensures w != ONES <==> exists k :: 0 <= k < 64 && !w[k]
  {
    assert w != ZERO ==> exists k :: 0 <= k < 64 && w[k] != ZERO[k];
    assert w != ONES ==> exists k :: 0 <= k < 64 && w[k] != ONES[k];
  }

  /** `w & (1UL << n)` tests bit `n`. */
  lemma MaskTests(w: Word, n: nat)
    requires n < 64
    ensures And(w, BitMask(n)) != ZERO <==> w[n]
  {
    NonzeroHasBit(And(w, BitMask(n)));
    assert And(w, BitMask(n))[n] == w[n];
  }
}
