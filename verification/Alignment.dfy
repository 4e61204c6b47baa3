/** Rounding to a multiple: `QEMU_ALIGN_DOWN`, `QEMU_ALIGN_UP` and `ALIGN_MASK`. */
module Alignment {
  import opened Basics

  ghost predicate Aligned(x: nat, align: nat)
  {
    exists q: nat :: x == q * align
  }

  /** `QEMU_ALIGN_UP`, and `ALIGN_MASK(x, align - 1)` for a power of two. */
  function AlignUp(x: nat, align: nat): (r: nat)
    requires align > 0
    ensures Aligned(r, align) && x <= r < x + align
  {
    (x + align - 1) / align * align
  }

  /** Distinct multiples of `m` are at least `m` apart. */
  lemma MultiplesApart(a: nat, b: nat, m: nat)
    requires b * m < a * m
    ensures b * m + m <= a * m
  {
    if a <= b {
      MulMonotone(a, b, m);
    } else {
      MulMonotone(b + 1, a, m);
      assert (b + 1) * m == b * m + m;
    }
  }

  /** No multiple of `align` lies between `x` and `AlignUp(x)`. */
  lemma AlignUpIsLeast(x: nat, align: nat, y: nat)
    requires align > 0 && x <= y && Aligned(y, align)
    ensures AlignUp(x, align) <= y
  {
    var a: nat :| AlignUp(x, align) == a * align;
    var b: nat :| y == b * align;
    if b * align < a * align {
      MultiplesApart(a, b, align);
    }
  }

  /** `QEMU_ALIGN_DOWN` */
  function AlignDown(x: nat, align: nat): (r: nat)
    requires align > 0
    ensures Aligned(r, align) && r <= x < r + align
  {
    x / align * align
  }

  /** No multiple of `align` lies between `AlignDown(x)` and `x`. */
  lemma AlignDownIsGreatest(x: nat, align: nat, y: nat)
    requires align > 0 && y <= x && Aligned(y, align)
    ensures y <= AlignDown(x, align)
  {
    var a: nat :| AlignDown(x, align) == a * align;
    var b: nat :| y == b * align;
    if a * align < b * align {
      MultiplesApart(b, a, align);
    }
  }

  lemma AlignedSum(x: nat, y: nat, align: nat)
    requires Aligned(x, align) && Aligned(y, align)
    ensures Aligned(x + y, align)
  {
    var a: nat :| x == a * align;
    var b: nat :| y == b * align;
    assert x + y == (a + b) * align;
  }

  lemma AlignedDifference(x: nat, y: nat, align: nat)
    requires Aligned(x, align) && Aligned(y, align) && y <= x
    ensures Aligned(x - y, align)
  {
    var a: nat :| x == a * align;
    var b: nat :| y == b * align;
    if b <= a {
      assert x - y == (a - b) * align;
    } else {
      MulMonotone(a, b, align);
      assert x - y == 0 * align;
    }
  }

  // ---- the masks of `ALIGN_MASK` ----

  function Pow2(k: nat): (p: nat)
    ensures p > 0
  {
    if k == 0 then 1 else 2 * Pow2(k - 1)
  }

  /** Bitwise and of two numbers, binary digit by binary digit. */
  function BitAnd(a: nat, b: nat): nat
  {
    if a == 0 || b == 0 then 0 else 2 * BitAnd(a / 2, b / 2) + (a % 2) * (b % 2)
  }

  /** `ALIGN_MASK(x, mask)` on words of `width` bits. */
  function AlignMask(x: nat, mask: nat, width: nat): nat
    requires mask < Pow2(width)
  {
    BitAnd((x + mask) % Pow2(width), Pow2(width) - 1 - mask)
  }

  lemma {:induction false} AndOnes(n: nat, width: nat)
    requires n < Pow2(width)
    ensures BitAnd(n, Pow2(width) - 1) == n
  {
    if n > 0 {
      AndOnes(n / 2, width - 1);
      assert (Pow2(width) - 1) / 2 == Pow2(width - 1) - 1;
    }
  }

  /** A multiple less than `m` below `n` is the one `AlignDown` finds. */
  lemma AlignDownIs(n: nat, q: nat, m: nat)
    requires m > 0 && q * m <= n < q * m + m
    ensures AlignDown(n, m) == q * m
  {
    hide AlignDown;
    var a: nat :| AlignDown(n, m) == a * m;
    if a * m < q * m {
      MultiplesApart(q, a, m);
    } else if q * m < a * m {
      MultiplesApart(a, q, m);
    }
  }

  lemma Twice(q: nat, p: nat, m: nat)
    requires m == 2 * p
    ensures q * m == 2 * (q * p)
  {
  }

  lemma HalveAlignDown(n: nat, p: nat)
    requires p > 0
    ensures AlignDown(n, 2 * p) == 2 * AlignDown(n / 2, p)
  {
    hide AlignDown;
    var r := AlignDown(n / 2, p);
    assert 2 * r <= n < 2 * r + 2 * p;
    var q: nat, m :| r == q * p && m == 2 * p;
    Twice(q, p, m);
    AlignDownIs(n, q, m);
  }

  lemma UpIsDown(x: nat, align: nat)
    requires align > 0
    ensures AlignUp(x, align) == AlignDown(x + align - 1, align)
  {
  }

  lemma SmallMod(x: nat, m: nat)
    requires x < m
    ensures x % m == x
  {
  }

  lemma {:induction false} Pow2Monotone(k: nat, width: nat)
    requires k <= width
    ensures Pow2(k) <= Pow2(width) && (k < width ==> 2 * Pow2(k) <= Pow2(width))
  {
    if k < width {
      Pow2Monotone(k, width - 1);
    }
  }

  lemma {:induction false} BitAndEven(n: nat, h: nat, m: nat)
    requires m == 2 * h
    ensures BitAnd(n, m) == 2 * BitAnd(n / 2, h)
  {
    assert m % 2 == 0 && m / 2 == h;
    assert (n % 2) * (m % 2) == 0;
  }

  /** Clearing the low `k` bits is rounding down. */
  lemma {:induction false} AndHigh(n: nat, k: nat, width: nat)
    requires n < Pow2(width) && k <= width && Pow2(k) <= Pow2(width)
    ensures BitAnd(n, Pow2(width) - Pow2(k)) == AlignDown(n, Pow2(k))
    decreases k
  {
    hide AlignDown, BitAnd;
    if k == 0 {
      AndOnes(n, width);
      AlignDownIs(n, n, 1);
    } else {
      Pow2Monotone(k - 1, width - 1);
      AndHigh(n / 2, k - 1, width - 1);
      HalveAlignDown(n, Pow2(k - 1));
      var high := Pow2(width - 1) - Pow2(k - 1);
      assert Pow2(width) - Pow2(k) == 2 * high;
      BitAndEven(n, high, Pow2(width) - Pow2(k));
    }
  }

  /** As long as the sum does not wrap around, adding a mask of `k` ones and clearing it rounds up to a multiple of
      2^k. */
  lemma MaskRoundsUp(x: nat, k: nat, width: nat)
    requires x + Pow2(k) - 1 < Pow2(width)
    ensures AlignMask(x, Pow2(k) - 1, width) == AlignUp(x, Pow2(k))
  {
    hide AlignUp, AlignDown, Pow2, BitAnd;
    if width < k {
      Pow2Monotone(width, k);
    }
    AndHigh(x + Pow2(k) - 1, k, width);
    UpIsDown(x, Pow2(k));
    SmallMod(x + Pow2(k) - 1, Pow2(width));
  }
}
