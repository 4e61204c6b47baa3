/** What several components share. */
module Basics {
  datatype Option<T> = None | Some(value: T)

  type Byte = x: int | 0 <= x < 256

  /** Error numbers, returned negated. */
  const EIO: int := 5
  const EACCES: int := 13
  const EBUSY: int := 16
  const ENOTSUP: int := 95
  const ENOMEDIUM: int := 123

  lemma MulMonotone(a: nat, b: nat, m: nat)
    requires a <= b
    ensures a * m <= b * m
  {
  }

  lemma Quotient(v: nat, m: nat)
    requires m > 0
    ensures v / m * m <= v < v / m * m + m
  {
  }

  lemma QuotientIs(v: nat, m: nat, q: nat)
    requires m > 0 && q * m <= v < q * m + m
    ensures v / m == q
  {
    Quotient(v, m);
    Gap(v / m, q, m);
    Gap(q, v / m, m);
  }

  lemma Gap(a: nat, b: nat, m: nat)
    ensures a < b ==> a * m + m <= b * m
  {
    if a < b {
      MulMonotone(a + 1, b, m);
      assert (a + 1) * m == a * m + m;
    }
  }

  lemma DivisionIs(v: nat, m: nat, q: nat, r: nat)
    requires r < m && v == q * m + r
    ensures v / m == q && v % m == r
  {
    QuotientIs(v, m, q);
    assert v % m == v - v / m * m;
  }
}
