/** Arithmetic of the field GF(2^8) of FIPS 197, section 4, as far as AES needs it. */
module AesField {

  type Octet = bv8

  function Xor(a: Octet, b: Octet): Octet
  {
    a ^ b
  }

  function Xor3(a: Octet, b: Octet, c: Octet): Octet
  {
    Xor(Xor(a, b), c)
  }

  function Xor4(a: Octet, b: Octet, c: Octet, d: Octet): Octet
  {
    Xor(Xor3(a, b, c), d)
  }

  /** Multiplication by 02, reduced by the polynomial 11b. */
  function Xtime(x: Octet): Octet
  {
    (x << 1) ^ (if x & 0x80 != 0 then 0x1b else 0)
  }

  /** Multiplication by the constants of MixColumns and its inverse. */
  function M2(x: Octet): Octet { Xtime(x) }
  function M3(x: Octet): Octet { Xor(Xtime(x), x) }
  function M9(x: Octet): Octet { Xor(Xtime(Xtime(Xtime(x))), x) }
  function M11(x: Octet): Octet { Xor3(Xtime(Xtime(Xtime(x))), Xtime(x), x) }
  function M13(x: Octet): Octet { Xor3(Xtime(Xtime(Xtime(x))), Xtime(Xtime(x)), x) }
  function M14(x: Octet): Octet { Xor3(Xtime(Xtime(Xtime(x))), Xtime(Xtime(x)), Xtime(x)) }

  // ---- addition ----

  lemma XorComm(a: Octet, b: Octet)
    ensures Xor(a, b) == Xor(b, a)
  {
  }

  lemma XorAssoc(a: Octet, b: Octet, c: Octet)
    ensures Xor(a, Xor(b, c)) == Xor(Xor(a, b), c)
  {
    assert a ^ (b ^ c) == (a ^ b) ^ c;
  }

  lemma XorCancel(a: Octet, b: Octet)
    ensures Xor(Xor(a, b), b) == a && Xor(a, 0) == a
  {
  }

  lemma Regroup2(a: Octet, b: Octet, d: Octet, e: Octet)
    ensures Xor(Xor(a, d), Xor(b, e)) == Xor(Xor(a, b), Xor(d, e))
  {
    assert (a ^ d) ^ (b ^ e) == (a ^ b) ^ (d ^ e);
  }

  /** A common summand drops out. */
  lemma Drop(x: Octet, y: Octet, z: Octet)
    ensures Xor(Xor(x, y), Xor(y, z)) == Xor(x, z) && Xor(Xor(x, y), Xor(z, y)) == Xor(x, z)
    ensures Xor(Xor(y, x), Xor(y, z)) == Xor(x, z)
  {
    hide Xor;
    XorAssoc(Xor(x, y), y, z);
    XorCancel(x, y);
    XorComm(y, z);
    XorComm(x, y);
  }

  lemma Around(x: Octet, y: Octet)
    ensures Xor(x, Xor(y, x)) == y && Xor(Xor(x, y), x) == y && Xor(x, Xor(x, y)) == y && Xor(x, x) == 0
  {
    XorCancel(y, x);
    XorComm(x, y);
    XorComm(x, Xor(y, x));
    XorCancel(0, x);
  }

  lemma Swap(x: Octet, y: Octet, z: Octet)
    ensures Xor(Xor(x, y), z) == Xor(Xor(x, z), y)
  {
    hide Xor;
    XorAssoc(x, y, z);
    XorComm(y, z);
    XorAssoc(x, z, y);
  }

  lemma Regroup3(a: Octet, b: Octet, c: Octet, d: Octet, e: Octet, f: Octet)
    ensures Xor3(Xor(a, d), Xor(b, e), Xor(c, f)) == Xor(Xor3(a, b, c), Xor3(d, e, f))
  {
    hide Xor;
    Regroup2(a, b, d, e);
    Regroup2(Xor(a, b), c, Xor(d, e), f);
  }

  lemma Regroup4(a: Octet, b: Octet, c: Octet, d: Octet, e: Octet, f: Octet, g: Octet, h: Octet)
    ensures Xor4(Xor(a, e), Xor(b, f), Xor(c, g), Xor(d, h)) == Xor(Xor4(a, b, c, d), Xor4(e, f, g, h))
  {
    hide Xor;
    Regroup3(a, b, c, e, f, g);
    Regroup2(Xor3(a, b, c), d, Xor3(e, f, g), h);
  }

  lemma Xor4Pairs(a: Octet, b: Octet, c: Octet, d: Octet)
    ensures Xor4(a, b, c, d) == Xor(Xor(a, b), Xor(c, d))
  {
    hide Xor;
    XorAssoc(Xor(a, b), c, d);
  }

  lemma Rotate4(a: Octet, b: Octet, c: Octet, d: Octet)
    ensures Xor4(a, b, c, d) == Xor4(b, c, d, a)
  {
    hide Xor;
    XorAssoc(a, b, c);
    XorAssoc(a, Xor(b, c), d);
    XorComm(a, Xor(Xor(b, c), d));
  }

  lemma XtimeXor(a: Octet, b: Octet)
    ensures Xtime(Xor(a, b)) == Xor(Xtime(a), Xtime(b))
  {
    XtimeByShifts(a);
    XtimeByShifts(b);
    XtimeByShifts(Xor(a, b));
    ShiftsXor(a, b);
    hide Xtime, Xor, ByShifts;
  }

  /** The reduction written as shifts of the top bit. */
  function ByShifts(x: Octet): Octet
  {
    var h := x >> 7;
    (x << 1) ^ h ^ (h << 1) ^ (h << 3) ^ (h << 4)
  }

  lemma XtimeByShifts(x: Octet)
    ensures Xtime(x) == ByShifts(x)
  {
  }

  lemma ShiftsXor(a: Octet, b: Octet)
    ensures ByShifts(Xor(a, b)) == Xor(ByShifts(a), ByShifts(b))
  {
  }

  // ---- multiplication by constants ----

  /** Every constant multiplication distributes over addition. */
  lemma MulXor(a: Octet, b: Octet)
    ensures M9(Xor(a, b)) == Xor(M9(a), M9(b)) && M11(Xor(a, b)) == Xor(M11(a), M11(b))
    ensures M13(Xor(a, b)) == Xor(M13(a), M13(b)) && M14(Xor(a, b)) == Xor(M14(a), M14(b))
  {
    hide Xtime, Xor, Xor3;
    var a1, a2, a3 := Xtime(a), Xtime(Xtime(a)), Xtime(Xtime(Xtime(a)));
    var b1, b2, b3 := Xtime(b), Xtime(Xtime(b)), Xtime(Xtime(Xtime(b)));
    XtimeXor(a, b);
    XtimeXor(a1, b1);
    XtimeXor(a2, b2);
    Regroup3(a3, a2, a1, b3, b2, b1);
    Regroup3(a3, a2, a, b3, b2, b);
    Regroup3(a3, a1, a, b3, b1, b);
    Regroup2(a3, a, b3, b);
  }

  lemma MulXor4(a: Octet, b: Octet, c: Octet, d: Octet)
    ensures M9(Xor4(a, b, c, d)) == Xor4(M9(a), M9(b), M9(c), M9(d))
    ensures M11(Xor4(a, b, c, d)) == Xor4(M11(a), M11(b), M11(c), M11(d))
    ensures M13(Xor4(a, b, c, d)) == Xor4(M13(a), M13(b), M13(c), M13(d))
    ensures M14(Xor4(a, b, c, d)) == Xor4(M14(a), M14(b), M14(c), M14(d))
  {
    hide *;
    Xor4Pairs(a, b, c, d);
    MulXor(Xor(a, b), Xor(c, d));
    MulXor(a, b);
    MulXor(c, d);
    Xor4Pairs(M9(a), M9(b), M9(c), M9(d));
    Xor4Pairs(M11(a), M11(b), M11(c), M11(d));
    Xor4Pairs(M13(a), M13(b), M13(c), M13(d));
    Xor4Pairs(M14(a), M14(b), M14(c), M14(d));
  }

  /** One row of MixColumns. */
  function MixRow(a: Octet, b: Octet, c: Octet, d: Octet): Octet
  {
    Xor4(M2(a), M3(b), c, d)
  }

  /** One row of InvMixColumns. */
  function InvMixRow(a: Octet, b: Octet, c: Octet, d: Octet): Octet
  {
    Xor4(M14(a), M11(b), M13(c), M9(d))
  }

  // The four products of a row of InvMixColumns with a column of MixColumns.

  lemma CancelA(a: Octet, a1: Octet, a2: Octet, a3: Octet, a4: Octet)
    ensures Xor4(Xor3(a4, a3, a2), Xor3(a3, a1, a), Xor3(a3, a2, a), Xor(Xor(a4, a1), Xor(a3, a))) == a
  {
    hide Xor;
    var p, q := Xor(a4, a1), Xor(a2, a);
    Regroup2(Xor(a4, a3), Xor(a3, a1), a2, a);
    Drop(a4, a3, a1);
    XorAssoc(a3, a2, a);
    Drop(p, q, a3);
    XorAssoc(p, a3, a);
    Around(Xor(p, a3), a);
  }

  lemma CancelB(b: Octet, b1: Octet, b2: Octet, b3: Octet, b4: Octet)
    ensures Xor4(Xor(Xor3(b4, b3, b2), Xor3(b3, b2, b1)), Xor3(b4, b2, b1), Xor3(b3, b2, b), Xor(b3, b)) == 0
  {
    hide Xor;
    XorAssoc(b4, b3, b2);
    Drop(b4, Xor(b3, b2), b1);
    Drop(b4, b1, Xor(b4, b2));
    Around(b4, b2);
    XorAssoc(b2, Xor(b3, b2), b);
    Around(b2, b3);
    Around(Xor(b3, b), b);
  }

  lemma CancelC(c: Octet, c1: Octet, c2: Octet, c3: Octet, c4: Octet)
    ensures Xor4(Xor3(c3, c2, c1), Xor(Xor3(c4, c2, c1), Xor3(c3, c1, c)), Xor3(c4, c3, c1), Xor(c3, c)) == 0
  {
    hide Xor;
    var u, v, w := Xor(c4, c2), Xor(c3, c4), Xor(c1, Xor(c3, c));
    XorComm(c3, c1);
    XorAssoc(c1, c3, c);
    Drop(u, c1, Xor(c3, c));
    Regroup2(Xor(c3, c2), u, c1, Xor(c3, c));
    Drop(c3, c2, c4);
    XorComm(c3, c4);
    Drop(w, v, c1);
    Around(c1, Xor(c3, c));
    Around(Xor(c3, c), c);
  }

  lemma CancelD(d: Octet, d1: Octet, d2: Octet, d3: Octet, d4: Octet)
    ensures Xor4(Xor3(d3, d2, d1), Xor3(d3, d1, d), Xor(Xor3(d4, d3, d1), Xor3(d3, d2, d)), Xor(d4, d1)) == 0
  {
    hide Xor;
    var p, q := Xor(d4, d1), Xor(d2, d);
    Swap(d3, d2, d1);
    Drop(d2, Xor(d3, d1), d);
    Swap(d4, d3, d1);
    XorAssoc(d3, d2, d);
    Drop(p, d3, q);
    Around(q, p);
    Around(p, d);
  }

  lemma Products(x: Octet)
    ensures Xor4(M14(M2(x)), M11(x), M13(x), M9(M3(x))) == x
    ensures Xor4(M14(M3(x)), M11(M2(x)), M13(x), M9(x)) == 0
    ensures Xor4(M14(x), M11(M3(x)), M13(M2(x)), M9(x)) == 0
    ensures Xor4(M14(x), M11(x), M13(M3(x)), M9(M2(x))) == 0
  {
    hide Xtime, Xor, Xor3, Xor4;
    var x1 := Xtime(x);
    var x2 := Xtime(x1);
    var x3 := Xtime(x2);
    var x4 := Xtime(x3);
    MulXor(x1, x);
    CancelA(x, x1, x2, x3, x4);
    CancelB(x, x1, x2, x3, x4);
    CancelC(x, x1, x2, x3, x4);
    CancelD(x, x1, x2, x3, x4);
  }

  /** The sum of four rows, each entered one place further round, is the sum of the columns. */
  lemma Transpose(a0: Octet, a1: Octet, a2: Octet, a3: Octet, b0: Octet, b1: Octet, b2: Octet, b3: Octet,
                  c0: Octet, c1: Octet, c2: Octet, c3: Octet, d0: Octet, d1: Octet, d2: Octet, d3: Octet)
    ensures Xor4(Xor4(a0, b0, c0, d0), Xor4(b1, c1, d1, a1), Xor4(c2, d2, a2, b2), Xor4(d3, a3, b3, c3))
         == Xor4(Xor4(a0, a1, a2, a3), Xor4(b0, b1, b2, b3), Xor4(c0, c1, c2, c3), Xor4(d0, d1, d2, d3))
  {
    Rotate4(a1, b1, c1, d1);
    Rotate4(a2, b2, c2, d2);
    Rotate4(b2, c2, d2, a2);
    Rotate4(d3, a3, b3, c3);
    Regroup4(a0, b0, c0, d0, a1, b1, c1, d1);
    Regroup4(Xor(a0, a1), Xor(b0, b1), Xor(c0, c1), Xor(d0, d1), a2, b2, c2, d2);
    Regroup4(Xor3(a0, a1, a2), Xor3(b0, b1, b2), Xor3(c0, c1, c2), Xor3(d0, d1, d2), a3, b3, c3, d3);
    hide Xor;
  }

  lemma OnlyFirst(a: Octet)
    ensures Xor4(a, 0, 0, 0) == a
  {
    XorCancel(a, 0);
    hide Xor;
  }

  /** A row of InvMixColumns applied to a mixed column gives back the byte it stands for. */
  lemma InvMixRowMix(a: Octet, b: Octet, c: Octet, d: Octet)
    ensures InvMixRow(MixRow(a, b, c, d), MixRow(b, c, d, a), MixRow(c, d, a, b), MixRow(d, a, b, c)) == a
  {
    hide Xtime, Xor, Xor3, Xor4, M2, M3, M9, M11, M13, M14;
    MulXor4(M2(a), M3(b), c, d);
    MulXor4(M2(b), M3(c), d, a);
    MulXor4(M2(c), M3(d), a, b);
    MulXor4(M2(d), M3(a), b, c);
    Transpose(M14(M2(a)), M11(a), M13(a), M9(M3(a)), M14(M3(b)), M11(M2(b)), M13(b), M9(b),
              M14(c), M11(M3(c)), M13(M2(c)), M9(c), M14(d), M11(d), M13(M3(d)), M9(M2(d)));
    Products(a);
    Products(b);
    Products(c);
    Products(d);
    OnlyFirst(a);
  }
}
