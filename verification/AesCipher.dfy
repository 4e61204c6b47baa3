/** The AES cipher of FIPS 197, sections 5.1 and 5.3.5, and the tables of aes.c that implement its rounds. */
module AesCipher {
  import opened AesField
  import opened AesSbox

  /** A 32-bit word, most significant byte first: one column of the state. `w >> 24` is b0. */
  datatype Col = Col(b0: Octet, b1: Octet, b2: Octet, b3: Octet)

  datatype State = State(c0: Col, c1: Col, c2: Col, c3: Col)

  function XorCol(a: Col, b: Col): Col
  {
    Col(Xor(a.b0, b.b0), Xor(a.b1, b.b1), Xor(a.b2, b.b2), Xor(a.b3, b.b3))
  }

  // ---- the transformations ----

  function SubCol(c: Col): Col
  {
    Col(S(c.b0), S(c.b1), S(c.b2), S(c.b3))
  }

  function InvSubCol(c: Col): Col
  {
    Col(Si(c.b0), Si(c.b1), Si(c.b2), Si(c.b3))
  }

  function MixCol(c: Col): Col
  {
    Col(MixRow(c.b0, c.b1, c.b2, c.b3), MixRow(c.b1, c.b2, c.b3, c.b0),
        MixRow(c.b2, c.b3, c.b0, c.b1), MixRow(c.b3, c.b0, c.b1, c.b2))
  }

  function InvMixCol(c: Col): Col
  {
    Col(InvMixRow(c.b0, c.b1, c.b2, c.b3), InvMixRow(c.b1, c.b2, c.b3, c.b0),
        InvMixRow(c.b2, c.b3, c.b0, c.b1), InvMixRow(c.b3, c.b0, c.b1, c.b2))
  }

  function SubBytes(s: State): State
  {
    State(SubCol(s.c0), SubCol(s.c1), SubCol(s.c2), SubCol(s.c3))
  }

  function InvSubBytes(s: State): State
  {
    State(InvSubCol(s.c0), InvSubCol(s.c1), InvSubCol(s.c2), InvSubCol(s.c3))
  }

  function ShiftRows(s: State): State
  {
    State(Col(s.c0.b0, s.c1.b1, s.c2.b2, s.c3.b3), Col(s.c1.b0, s.c2.b1, s.c3.b2, s.c0.b3),
          Col(s.c2.b0, s.c3.b1, s.c0.b2, s.c1.b3), Col(s.c3.b0, s.c0.b1, s.c1.b2, s.c2.b3))
  }

  function InvShiftRows(s: State): State
  {
    State(Col(s.c0.b0, s.c3.b1, s.c2.b2, s.c1.b3), Col(s.c1.b0, s.c0.b1, s.c3.b2, s.c2.b3),
          Col(s.c2.b0, s.c1.b1, s.c0.b2, s.c3.b3), Col(s.c3.b0, s.c2.b1, s.c1.b2, s.c0.b3))
  }

  function MixColumns(s: State): State
  {
    State(MixCol(s.c0), MixCol(s.c1), MixCol(s.c2), MixCol(s.c3))
  }

  function InvMixColumns(s: State): State
  {
    State(InvMixCol(s.c0), InvMixCol(s.c1), InvMixCol(s.c2), InvMixCol(s.c3))
  }

  function AddRoundKey(s: State, k: State): State
  {
    State(XorCol(s.c0, k.c0), XorCol(s.c1, k.c1), XorCol(s.c2, k.c2), XorCol(s.c3, k.c3))
  }

  // ---- cipher and equivalent inverse cipher ----

  function RoundKey(w: seq<Col>, i: nat): State
    requires 4 * i + 3 < |w|
  {
    State(w[4 * i], w[4 * i + 1], w[4 * i + 2], w[4 * i + 3])
  }

  function Round(s: State, k: State): State
  {
    AddRoundKey(MixColumns(ShiftRows(SubBytes(s))), k)
  }

  function FinalRound(s: State, k: State): State
  {
    AddRoundKey(ShiftRows(SubBytes(s)), k)
  }

  function InvRound(s: State, k: State): State
  {
    AddRoundKey(InvMixColumns(InvShiftRows(InvSubBytes(s))), k)
  }

  function InvFinalRound(s: State, k: State): State
  {
    AddRoundKey(InvShiftRows(InvSubBytes(s)), k)
  }

  /** The initial key addition and full rounds 1 to `n`. */
  function Rounds(s: State, w: seq<Col>, n: nat): State
    requires 4 * n + 3 < |w|
  {
    if n == 0 then AddRoundKey(s, RoundKey(w, 0)) else Round(Rounds(s, w, n - 1), RoundKey(w, n))
  }

  function InvRounds(s: State, w: seq<Col>, n: nat): State
    requires 4 * n + 3 < |w|
  {
    if n == 0 then AddRoundKey(s, RoundKey(w, 0)) else InvRound(InvRounds(s, w, n - 1), RoundKey(w, n))
  }

  /** Section 5.1: Nr - 1 full rounds and a final one without MixColumns. */
  function Cipher(s: State, w: seq<Col>, nr: nat): State
    requires nr > 0 && 4 * nr + 3 < |w|
  {
    FinalRound(Rounds(s, w, nr - 1), RoundKey(w, nr))
  }

  /** Section 5.3.5: the equivalent inverse cipher, on its own schedule. */
  function EqInvCipher(s: State, w: seq<Col>, nr: nat): State
    requires nr > 0 && 4 * nr + 3 < |w|
  {
    InvFinalRound(InvRounds(s, w, nr - 1), RoundKey(w, nr))
  }

  /** The schedule of the equivalent inverse cipher: round keys reversed, all but the ends through InvMixColumns. */
  ghost predicate IsInverseSchedule(w: seq<Col>, dw: seq<Col>, nr: nat)
    requires 4 * nr + 3 < |w|
  {
    && 4 * nr + 3 < |dw|
    && RoundKey(dw, 0) == RoundKey(w, nr) && RoundKey(dw, nr) == RoundKey(w, 0)
    && forall i :: 0 < i < nr ==> RoundKey(dw, i) == InvMixColumns(RoundKey(w, nr - i))
  }

  // ---- each inverse transformation undoes its own ----

  lemma UnsubCol(c: Col)
    ensures InvSubCol(SubCol(c)) == c
  {
    hide S, Si;
    InverseSbox(c.b0);
    InverseSbox(c.b1);
    InverseSbox(c.b2);
    InverseSbox(c.b3);
  }

  lemma UnmixCol(c: Col)
    ensures InvMixCol(MixCol(c)) == c
  {
    hide MixRow, InvMixRow;
    InvMixRowMix(c.b0, c.b1, c.b2, c.b3);
    InvMixRowMix(c.b1, c.b2, c.b3, c.b0);
    InvMixRowMix(c.b2, c.b3, c.b0, c.b1);
    InvMixRowMix(c.b3, c.b0, c.b1, c.b2);
  }

  lemma InvMixRowXor(a: Octet, b: Octet, c: Octet, d: Octet, e: Octet, f: Octet, g: Octet, h: Octet)
    ensures InvMixRow(Xor(a, e), Xor(b, f), Xor(c, g), Xor(d, h)) == Xor(InvMixRow(a, b, c, d), InvMixRow(e, f, g, h))
  {
    hide Xor, Xor4, M9, M11, M13, M14;
    MulXor(a, e);
    MulXor(b, f);
    MulXor(c, g);
    MulXor(d, h);
    Regroup4(M14(a), M11(b), M13(c), M9(d), M14(e), M11(f), M13(g), M9(h));
  }

  lemma InvMixColXor(a: Col, k: Col)
    ensures InvMixCol(XorCol(a, k)) == XorCol(InvMixCol(a), InvMixCol(k))
  {
    hide Xor, InvMixRow;
    InvMixRowXor(a.b0, a.b1, a.b2, a.b3, k.b0, k.b1, k.b2, k.b3);
    InvMixRowXor(a.b1, a.b2, a.b3, a.b0, k.b1, k.b2, k.b3, k.b0);
    InvMixRowXor(a.b2, a.b3, a.b0, a.b1, k.b2, k.b3, k.b0, k.b1);
    InvMixRowXor(a.b3, a.b0, a.b1, a.b2, k.b3, k.b0, k.b1, k.b2);
  }

  lemma XorColCancel(a: Col, k: Col)
    ensures XorCol(XorCol(a, k), k) == a
  {
    hide Xor;
    XorCancel(a.b0, k.b0);
    XorCancel(a.b1, k.b1);
    XorCancel(a.b2, k.b2);
    XorCancel(a.b3, k.b3);
  }

  lemma AddKeyCancel(s: State, k: State)
    ensures AddRoundKey(AddRoundKey(s, k), k) == s
  {
    hide XorCol;
    XorColCancel(s.c0, k.c0);
    XorColCancel(s.c1, k.c1);
    XorColCancel(s.c2, k.c2);
    XorColCancel(s.c3, k.c3);
  }

  /** InvSubBytes and InvShiftRows undo SubBytes and ShiftRows in either order. */
  lemma UnsubUnshift(s: State)
    ensures InvShiftRows(InvSubBytes(ShiftRows(SubBytes(s)))) == s
  {
    hide S, Si;
    UnsubCol(s.c0);
    UnsubCol(s.c1);
    UnsubCol(s.c2);
    UnsubCol(s.c3);
  }

  /** InvMixColumns after a key addition is a key addition of the transformed key. */
  lemma UnmixWithKey(s: State, k: State)
    ensures InvMixColumns(AddRoundKey(MixColumns(s), k)) == AddRoundKey(s, InvMixColumns(k))
  {
    hide XorCol, MixCol, InvMixCol;
    InvMixColXor(MixCol(s.c0), k.c0);
    InvMixColXor(MixCol(s.c1), k.c1);
    InvMixColXor(MixCol(s.c2), k.c2);
    InvMixColXor(MixCol(s.c3), k.c3);
    UnmixCol(s.c0);
    UnmixCol(s.c1);
    UnmixCol(s.c2);
    UnmixCol(s.c3);
  }

  /** After `n` inverse rounds the decryption stands where the encryption stood `n` rounds before its last one. */
  lemma {:induction false} InvRoundsUndo(s: State, w: seq<Col>, dw: seq<Col>, nr: nat, n: nat)
    requires 4 * nr + 3 < |w| && n < nr && IsInverseSchedule(w, dw, nr)
    ensures InvRounds(Cipher(s, w, nr), dw, n) == ShiftRows(SubBytes(Rounds(s, w, nr - 1 - n)))
  {
    hide AddRoundKey, SubBytes, ShiftRows, MixColumns, InvMixColumns, InvShiftRows, InvSubBytes;
    if n == 0 {
      AddKeyCancel(ShiftRows(SubBytes(Rounds(s, w, nr - 1))), RoundKey(w, nr));
    } else {
      InvRoundsUndo(s, w, dw, nr, n - 1);
      var before := Rounds(s, w, nr - 1 - n);
      UnsubUnshift(Rounds(s, w, nr - n));
      UnmixWithKey(ShiftRows(SubBytes(before)), RoundKey(w, nr - n));
      AddKeyCancel(ShiftRows(SubBytes(before)), InvMixColumns(RoundKey(w, nr - n)));
    }
  }

  /** The equivalent inverse cipher undoes the cipher, for every schedule, number of rounds and block. */
  lemma DecryptUndoesEncrypt(s: State, w: seq<Col>, dw: seq<Col>, nr: nat)
    requires nr > 0 && 4 * nr + 3 < |w| && IsInverseSchedule(w, dw, nr)
    ensures EqInvCipher(Cipher(s, w, nr), dw, nr) == s
  {
    hide AddRoundKey, SubBytes, ShiftRows, InvShiftRows, InvSubBytes, Cipher, Rounds, InvRounds;
    InvRoundsUndo(s, w, dw, nr, nr - 1);
    UnsubUnshift(Rounds(s, w, 0));
    FirstKey(s, w);
    AddKeyCancel(s, RoundKey(w, 0));
  }

  lemma FirstKey(s: State, w: seq<Col>)
    requires 3 < |w|
    ensures Rounds(s, w, 0) == AddRoundKey(s, RoundKey(w, 0))
  {
  }

  // ---- the tables ----

  function Te0(x: Octet): Col { Col(M2(S(x)), S(x), S(x), M3(S(x))) }
  function Te1(x: Octet): Col { Col(M3(S(x)), M2(S(x)), S(x), S(x)) }
  function Te2(x: Octet): Col { Col(S(x), M3(S(x)), M2(S(x)), S(x)) }
  function Te3(x: Octet): Col { Col(S(x), S(x), M3(S(x)), M2(S(x))) }
  function Te4(x: Octet): Col { Col(S(x), S(x), S(x), S(x)) }

  function Td0(x: Octet): Col { Col(M14(Si(x)), M9(Si(x)), M13(Si(x)), M11(Si(x))) }
  function Td1(x: Octet): Col { Col(M11(Si(x)), M14(Si(x)), M9(Si(x)), M13(Si(x))) }
  function Td2(x: Octet): Col { Col(M13(Si(x)), M11(Si(x)), M14(Si(x)), M9(Si(x))) }
  function Td3(x: Octet): Col { Col(M9(Si(x)), M13(Si(x)), M11(Si(x)), M14(Si(x))) }
  function Td4(x: Octet): Col { Col(Si(x), Si(x), Si(x), Si(x)) }

  /** `a ^ b ^ c ^ d ^ k` on words */
  function XorCol5(a: Col, b: Col, c: Col, d: Col, k: Col): Col
  {
    XorCol(XorCol(XorCol(XorCol(a, b), c), d), k)
  }

  lemma XorCol5Bytes(a: Col, b: Col, c: Col, d: Col, k: Col)
    ensures XorCol5(a, b, c, d, k)
         == XorCol(Col(Xor4(a.b0, b.b0, c.b0, d.b0), Xor4(a.b1, b.b1, c.b1, d.b1),
                       Xor4(a.b2, b.b2, c.b2, d.b2), Xor4(a.b3, b.b3, c.b3, d.b3)), k)
  {
    hide Xor;
  }

  /** Four table look-ups make one column of a full round. */
  lemma TableColumn(x0: Octet, x1: Octet, x2: Octet, x3: Octet, k: Col)
    ensures XorCol5(Te0(x0), Te1(x1), Te2(x2), Te3(x3), k) == XorCol(MixCol(SubCol(Col(x0, x1, x2, x3))), k)
  {
    hide S, M2, M3, Xor, Xor4, XorCol5, XorCol;
    XorCol5Bytes(Te0(x0), Te1(x1), Te2(x2), Te3(x3), k);
    var y0, y1, y2, y3 := S(x0), S(x1), S(x2), S(x3);
    Rotate4(y0, M2(y1), M3(y2), y3);
    Rotate4(y0, y1, M2(y2), M3(y3));
    Rotate4(y1, M2(y2), M3(y3), y0);
    Rotate4(M2(y3), M3(y0), y1, y2);
  }

  lemma InvTableColumn(x0: Octet, x1: Octet, x2: Octet, x3: Octet, k: Col)
    ensures XorCol5(Td0(x0), Td1(x1), Td2(x2), Td3(x3), k) == XorCol(InvMixCol(InvSubCol(Col(x0, x1, x2, x3))), k)
  {
    hide Si, M9, M11, M13, M14, Xor, Xor4, XorCol5, XorCol;
    XorCol5Bytes(Td0(x0), Td1(x1), Td2(x2), Td3(x3), k);
    var y0, y1, y2, y3 := Si(x0), Si(x1), Si(x2), Si(x3);
    Rotate4(M9(y0), M14(y1), M11(y2), M13(y3));
    Rotate4(M13(y0), M9(y1), M14(y2), M11(y3));
    Rotate4(M9(y1), M14(y2), M11(y3), M13(y0));
    Rotate4(M14(y3), M11(y0), M13(y1), M9(y2));
  }
}
