/** aes.c: key expansion (FIPS 197, section 5.2) and the decryption schedule (section 5.3.5). */
module AesKeySchedule {
  import opened AesField
  import opened AesSbox
  import opened AesCipher

  /** `GETU32(pt + off)` */
  function GetU32(b: seq<Octet>, off: nat): Col
    requires off + 4 <= |b|
  {
    Col(b[off], b[off + 1], b[off + 2], b[off + 3])
  }

  // ---- section 5.2 ----

  /** The round constant x^(j-1). */
  function RconByte(j: nat): Octet
    requires j > 0
  {
    if j == 1 then 1 else Xtime(RconByte(j - 1))
  }

  function RotWord(c: Col): Col
  {
    Col(c.b1, c.b2, c.b3, c.b0)
  }

  /** The key lengths of the standard, in words. */
  predicate KeyWords(nk: nat)
  {
    nk == 4 || nk == 6 || nk == 8
  }

  /** i mod Nk and i / Nk for those lengths */
  function Mod(i: nat, nk: nat): (r: nat)
    requires KeyWords(nk)
    ensures i < nk ==> r == i
  {
    if nk == 4 then i % 4 else if nk == 6 then i % 6 else i % 8
  }

  function Div(i: nat, nk: nat): (q: nat)
    requires KeyWords(nk)
    ensures nk <= i ==> q > 0
  {
    if nk == 4 then i / 4 else if nk == 6 then i / 6 else i / 8
  }

  /** Word `i` of the schedule for a key of `nk` words. */
  function KeyWord(key: seq<Octet>, nk: nat, i: nat): Col
    requires KeyWords(nk) && |key| >= 4 * nk
  {
    if i < nk then GetU32(key, 4 * i)
    else
      var temp := KeyWord(key, nk, i - 1);
      XorCol(KeyWord(key, nk, i - nk),
             if Mod(i, nk) == 0 then XorCol(SubCol(RotWord(temp)), Col(RconByte(Div(i, nk)), 0, 0, 0))
             else if nk > 6 && Mod(i, nk) == 4 then SubCol(temp)
             else temp)
  }

  /** The schedule in bytes, the first words being the key. Every `nk` words, the bytes of the last word are rotated by
      one, taken through the S-box, and added to the word `nk` before; the first byte also gets the round constant. */
  lemma KeyWordHead(key: seq<Octet>, nk: nat, i: nat)
    requires KeyWords(nk) && |key| >= 4 * nk && i >= nk && i % nk == 0
    ensures var w, last, base := KeyWord(key, nk, i), KeyWord(key, nk, i - 1), KeyWord(key, nk, i - nk);
            && i / nk > 0 && w.b0 == base.b0 ^ S(last.b1) ^ RconByte(i / nk)
            && w.b1 == base.b1 ^ S(last.b2) && w.b2 == base.b2 ^ S(last.b3) && w.b3 == base.b3 ^ S(last.b0)
  {
    hide S, XorCol, SubCol, RotWord, RconByte, KeyWord, Mod, Div;
    NextWord(key, nk, i);
    DivMod(i, nk);
    HeadBytes(KeyWord(key, nk, i - nk), KeyWord(key, nk, i - 1), RconByte(Div(i, nk)));
  }

  /** For 256-bit keys, halfway in between, the bytes of the last word go through the S-box. */
  lemma KeyWordMiddle(key: seq<Octet>, i: nat)
    requires |key| >= 32 && i >= 8 && i % 8 == 4
    ensures var w, last, base := KeyWord(key, 8, i), KeyWord(key, 8, i - 1), KeyWord(key, 8, i - 8);
            && w.b0 == base.b0 ^ S(last.b0) && w.b1 == base.b1 ^ S(last.b1)
            && w.b2 == base.b2 ^ S(last.b2) && w.b3 == base.b3 ^ S(last.b3)
  {
    hide S, XorCol, SubCol, RotWord, RconByte, KeyWord, Mod, Div;
    NextWord(key, 8, i);
    DivMod(i, 8);
    ColBytes(KeyWord(key, 8, i - 8), SubCol(KeyWord(key, 8, i - 1)));
    SubBytesOf(KeyWord(key, 8, i - 1));
  }

  /** Otherwise the last word is added. */
  lemma KeyWordOther(key: seq<Octet>, nk: nat, i: nat)
    requires KeyWords(nk) && |key| >= 4 * nk && i >= nk && i % nk != 0 && !(nk == 8 && i % 8 == 4)
    ensures var w, last, base := KeyWord(key, nk, i), KeyWord(key, nk, i - 1), KeyWord(key, nk, i - nk);
            && w.b0 == base.b0 ^ last.b0 && w.b1 == base.b1 ^ last.b1
            && w.b2 == base.b2 ^ last.b2 && w.b3 == base.b3 ^ last.b3
  {
    hide XorCol, SubCol, RotWord, RconByte, KeyWord, Mod, Div;
    NextWord(key, nk, i);
    DivMod(i, nk);
    ColBytes(KeyWord(key, nk, i - nk), KeyWord(key, nk, i - 1));
  }

  lemma FirstWords(key: seq<Octet>, nk: nat, i: nat)
    requires KeyWords(nk) && |key| >= 4 * nk && i < nk
    ensures KeyWord(key, nk, i) == Col(key[4 * i], key[4 * i + 1], key[4 * i + 2], key[4 * i + 3])
  {
  }

  lemma NextWord(key: seq<Octet>, nk: nat, i: nat)
    requires KeyWords(nk) && |key| >= 4 * nk && i >= nk
    ensures var last := KeyWord(key, nk, i - 1);
            KeyWord(key, nk, i)
            == XorCol(KeyWord(key, nk, i - nk),
                      if Mod(i, nk) == 0 then XorCol(SubCol(RotWord(last)), Col(RconByte(Div(i, nk)), 0, 0, 0))
                      else if nk == 8 && Mod(i, nk) == 4 then SubCol(last)
                      else last)
  {
    hide XorCol, SubCol, RotWord, RconByte, Mod;
  }

  lemma SubBytesOf(c: Col)
    ensures SubCol(c) == Col(S(c.b0), S(c.b1), S(c.b2), S(c.b3))
  {
  }

  lemma ColBytes(a: Col, b: Col)
    ensures var w := XorCol(a, b);
            w.b0 == a.b0 ^ b.b0 && w.b1 == a.b1 ^ b.b1 && w.b2 == a.b2 ^ b.b2 && w.b3 == a.b3 ^ b.b3
  {
    hide Xor;
    XorIs(a.b0, b.b0);
    XorIs(a.b1, b.b1);
    XorIs(a.b2, b.b2);
    XorIs(a.b3, b.b3);
  }

  lemma HeadBytes(base: Col, last: Col, rc: Octet)
    ensures var w := XorCol(base, XorCol(SubCol(RotWord(last)), Col(rc, 0, 0, 0)));
            && w.b0 == base.b0 ^ S(last.b1) ^ rc
            && w.b1 == base.b1 ^ S(last.b2) && w.b2 == base.b2 ^ S(last.b3) && w.b3 == base.b3 ^ S(last.b0)
  {
    hide S, Xor;
    WithZeros(base.b0, S(last.b1), rc);
    WithZeros(base.b1, S(last.b2), 0);
    WithZeros(base.b2, S(last.b3), 0);
    WithZeros(base.b3, S(last.b0), 0);
    XorIs(base.b0, S(last.b1));
    XorIs(Xor(base.b0, S(last.b1)), rc);
    XorIs(base.b1, S(last.b2));
    XorIs(base.b2, S(last.b3));
    XorIs(base.b3, S(last.b0));
  }

  lemma XorIs(a: Octet, b: Octet)
    ensures Xor(a, b) == a ^ b
  {
  }

  lemma DivMod(i: nat, nk: nat)
    requires KeyWords(nk)
    ensures Mod(i, nk) == i % nk && Div(i, nk) == i / nk && (i >= nk ==> Div(i, nk) > 0)
  {
  }

  // ---- the loops ----

  /** The array rcon of aes.c (its top bytes). */
  const RCON: seq<Octet> := [0x01, 0x02, 0x04, 0x08, 0x10, 0x20, 0x40, 0x80, 0x1b, 0x36]

  lemma RconTable(i: nat)
    requires i < 10
    ensures RCON[i] == RconByte(i + 1)
  {
    assert RconByte(2) == 2 && RconByte(3) == 4 && RconByte(4) == 8;
    assert RconByte(5) == 0x10 && RconByte(6) == 0x20 && RconByte(7) == 0x40;
    assert RconByte(8) == 0x80 && RconByte(9) == 0x1b && RconByte(10) == 0x36;
  }

  // Masking a table word to one of its bytes.
  function Top(c: Col): Col { Col(c.b0, 0, 0, 0) }
  function Second(c: Col): Col { Col(0, c.b1, 0, 0) }
  function Third(c: Col): Col { Col(0, 0, c.b2, 0) }
  function Low(c: Col): Col { Col(0, 0, 0, c.b3) }

  /** The first word of a key-expansion turn, as the loops write it. */
  function RotSubXor(first: Col, temp: Col, rc: Octet): Col
  {
    XorCol(XorCol(XorCol(XorCol(XorCol(first, Top(Te4(temp.b1))), Second(Te4(temp.b2))), Third(Te4(temp.b3))),
                  Low(Te4(temp.b0))),
           Col(rc, 0, 0, 0))
  }

  /** The middle word of a 256-bit turn. */
  function SubXor(first: Col, temp: Col): Col
  {
    XorCol(XorCol(XorCol(XorCol(first, Top(Te4(temp.b0))), Second(Te4(temp.b1))), Third(Te4(temp.b2))),
           Low(Te4(temp.b3)))
  }

  lemma RotSubXorIs(first: Col, temp: Col, rc: Octet)
    ensures RotSubXor(first, temp, rc) == XorCol(first, XorCol(SubCol(RotWord(temp)), Col(rc, 0, 0, 0)))
  {
    hide S, Xor;
    WithZeros(first.b0, S(temp.b1), rc);
    WithZeros(first.b1, S(temp.b2), 0);
    WithZeros(first.b2, S(temp.b3), 0);
    WithZeros(first.b3, S(temp.b0), 0);
  }

  lemma SubXorIs(first: Col, temp: Col)
    ensures SubXor(first, temp) == XorCol(first, SubCol(temp))
  {
    hide S, Xor;
    WithZeros(first.b0, S(temp.b0), 0);
    WithZeros(first.b1, S(temp.b1), 0);
    WithZeros(first.b2, S(temp.b2), 0);
    WithZeros(first.b3, S(temp.b3), 0);
  }

  /** Adding a byte among zero bytes, in the orders the mask expressions produce. */
  lemma WithZeros(a: Octet, x: Octet, r: Octet)
    ensures Xor(a, 0) == a && Xor(Xor(a, x), 0) == Xor(a, x) && Xor(x, 0) == x
    ensures Xor(Xor(a, x), r) == Xor(a, Xor(x, r))
  {
    XorCancel(a, 0);
    XorCancel(x, 0);
    XorCancel(Xor(a, x), 0);
    XorAssoc(a, x, r);
  }

  class AesKey {
    const rdKey: array<Col>
    var rounds: nat

    constructor ()
      ensures fresh(rdKey) && rdKey.Length == 60
    {
      rdKey := new Col[60](_ => Col(0, 0, 0, 0));
      rounds := 0;
    }
  }

  /** The first `n` words of the schedule are in place. */
  ghost predicate Filled(rk: array<Col>, key: seq<Octet>, nk: nat, n: nat)
    requires KeyWords(nk) && |key| >= 4 * nk
    reads rk
  {
    n <= rk.Length && forall j: nat :: j < n ==> rk[j] == KeyWord(key, nk, j)
  }

  /** `rk[i] = v`, where `v` is the word the schedule has there. */
  method Put(rk: array<Col>, ghost key: seq<Octet>, ghost nk: nat, i: nat, v: Col)
    requires KeyWords(nk) && |key| >= 4 * nk && i < rk.Length && Filled(rk, key, nk, i) && v == KeyWord(key, nk, i)
    modifies rk
    ensures Filled(rk, key, nk, i + 1)
  {
    hide KeyWord;
    rk[i] := v;
  }

  /** The words copied from the key. */
  method CopyKey(userKey: seq<Octet>, rk: array<Col>, nk: nat)
    requires KeyWords(nk) && |userKey| >= 4 * nk && rk.Length == 60
    modifies rk
    ensures Filled(rk, userKey, nk, nk)
  {
    for i := 0 to nk
      invariant Filled(rk, userKey, nk, i)
    {
      Put(rk, userKey, nk, i, Col(userKey[4 * i], userKey[4 * i + 1], userKey[4 * i + 2], userKey[4 * i + 3]));
    }
  }

  /** Turn `i` of the loop for keys of `nk` words has its pointer at `p`. */
  ghost predicate Turn(nk: nat, i: nat, p: nat)
  {
    (nk == 4 && p == 4 * i) || (nk == 6 && p == 6 * i) || (nk == 8 && p == 8 * i)
  }

  /** A word at a multiple of `nk`, as the loops compute it; `i` is the loop counter. */
  lemma Head(key: seq<Octet>, nk: nat, i: nat, p: nat)
    requires Turn(nk, i, p) && |key| >= 4 * nk && i < 10
    ensures RotSubXor(KeyWord(key, nk, p), KeyWord(key, nk, p + nk - 1), RCON[i]) == KeyWord(key, nk, p + nk)
  {
    hide RotSubXor, XorCol, SubCol, RotWord, RconByte;
    RconTable(i);
    RotSubXorIs(KeyWord(key, nk, p), KeyWord(key, nk, p + nk - 1), RCON[i]);
    Offsets(nk, i, p);
  }

  lemma Offsets4(i: nat, p: nat)
    requires p == 4 * i
    ensures Mod(p + 4, 4) == 0 && Div(p + 4, 4) == i + 1
    ensures Mod(p + 5, 4) == 1 && Mod(p + 6, 4) == 2 && Mod(p + 7, 4) == 3
  {
  }

  lemma Offsets6(i: nat, p: nat)
    requires p == 6 * i
    ensures Mod(p + 6, 6) == 0 && Div(p + 6, 6) == i + 1
    ensures Mod(p + 7, 6) == 1 && Mod(p + 8, 6) == 2 && Mod(p + 9, 6) == 3
  {
  }

  lemma Offsets8(i: nat, p: nat)
    requires p == 8 * i
    ensures Mod(p + 8, 8) == 0 && Div(p + 8, 8) == i + 1
    ensures Mod(p + 9, 8) == 1 && Mod(p + 10, 8) == 2 && Mod(p + 11, 8) == 3
  {
  }

  /** Where in the cycle of `nk` the words of a turn fall. */
  lemma Offsets(nk: nat, i: nat, p: nat)
    requires Turn(nk, i, p)
    ensures Mod(p + nk, nk) == 0 && Div(p + nk, nk) == i + 1
    ensures Mod(p + nk + 1, nk) == 1 && Mod(p + nk + 2, nk) == 2 && Mod(p + nk + 3, nk) == 3
  {
    hide Mod, Div;
    if nk == 4 {
      Offsets4(i, p);
    } else if nk == 6 {
      Offsets6(i, p);
    } else {
      Offsets8(i, p);
    }
  }

  /** The word in the middle of a 256-bit turn. */
  lemma Middle(key: seq<Octet>, i: nat, p: nat)
    requires |key| >= 32 && p == 8 * i
    ensures SubXor(KeyWord(key, 8, p + 4), KeyWord(key, 8, p + 11)) == KeyWord(key, 8, p + 12)
  {
    hide SubXor, XorCol, SubCol;
    SubXorIs(KeyWord(key, 8, p + 4), KeyWord(key, 8, p + 11));
    assert Mod(p + 12, 8) == 4;
  }

  /** Every other word. */
  lemma Plain(key: seq<Octet>, nk: nat, i: nat)
    requires KeyWords(nk) && |key| >= 4 * nk && i > nk && Mod(i, nk) != 0 && !(nk > 6 && Mod(i, nk) == 4)
    ensures KeyWord(key, nk, i) == XorCol(KeyWord(key, nk, i - nk), KeyWord(key, nk, i - 1))
  {
    hide XorCol, SubCol;
  }

  /** rk[q] = rk[q - nk] ^ rk[q - 1] */
  method PutPlain(rk: array<Col>, ghost key: seq<Octet>, nk: nat, q: nat)
    requires KeyWords(nk) && |key| >= 4 * nk && nk < q < rk.Length && Filled(rk, key, nk, q)
    requires Mod(q, nk) != 0 && !(nk > 6 && Mod(q, nk) == 4)
    modifies rk
    ensures Filled(rk, key, nk, q + 1)
  {
    hide KeyWord, XorCol;
    Plain(key, nk, q);
    Put(rk, key, nk, q, XorCol(rk[q - nk], rk[q - 1]));
  }

  /** The first four words of a turn: the same in all three loops. */
  method FourWords(rk: array<Col>, ghost key: seq<Octet>, nk: nat, i: nat, p: nat)
    requires Turn(nk, i, p) && |key| >= 4 * nk && i < 10
    requires p + nk + 4 <= rk.Length && Filled(rk, key, nk, p + nk)
    modifies rk
    ensures Filled(rk, key, nk, p + nk + 4)
  {
    hide KeyWord, RotSubXor, Mod;
    Head(key, nk, i, p);
    Offsets(nk, i, p);
    Put(rk, key, nk, p + nk, RotSubXor(rk[p], rk[p + nk - 1], RCON[i]));
    PutPlain(rk, key, nk, p + nk + 1);
    PutPlain(rk, key, nk, p + nk + 2);
    PutPlain(rk, key, nk, p + nk + 3);
  }

  /** The 128-bit loop. */
  method Expand128(userKey: seq<Octet>, rk: array<Col>)
    requires |userKey| >= 16 && rk.Length == 60
    modifies rk
    ensures Filled(rk, userKey, 4, 44)
  {
    hide KeyWord;
    CopyKey(userKey, rk, 4);
    var i, p := 0, 0;
    while true
      invariant 0 <= i < 10 && p == 4 * i && Filled(rk, userKey, 4, p + 4)
      decreases 10 - i
    {
      FourWords(rk, userKey, 4, i, p);
      i := i + 1;
      if i == 10 {
        return;
      }
      p := p + 4;
    }
  }

  /** The 192-bit loop, which leaves a turn after its fourth word. */
  method Expand192(userKey: seq<Octet>, rk: array<Col>)
    requires |userKey| >= 24 && rk.Length == 60
    modifies rk
    ensures Filled(rk, userKey, 6, 52)
  {
    hide KeyWord;
    CopyKey(userKey, rk, 6);
    var i, p := 0, 0;
    while true
      invariant 0 <= i < 8 && p == 6 * i && Filled(rk, userKey, 6, p + 6)
      decreases 8 - i
    {
      FourWords(rk, userKey, 6, i, p);
      i := i + 1;
      if i == 8 {
        return;
      }
      PutPlain(rk, userKey, 6, p + 10);
      PutPlain(rk, userKey, 6, p + 11);
      p := p + 6;
    }
  }

  /** The 256-bit loop, with its second substitution. */
  method Expand256(userKey: seq<Octet>, rk: array<Col>)
    requires |userKey| >= 32 && rk.Length == 60
    modifies rk
    ensures Filled(rk, userKey, 8, 60)
  {
    hide KeyWord;
    CopyKey(userKey, rk, 8);
    var i, p := 0, 0;
    while true
      invariant 0 <= i < 7 && p == 8 * i && Filled(rk, userKey, 8, p + 8)
      decreases 7 - i
    {
      FourWords(rk, userKey, 8, i, p);
      i := i + 1;
      if i == 7 {
        return;
      }
      SecondHalf(rk, userKey, i - 1, p);
      p := p + 8;
    }
  }

  method SecondHalf(rk: array<Col>, ghost key: seq<Octet>, ghost i: nat, p: nat)
    requires |key| >= 32 && p == 8 * i && p + 16 <= rk.Length && Filled(rk, key, 8, p + 12)
    modifies rk
    ensures Filled(rk, key, 8, p + 16)
  {
    hide KeyWord, SubXor;
    Middle(key, i, p);
    Put(rk, key, 8, p + 12, SubXor(rk[p + 4], rk[p + 11]));
    PutPlain(rk, key, 8, p + 13);
    PutPlain(rk, key, 8, p + 14);
    PutPlain(rk, key, 8, p + 15);
  }

  /** `AES_set_encrypt_key` */
  method SetEncryptKey(userKey: array?<Octet>, bits: int, key: AesKey?) returns (ret: int)
    requires userKey != null && (bits == 128 || bits == 192 || bits == 256) ==> userKey.Length >= bits / 8
    requires key != null ==> key.rdKey.Length == 60 && (userKey == null || key.rdKey as object != userKey)
    modifies if key == null then {} else {key, key.rdKey}
    ensures ret == if userKey == null || key == null then -1
                   else if bits != 128 && bits != 192 && bits != 256 then -2 else 0
    ensures ret == 0 ==> key.rounds == bits / 32 + 6
    ensures ret == 0 ==> Filled(key.rdKey, userKey[..], bits / 32, 4 * (key.rounds + 1))
  {
    if userKey == null || key == null {
      return -1;
    }
    if bits != 128 && bits != 192 && bits != 256 {
      return -2;
    }
    ghost var k := userKey[..];
    key.rounds := if bits == 128 then 10 else if bits == 192 then 12 else 14;
    ret := 0;
    if bits == 128 {
      Expand128(userKey[..], key.rdKey);
    } else if bits == 192 {
      Expand192(userKey[..], key.rdKey);
    } else {
      Expand256(userKey[..], key.rdKey);
    }
    assert userKey[..] == k;
  }

  // ---- the decryption schedule ----

  /** The schedule of section 5.2 for a key of `nk` words. */
  ghost function Schedule(key: seq<Octet>, nk: nat): (w: seq<Col>)
    requires KeyWords(nk) && |key| >= 4 * nk
    ensures |w| == 4 * (nk + 7)
  {
    seq(4 * (nk + 7), i requires 0 <= i < 4 * (nk + 7) => KeyWord(key, nk, i))
  }

  /** `Td0[Te4[w >> 24] & 0xff] ^ Td1[...] ^ Td2[...] ^ Td3[...]` */
  function InvMixByTables(c: Col): Col
  {
    XorCol(XorCol(XorCol(Td0(Te4(c.b0).b3), Td1(Te4(c.b1).b3)), Td2(Te4(c.b2).b3)), Td3(Te4(c.b3).b3))
  }

  /** Looking bytes up in Te4 and then in the Td tables is InvMixColumns alone. */
  lemma InvMixByTablesIs(c: Col)
    ensures InvMixByTables(c) == InvMixCol(c)
  {
    hide S, Si, Xor, Xor4, M9, M11, M13, M14, InvMixCol;
    var zero := Col(0, 0, 0, 0);
    InvTableColumn(S(c.b0), S(c.b1), S(c.b2), S(c.b3), zero);
    UnsubCol(c);
    XorZero(InvMixByTables(c));
    XorZero(InvMixCol(c));
  }

  lemma XorZero(c: Col)
    ensures XorCol(c, Col(0, 0, 0, 0)) == c
  {
    hide Xor;
    XorCancel(c.b0, 0);
    XorCancel(c.b1, 0);
    XorCancel(c.b2, 0);
    XorCancel(c.b3, 0);
  }

  /** Swapping words `x` and `y`. */
  function Swapped(w: seq<Col>, x: nat, y: nat): (r: seq<Col>)
    requires x < |w| && y < |w|
    ensures |r| == |w|
  {
    w[x := w[y]][y := w[x]]
  }

  method SwapWords(rk: array<Col>, x: nat, y: nat)
    requires x < y < rk.Length
    modifies rk
    ensures rk[..] == Swapped(old(rk[..]), x, y)
  {
    var temp := rk[x];
    rk[x] := rk[y];
    rk[y] := temp;
  }

  /** Four word swaps exchange two round keys and touch no other. */
  lemma SwapsExchange(w: seq<Col>, i: nat, j: nat, r: seq<Col>)
    requires i < j && 4 * j + 3 < |w|
    requires r == Swapped(Swapped(Swapped(Swapped(w, 4 * i, 4 * j), 4 * i + 1, 4 * j + 1), 4 * i + 2, 4 * j + 2),
                          4 * i + 3, 4 * j + 3)
    ensures |r| == |w| && RoundKey(r, i) == RoundKey(w, j) && RoundKey(r, j) == RoundKey(w, i)
    ensures forall a: nat :: 4 * a + 3 < |w| && a != i && a != j ==> RoundKey(r, a) == RoundKey(w, a)
  {
  }

  /** One turn of the reversal loop swaps two round keys. */
  method SwapKeys(rk: array<Col>, i: nat, j: nat)
    requires i < j && 4 * j + 3 < rk.Length
    modifies rk
    ensures RoundKey(rk[..], i) == old(RoundKey(rk[..], j)) && RoundKey(rk[..], j) == old(RoundKey(rk[..], i))
    ensures forall a: nat :: 4 * a + 3 < rk.Length && a != i && a != j ==>
              RoundKey(rk[..], a) == old(RoundKey(rk[..], a))
  {
    hide Swapped, RoundKey;
    SwapWords(rk, 4 * i, 4 * j);
    SwapWords(rk, 4 * i + 1, 4 * j + 1);
    SwapWords(rk, 4 * i + 2, 4 * j + 2);
    SwapWords(rk, 4 * i + 3, 4 * j + 3);
    SwapsExchange(old(rk[..]), i, j, rk[..]);
  }

  method ReverseRoundKeys(rk: array<Col>, nr: nat)
    requires 4 * nr + 3 < rk.Length
    modifies rk
    ensures forall a: nat :: a <= nr ==> RoundKey(rk[..], a) == old(RoundKey(rk[..], nr - a))
  {
    hide RoundKey;
    ghost var w := rk[..];
    var i: nat, j: nat := 0, nr;
    while i < j
      invariant i + j == nr && i <= j + 1
      invariant forall a: nat :: a <= nr && (a < i || j < a) ==> RoundKey(rk[..], a) == RoundKey(w, nr - a)
      invariant forall a: nat :: i <= a <= j ==> RoundKey(rk[..], a) == RoundKey(w, a)
    {
      SwapKeys(rk, i, j);
      i, j := i + 1, j - 1;
    }
  }

  /** One round key through the tables. */
  method InvMixKey(rk: array<Col>, i: nat)
    requires 4 * i + 3 < rk.Length
    modifies rk
    ensures RoundKey(rk[..], i) == InvMixColumns(old(RoundKey(rk[..], i)))
    ensures forall a: nat :: 4 * a + 3 < rk.Length && a != i ==> RoundKey(rk[..], a) == old(RoundKey(rk[..], a))
  {
    hide InvMixByTables, InvMixCol;
    InvMixByTablesIs(rk[4 * i]);
    InvMixByTablesIs(rk[4 * i + 1]);
    InvMixByTablesIs(rk[4 * i + 2]);
    InvMixByTablesIs(rk[4 * i + 3]);
    rk[4 * i] := InvMixByTables(rk[4 * i]);
    rk[4 * i + 1] := InvMixByTables(rk[4 * i + 1]);
    rk[4 * i + 2] := InvMixByTables(rk[4 * i + 2]);
    rk[4 * i + 3] := InvMixByTables(rk[4 * i + 3]);
  }

  /** The two loops of `AES_set_decrypt_key` turn a schedule into that of the equivalent inverse cipher. */
  method InvertSchedule(rk: array<Col>, nr: nat)
    requires nr > 0 && 4 * nr + 3 < rk.Length
    modifies rk
    ensures IsInverseSchedule(old(rk[..]), rk[..], nr)
  {
    hide RoundKey, InvMixColumns;
    ghost var w := rk[..];
    ReverseRoundKeys(rk, nr);
    var i := 1;
    while i < nr
      invariant 1 <= i <= nr
      invariant forall a: nat :: 0 < a < i ==> RoundKey(rk[..], a) == InvMixColumns(RoundKey(w, nr - a))
      invariant forall a: nat :: a <= nr && (a == 0 || i <= a) ==> RoundKey(rk[..], a) == RoundKey(w, nr - a)
    {
      InvMixKey(rk, i);
      i := i + 1;
    }
  }

  lemma InverseOfPrefix(w: seq<Col>, v: seq<Col>, dw: seq<Col>, nr: nat)
    requires 4 * nr + 3 < |w| && 4 * nr + 3 < |v| && IsInverseSchedule(v, dw, nr)
    requires forall i: nat :: i < 4 * nr + 4 ==> v[i] == w[i]
    ensures IsInverseSchedule(w, dw, nr)
  {
    forall i: nat | i <= nr
      ensures RoundKey(w, i) == RoundKey(v, i)
    {
    }
  }

  /** `AES_set_decrypt_key` */
  method SetDecryptKey(userKey: array?<Octet>, bits: int, key: AesKey?) returns (ret: int)
    requires userKey != null && (bits == 128 || bits == 192 || bits == 256) ==> userKey.Length >= bits / 8
    requires key != null ==> key.rdKey.Length == 60 && (userKey == null || key.rdKey as object != userKey)
    modifies if key == null then {} else {key, key.rdKey}
    ensures ret == if userKey == null || key == null then -1
                   else if bits != 128 && bits != 192 && bits != 256 then -2 else 0
    ensures ret == 0 ==> key.rounds == bits / 32 + 6
    ensures ret == 0 ==> IsInverseSchedule(Schedule(userKey[..], bits / 32), key.rdKey[..], key.rounds)
  {
    ret := SetEncryptKey(userKey, bits, key);
    if ret < 0 {
      return;
    }
    ghost var k, v := userKey[..], key.rdKey[..];
    hide KeyWord, IsInverseSchedule;
    InvertSchedule(key.rdKey, key.rounds);
    InverseOfPrefix(Schedule(k, bits / 32), v, key.rdKey[..], key.rounds);
    assert userKey[..] == k;
  }
}
