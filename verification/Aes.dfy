/** aes.c: block encryption and decryption through the tables, in their looped form. */
module Aes {
  import opened AesField
  import opened AesSbox
  import opened AesCipher
  import opened AesKeySchedule

  // ---- blocks as bytes ----

  function LoadState(b: seq<Octet>): State
    requires |b| == 16
  {
    State(GetU32(b, 0), GetU32(b, 4), GetU32(b, 8), GetU32(b, 12))
  }

  /** `PUTU32` of the four columns */
  function StoreState(s: State): (b: seq<Octet>)
    ensures |b| == 16
  {
    [s.c0.b0, s.c0.b1, s.c0.b2, s.c0.b3, s.c1.b0, s.c1.b1, s.c1.b2, s.c1.b3,
     s.c2.b0, s.c2.b1, s.c2.b2, s.c2.b3, s.c3.b0, s.c3.b1, s.c3.b2, s.c3.b3]
  }

  function EncBlock(b: seq<Octet>, w: seq<Col>, nr: nat): (c: seq<Octet>)
    requires |b| == 16 && nr > 0 && 4 * nr + 3 < |w|
    ensures |c| == 16
  {
    StoreState(Cipher(LoadState(b), w, nr))
  }

  function DecBlock(c: seq<Octet>, dw: seq<Col>, nr: nat): (b: seq<Octet>)
    requires |c| == 16 && nr > 0 && 4 * nr + 3 < |dw|
    ensures |b| == 16
  {
    StoreState(EqInvCipher(LoadState(c), dw, nr))
  }

  lemma StoreLoad(b: seq<Octet>)
    requires |b| == 16
    ensures StoreState(LoadState(b)) == b
  {
  }

  lemma LoadStore(s: State)
    ensures LoadState(StoreState(s)) == s
  {
  }

  lemma BlockRoundTrip(b: seq<Octet>, w: seq<Col>, dw: seq<Col>, nr: nat)
    requires |b| == 16 && nr > 0 && 4 * nr + 3 < |w| && IsInverseSchedule(w, dw, nr)
    ensures DecBlock(EncBlock(b, w, nr), dw, nr) == b
  {
    hide StoreState, LoadState, Cipher, EqInvCipher;
    var s := LoadState(b);
    LoadStore(Cipher(s, w, nr));
    DecryptUndoesEncrypt(s, w, dw, nr);
    StoreLoad(b);
  }

  // ---- one table round ----

  function TableRound(s: State, k: State): State
  {
    State(XorCol5(Te0(s.c0.b0), Te1(s.c1.b1), Te2(s.c2.b2), Te3(s.c3.b3), k.c0),
          XorCol5(Te0(s.c1.b0), Te1(s.c2.b1), Te2(s.c3.b2), Te3(s.c0.b3), k.c1),
          XorCol5(Te0(s.c2.b0), Te1(s.c3.b1), Te2(s.c0.b2), Te3(s.c1.b3), k.c2),
          XorCol5(Te0(s.c3.b0), Te1(s.c0.b1), Te2(s.c1.b2), Te3(s.c2.b3), k.c3))
  }

  function InvTableRound(s: State, k: State): State
  {
    State(XorCol5(Td0(s.c0.b0), Td1(s.c3.b1), Td2(s.c2.b2), Td3(s.c1.b3), k.c0),
          XorCol5(Td0(s.c1.b0), Td1(s.c0.b1), Td2(s.c3.b2), Td3(s.c2.b3), k.c1),
          XorCol5(Td0(s.c2.b0), Td1(s.c1.b1), Td2(s.c0.b2), Td3(s.c3.b3), k.c2),
          XorCol5(Td0(s.c3.b0), Td1(s.c2.b1), Td2(s.c1.b2), Td3(s.c0.b3), k.c3))
  }

  /** The last round, through the masked table Te4. */
  function FinalTableRound(s: State, k: State): State
  {
    State(XorCol5(Top(Te4(s.c0.b0)), Second(Te4(s.c1.b1)), Third(Te4(s.c2.b2)), Low(Te4(s.c3.b3)), k.c0),
          XorCol5(Top(Te4(s.c1.b0)), Second(Te4(s.c2.b1)), Third(Te4(s.c3.b2)), Low(Te4(s.c0.b3)), k.c1),
          XorCol5(Top(Te4(s.c2.b0)), Second(Te4(s.c3.b1)), Third(Te4(s.c0.b2)), Low(Te4(s.c1.b3)), k.c2),
          XorCol5(Top(Te4(s.c3.b0)), Second(Te4(s.c0.b1)), Third(Te4(s.c1.b2)), Low(Te4(s.c2.b3)), k.c3))
  }

  function InvFinalTableRound(s: State, k: State): State
  {
    State(XorCol5(Top(Td4(s.c0.b0)), Second(Td4(s.c3.b1)), Third(Td4(s.c2.b2)), Low(Td4(s.c1.b3)), k.c0),
          XorCol5(Top(Td4(s.c1.b0)), Second(Td4(s.c0.b1)), Third(Td4(s.c3.b2)), Low(Td4(s.c2.b3)), k.c1),
          XorCol5(Top(Td4(s.c2.b0)), Second(Td4(s.c1.b1)), Third(Td4(s.c0.b2)), Low(Td4(s.c3.b3)), k.c2),
          XorCol5(Top(Td4(s.c3.b0)), Second(Td4(s.c2.b1)), Third(Td4(s.c1.b2)), Low(Td4(s.c0.b3)), k.c3))
  }

  /** The table round is SubBytes, ShiftRows, MixColumns and AddRoundKey. */
  lemma TableRoundIs(s: State, k: State)
    ensures TableRound(s, k) == Round(s, k)
  {
    hide S, XorCol, XorCol5, MixCol, Te0, Te1, Te2, Te3;
    TableColumn(s.c0.b0, s.c1.b1, s.c2.b2, s.c3.b3, k.c0);
    TableColumn(s.c1.b0, s.c2.b1, s.c3.b2, s.c0.b3, k.c1);
    TableColumn(s.c2.b0, s.c3.b1, s.c0.b2, s.c1.b3, k.c2);
    TableColumn(s.c3.b0, s.c0.b1, s.c1.b2, s.c2.b3, k.c3);
  }

  lemma InvTableRoundIs(s: State, k: State)
    ensures InvTableRound(s, k) == InvRound(s, k)
  {
    hide Si, XorCol, XorCol5, InvMixCol, Td0, Td1, Td2, Td3;
    InvTableColumn(s.c0.b0, s.c3.b1, s.c2.b2, s.c1.b3, k.c0);
    InvTableColumn(s.c1.b0, s.c0.b1, s.c3.b2, s.c2.b3, k.c1);
    InvTableColumn(s.c2.b0, s.c1.b1, s.c0.b2, s.c3.b3, k.c2);
    InvTableColumn(s.c3.b0, s.c2.b1, s.c1.b2, s.c0.b3, k.c3);
  }

  /** Four masked words put their bytes together. */
  lemma MaskedColumn(a: Col, b: Col, c: Col, d: Col, k: Col)
    ensures XorCol5(Top(a), Second(b), Third(c), Low(d), k) == XorCol(Col(a.b0, b.b1, c.b2, d.b3), k)
  {
    hide Xor;
    XorCancel(a.b0, 0);
    XorCancel(b.b1, 0);
    XorCancel(c.b2, 0);
    XorComm(0, b.b1);
    XorComm(0, c.b2);
    XorComm(0, d.b3);
    XorCancel(d.b3, 0);
    XorCancel(0, 0);
  }

  lemma FinalTableRoundIs(s: State, k: State)
    ensures FinalTableRound(s, k) == FinalRound(s, k)
  {
    hide S, XorCol, XorCol5, Top, Second, Third, Low;
    MaskedColumn(Te4(s.c0.b0), Te4(s.c1.b1), Te4(s.c2.b2), Te4(s.c3.b3), k.c0);
    MaskedColumn(Te4(s.c1.b0), Te4(s.c2.b1), Te4(s.c3.b2), Te4(s.c0.b3), k.c1);
    MaskedColumn(Te4(s.c2.b0), Te4(s.c3.b1), Te4(s.c0.b2), Te4(s.c1.b3), k.c2);
    MaskedColumn(Te4(s.c3.b0), Te4(s.c0.b1), Te4(s.c1.b2), Te4(s.c2.b3), k.c3);
  }

  lemma InvFinalTableRoundIs(s: State, k: State)
    ensures InvFinalTableRound(s, k) == InvFinalRound(s, k)
  {
    hide Si, XorCol, XorCol5, Top, Second, Third, Low;
    MaskedColumn(Td4(s.c0.b0), Td4(s.c3.b1), Td4(s.c2.b2), Td4(s.c1.b3), k.c0);
    MaskedColumn(Td4(s.c1.b0), Td4(s.c0.b1), Td4(s.c3.b2), Td4(s.c2.b3), k.c1);
    MaskedColumn(Td4(s.c2.b0), Td4(s.c1.b1), Td4(s.c0.b2), Td4(s.c3.b3), k.c2);
    MaskedColumn(Td4(s.c3.b0), Td4(s.c2.b1), Td4(s.c1.b2), Td4(s.c0.b3), k.c3);
  }

  // ---- AES_encrypt and AES_decrypt ----

  /** The round keys a key object holds. */
  ghost predicate Ready(key: AesKey)
    reads key
  {
    key.rounds >= 2 && key.rounds % 2 == 0 && 4 * key.rounds + 3 < key.rdKey.Length
  }

  /** Round key `rk[p..p + 4]` */
  function KeyAt(rk: array<Col>, p: nat): State
    requires p + 3 < rk.Length
    reads rk
  {
    State(rk[p], rk[p + 1], rk[p + 2], rk[p + 3])
  }

  /** `AES_encrypt`: two rounds a turn with the early exit make exactly rounds - 1 full rounds, then the final one. */
  method EncryptBlock(block: seq<Octet>, key: AesKey) returns (c: seq<Octet>)
    requires |block| == 16 && Ready(key)
    ensures c == EncBlock(block, key.rdKey[..], key.rounds)
  {
    hide TableRound, FinalTableRound, Round, FinalRound, AddRoundKey, StoreState, LoadState;
    ghost var w, nr := key.rdKey[..], key.rounds;
    var x := LoadState(block);
    var s := AddRoundKey(x, KeyAt(key.rdKey, 0));
    var r: nat, p: nat := key.rounds / 2, 0;
    var t := s;
    while true
      invariant 0 < r && p + 8 * r == 4 * nr && s == Rounds(x, w, nr - 2 * r)
      decreases r
    {
      TableRoundIs(s, KeyAt(key.rdKey, p + 4));
      t := TableRound(s, KeyAt(key.rdKey, p + 4));
      p := p + 8;
      r := r - 1;
      assert t == Rounds(x, w, nr - 2 * r - 1);
      if r == 0 {
        break;
      }
      TableRoundIs(t, KeyAt(key.rdKey, p));
      s := TableRound(t, KeyAt(key.rdKey, p));
    }
    FinalTableRoundIs(t, KeyAt(key.rdKey, p));
    c := StoreState(FinalTableRound(t, KeyAt(key.rdKey, p)));
  }

  /** `AES_decrypt` */
  method DecryptBlock(block: seq<Octet>, key: AesKey) returns (c: seq<Octet>)
    requires |block| == 16 && Ready(key)
    ensures c == DecBlock(block, key.rdKey[..], key.rounds)
  {
    hide InvTableRound, InvFinalTableRound, InvRound, InvFinalRound, AddRoundKey, StoreState, LoadState;
    ghost var w, nr := key.rdKey[..], key.rounds;
    var x := LoadState(block);
    var s := AddRoundKey(x, KeyAt(key.rdKey, 0));
    var r: nat, p: nat := key.rounds / 2, 0;
    var t := s;
    while true
      invariant 0 < r && p + 8 * r == 4 * nr && s == InvRounds(x, w, nr - 2 * r)
      decreases r
    {
      InvTableRoundIs(s, KeyAt(key.rdKey, p + 4));
      t := InvTableRound(s, KeyAt(key.rdKey, p + 4));
      p := p + 8;
      r := r - 1;
      assert t == InvRounds(x, w, nr - 2 * r - 1);
      if r == 0 {
        break;
      }
      InvTableRoundIs(t, KeyAt(key.rdKey, p));
      s := InvTableRound(t, KeyAt(key.rdKey, p));
    }
    InvFinalTableRoundIs(t, KeyAt(key.rdKey, p));
    c := StoreState(InvFinalTableRound(t, KeyAt(key.rdKey, p)));
  }

  /** Expanding a key and encrypting one block with it. */
  method EncryptWith(userKey: array<Octet>, bits: int, block: seq<Octet>) returns (cipher: seq<Octet>)
    requires (bits == 128 || bits == 192 || bits == 256) && userKey.Length >= bits / 8 && |block| == 16
    ensures cipher == EncBlock(block, Schedule(userKey[..], bits / 32), bits / 32 + 6)
  {
    hide KeyWord, EncBlock;
    var key := new AesKey();
    var ret := SetEncryptKey(userKey, bits, key);
    cipher := EncryptBlock(block, key);
    SamePrefix(block, key.rdKey[..], Schedule(userKey[..], bits / 32), key.rounds);
  }

  /** Expanding a key for decryption and decrypting one block with it: whatever block encrypts to it under that key. */
  method DecryptWith(userKey: array<Octet>, bits: int, block: seq<Octet>) returns (plain: seq<Octet>)
    requires (bits == 128 || bits == 192 || bits == 256) && userKey.Length >= bits / 8 && |block| == 16
    ensures forall b: seq<Octet> ::
              |b| == 16 && EncBlock(b, Schedule(userKey[..], bits / 32), bits / 32 + 6) == block ==> plain == b
  {
    hide KeyWord, EncBlock, DecBlock, IsInverseSchedule;
    var key := new AesKey();
    var ret := SetDecryptKey(userKey, bits, key);
    plain := DecryptBlock(block, key);
    ghost var w, nr := Schedule(userKey[..], bits / 32), bits / 32 + 6;
    forall b: seq<Octet> | |b| == 16 && EncBlock(b, w, nr) == block
      ensures plain == b
    {
      BlockRoundTrip(b, w, key.rdKey[..], nr);
    }
  }

  /** For all keys of 128, 192 and 256 bits and all blocks, decryption undoes encryption. */
  method KeyedRoundTrip(userKey: array<Octet>, bits: int, block: seq<Octet>)
    returns (cipher: seq<Octet>, plain: seq<Octet>)
    requires (bits == 128 || bits == 192 || bits == 256) && userKey.Length >= bits / 8 && |block| == 16
    ensures cipher == EncBlock(block, Schedule(userKey[..], bits / 32), bits / 32 + 6)
    ensures plain == block
  {
    hide KeyWord, EncBlock;
    cipher := EncryptWith(userKey, bits, block);
    plain := DecryptWith(userKey, bits, cipher);
  }

  /** Only the words of the schedule matter, not what follows them in the array. */
  lemma SamePrefix(b: seq<Octet>, v: seq<Col>, w: seq<Col>, nr: nat)
    requires |b| == 16 && nr > 0 && 4 * nr + 3 < |w| && 4 * nr + 3 < |v|
    requires forall i: nat :: i < 4 * nr + 4 ==> v[i] == w[i]
    ensures EncBlock(b, v, nr) == EncBlock(b, w, nr)
  {
    hide StoreState, LoadState, AddRoundKey, Round, FinalRound;
    SameRounds(LoadState(b), v, w, nr - 1);
  }

  lemma {:induction false} SameRounds(s: State, v: seq<Col>, w: seq<Col>, n: nat)
    requires 4 * n + 3 < |w| && 4 * n + 3 < |v|
    requires forall i: nat :: i < 4 * n + 4 ==> v[i] == w[i]
    ensures Rounds(s, v, n) == Rounds(s, w, n)
  {
    hide AddRoundKey, Round;
    if n > 0 {
      SameRounds(s, v, w, n - 1);
    }
  }
}
