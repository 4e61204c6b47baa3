/** FIPS 197, appendix C.1: the example vector for 128-bit keys. */
module AesVector {
  import opened AesField
  import opened AesSbox
  import opened AesCipher
  import opened AesKeySchedule
  import opened Aes

  const KEY: seq<Octet> := [0x00, 0x01, 0x02, 0x03, 0x04, 0x05, 0x06, 0x07,
                            0x08, 0x09, 0x0a, 0x0b, 0x0c, 0x0d, 0x0e, 0x0f]
  const PLAIN: seq<Octet> := [0x00, 0x11, 0x22, 0x33, 0x44, 0x55, 0x66, 0x77,
                              0x88, 0x99, 0xaa, 0xbb, 0xcc, 0xdd, 0xee, 0xff]
  const CIPHER: seq<Octet> := [0x69, 0xc4, 0xe0, 0xd8, 0x6a, 0x7b, 0x04, 0x30,
                               0xd8, 0xcd, 0xb7, 0x80, 0x70, 0xb4, 0xc5, 0x5a]

  // The round keys and the states between rounds, as the appendix lists them.
  const K0 := State(Col(0x00, 0x01, 0x02, 0x03), Col(0x04, 0x05, 0x06, 0x07),
                    Col(0x08, 0x09, 0x0a, 0x0b), Col(0x0c, 0x0d, 0x0e, 0x0f))
  const K1 := State(Col(0xd6, 0xaa, 0x74, 0xfd), Col(0xd2, 0xaf, 0x72, 0xfa),
                    Col(0xda, 0xa6, 0x78, 0xf1), Col(0xd6, 0xab, 0x76, 0xfe))
  const K2 := State(Col(0xb6, 0x92, 0xcf, 0x0b), Col(0x64, 0x3d, 0xbd, 0xf1),
                    Col(0xbe, 0x9b, 0xc5, 0x00), Col(0x68, 0x30, 0xb3, 0xfe))
  const K3 := State(Col(0xb6, 0xff, 0x74, 0x4e), Col(0xd2, 0xc2, 0xc9, 0xbf),
                    Col(0x6c, 0x59, 0x0c, 0xbf), Col(0x04, 0x69, 0xbf, 0x41))
  const K4 := State(Col(0x47, 0xf7, 0xf7, 0xbc), Col(0x95, 0x35, 0x3e, 0x03),
                    Col(0xf9, 0x6c, 0x32, 0xbc), Col(0xfd, 0x05, 0x8d, 0xfd))
  const K5 := State(Col(0x3c, 0xaa, 0xa3, 0xe8), Col(0xa9, 0x9f, 0x9d, 0xeb),
                    Col(0x50, 0xf3, 0xaf, 0x57), Col(0xad, 0xf6, 0x22, 0xaa))
  const K6 := State(Col(0x5e, 0x39, 0x0f, 0x7d), Col(0xf7, 0xa6, 0x92, 0x96),
                    Col(0xa7, 0x55, 0x3d, 0xc1), Col(0x0a, 0xa3, 0x1f, 0x6b))
  const K7 := State(Col(0x14, 0xf9, 0x70, 0x1a), Col(0xe3, 0x5f, 0xe2, 0x8c),
                    Col(0x44, 0x0a, 0xdf, 0x4d), Col(0x4e, 0xa9, 0xc0, 0x26))
  const K8 := State(Col(0x47, 0x43, 0x87, 0x35), Col(0xa4, 0x1c, 0x65, 0xb9),
                    Col(0xe0, 0x16, 0xba, 0xf4), Col(0xae, 0xbf, 0x7a, 0xd2))
  const K9 := State(Col(0x54, 0x99, 0x32, 0xd1), Col(0xf0, 0x85, 0x57, 0x68),
                    Col(0x10, 0x93, 0xed, 0x9c), Col(0xbe, 0x2c, 0x97, 0x4e))
  const K10 := State(Col(0x13, 0x11, 0x1d, 0x7f), Col(0xe3, 0x94, 0x4a, 0x17),
                     Col(0xf3, 0x07, 0xa7, 0x8b), Col(0x4d, 0x2b, 0x30, 0xc5))
  const A0 := State(Col(0x00, 0x10, 0x20, 0x30), Col(0x40, 0x50, 0x60, 0x70),
                    Col(0x80, 0x90, 0xa0, 0xb0), Col(0xc0, 0xd0, 0xe0, 0xf0))
  const A1 := State(Col(0x89, 0xd8, 0x10, 0xe8), Col(0x85, 0x5a, 0xce, 0x68),
                    Col(0x2d, 0x18, 0x43, 0xd8), Col(0xcb, 0x12, 0x8f, 0xe4))
  const A2 := State(Col(0x49, 0x15, 0x59, 0x8f), Col(0x55, 0xe5, 0xd7, 0xa0),
                    Col(0xda, 0xca, 0x94, 0xfa), Col(0x1f, 0x0a, 0x63, 0xf7))
  const A3 := State(Col(0xfa, 0x63, 0x6a, 0x28), Col(0x25, 0xb3, 0x39, 0xc9),
                    Col(0x40, 0x66, 0x8a, 0x31), Col(0x57, 0x24, 0x4d, 0x17))
  const A4 := State(Col(0x24, 0x72, 0x40, 0x23), Col(0x69, 0x66, 0xb3, 0xfa),
                    Col(0x6e, 0xd2, 0x75, 0x32), Col(0x88, 0x42, 0x5b, 0x6c))
  const A5 := State(Col(0xc8, 0x16, 0x77, 0xbc), Col(0x9b, 0x7a, 0xc9, 0x3b),
                    Col(0x25, 0x02, 0x79, 0x92), Col(0xb0, 0x26, 0x19, 0x96))
  const A6 := State(Col(0xc6, 0x2f, 0xe1, 0x09), Col(0xf7, 0x5e, 0xed, 0xc3),
                    Col(0xcc, 0x79, 0x39, 0x5d), Col(0x84, 0xf9, 0xcf, 0x5d))
  const A7 := State(Col(0xd1, 0x87, 0x6c, 0x0f), Col(0x79, 0xc4, 0x30, 0x0a),
                    Col(0xb4, 0x55, 0x94, 0xad), Col(0xd6, 0x6f, 0xf4, 0x1f))
  const A8 := State(Col(0xfd, 0xe3, 0xba, 0xd2), Col(0x05, 0xe5, 0xd0, 0xd7),
                    Col(0x35, 0x47, 0x96, 0x4e), Col(0xf1, 0xfe, 0x37, 0xf1))
  const A9 := State(Col(0xbd, 0x6e, 0x7c, 0x3d), Col(0xf2, 0xb5, 0x77, 0x9e),
                    Col(0x0b, 0x61, 0x21, 0x6e), Col(0x8b, 0x10, 0xb6, 0x89))

  ghost function Key(r: nat): State
  {
    if r == 0 then K0
    else if r == 1 then K1
    else if r == 2 then K2
    else if r == 3 then K3
    else if r == 4 then K4
    else if r == 5 then K5
    else if r == 6 then K6
    else if r == 7 then K7
    else if r == 8 then K8
    else if r == 9 then K9
    else K10
  }

  ghost function After(r: nat): State
  {
    if r == 0 then A0
    else if r == 1 then A1
    else if r == 2 then A2
    else if r == 3 then A3
    else if r == 4 then A4
    else if r == 5 then A5
    else if r == 6 then A6
    else if r == 7 then A7
    else if r == 8 then A8
    else A9
  }

  // ---- the schedule ----

  ghost function Words(key: seq<Octet>, r: nat): State
    requires |key| >= 16
  {
    State(KeyWord(key, 4, 4 * r), KeyWord(key, 4, 4 * r + 1), KeyWord(key, 4, 4 * r + 2), KeyWord(key, 4, 4 * r + 3))
  }

  /** The next round key of a 128-bit schedule. */
  ghost function Turned(k: State, rc: Octet): State
  {
    var c0 := XorCol(k.c0, XorCol(SubCol(RotWord(k.c3)), Col(rc, 0, 0, 0)));
    var c1 := XorCol(k.c1, c0);
    var c2 := XorCol(k.c2, c1);
    State(c0, c1, c2, XorCol(k.c3, c2))
  }

  lemma WordsTurn(key: seq<Octet>, r: nat)
    requires |key| >= 16 && r > 0
    ensures Words(key, r) == Turned(Words(key, r - 1), RconByte(r))
  {
    hide XorCol, SubCol, RotWord, KeyWord, RconByte;
    assert Mod(4 * r, 4) == 0 && Mod(4 * r + 1, 4) == 1 && Mod(4 * r + 2, 4) == 2 && Mod(4 * r + 3, 4) == 3;
    assert Div(4 * r, 4) == r;
    NextWord(key, 4, 4 * r);
    NextWord(key, 4, 4 * r + 1);
    NextWord(key, 4, 4 * r + 2);
    NextWord(key, 4, 4 * r + 3);
  }

  lemma Turn1()
    ensures Turned(K0, 0x01) == K1
  {
  }

  lemma Turn2()
    ensures Turned(K1, 0x02) == K2
  {
  }

  lemma Turn3()
    ensures Turned(K2, 0x04) == K3
  {
  }

  lemma Turn4()
    ensures Turned(K3, 0x08) == K4
  {
  }

  lemma Turn5()
    ensures Turned(K4, 0x10) == K5
  {
  }

  lemma Turn6()
    ensures Turned(K5, 0x20) == K6
  {
  }

  lemma Turn7()
    ensures Turned(K6, 0x40) == K7
  {
  }

  lemma Turn8()
    ensures Turned(K7, 0x80) == K8
  {
  }

  lemma Turn9()
    ensures Turned(K8, 0x1b) == K9
  {
  }

  lemma Turn10()
    ensures Turned(K9, 0x36) == K10
  {
  }

  /** The words of the schedule, round key by round key. */
  lemma {:induction false} WordsAre(key: seq<Octet>, r: nat)
    requires |key| >= 16 && key[..16] == KEY && r <= 10
    ensures Words(key, r) == Key(r)
  {
    hide Turned, KeyWord, RconByte;
    if r == 0 {
      FirstKey(key);
    } else {
      WordsAre(key, r - 1);
      WordsTurn(key, r);
      RconTable(r - 1);
      match r {
        case 1 => Turn1();
        case 2 => Turn2();
        case 3 => Turn3();
        case 4 => Turn4();
        case 5 => Turn5();
        case 6 => Turn6();
        case 7 => Turn7();
        case 8 => Turn8();
        case 9 => Turn9();
        case _ => Turn10();
      }
    }
  }

  lemma FirstKey(key: seq<Octet>)
    requires |key| >= 16 && key[..16] == KEY
    ensures Words(key, 0) == K0
  {
    hide KeyWord;
    FirstWords(key, 4, 0);
    FirstWords(key, 4, 1);
    FirstWords(key, 4, 2);
    FirstWords(key, 4, 3);
    assert forall i :: 0 <= i < 16 ==> key[i] == key[..16][i];
  }

  // ---- the rounds ----

  lemma Round0()
    ensures AddRoundKey(LoadState(PLAIN), K0) == A0
  {
  }

  lemma Round1()
    ensures Round(A0, K1) == A1
  {
  }

  lemma Round2()
    ensures Round(A1, K2) == A2
  {
  }

  lemma Round3()
    ensures Round(A2, K3) == A3
  {
  }

  lemma Round4()
    ensures Round(A3, K4) == A4
  {
  }

  lemma Round5()
    ensures Round(A4, K5) == A5
  {
  }

  lemma Round6()
    ensures Round(A5, K6) == A6
  {
  }

  lemma Round7()
    ensures Round(A6, K7) == A7
  {
  }

  lemma Round8()
    ensures Round(A7, K8) == A8
  {
  }

  lemma Round9()
    ensures Round(A8, K9) == A9
  {
  }

  lemma Round10()
    ensures StoreState(FinalRound(A9, K10)) == CIPHER
  {
  }

  lemma {:induction false} RoundsAre(w: seq<Col>, n: nat)
    requires n <= 9 && |w| >= 44 && forall r: nat :: r <= 10 ==> RoundKey(w, r) == Key(r)
    ensures Rounds(LoadState(PLAIN), w, n) == After(n)
  {
    hide LoadState, AddRoundKey, Round;
    if n == 0 {
      Round0();
    } else {
      RoundsAre(w, n - 1);
      match n {
        case 1 => Round1();
        case 2 => Round2();
        case 3 => Round3();
        case 4 => Round4();
        case 5 => Round5();
        case 6 => Round6();
        case 7 => Round7();
        case 8 => Round8();
        case _ => Round9();
      }
    }
  }

  /** Setting the key of the example and encrypting its block gives its ciphertext; decrypting that gives the block. */
  method ExampleVector(userKey: array<Octet>) returns (cipher: seq<Octet>, plain: seq<Octet>)
    requires userKey.Length >= 16 && userKey[..16] == KEY
    ensures cipher == CIPHER && plain == PLAIN
  {
    hide KeyWord, EncBlock, Key, After;
    cipher, plain := KeyedRoundTrip(userKey, 128, PLAIN);
    ExampleCipher(userKey[..]);
  }

  lemma ExampleCipher(key: seq<Octet>)
    requires |key| >= 16 && key[..16] == KEY
    ensures EncBlock(PLAIN, Schedule(key, 4), 10) == CIPHER
  {
    hide KeyWord, LoadState, StoreState, FinalRound, Rounds;
    var w := Schedule(key, 4);
    forall r: nat | r <= 10
      ensures RoundKey(w, r) == Key(r)
    {
      WordsAre(key, r);
    }
    RoundsAre(w, 9);
    Round10();
  }
}
