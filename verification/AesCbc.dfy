/** aes.c: `AES_cbc_encrypt` (NIST SP 800-38A, section 6.2). The mode is stated over any block cipher
    and its inverse; AES with its two schedules is one. */
module AesCbc {
  import opened AesField
  import opened AesCipher
  import opened AesKeySchedule
  import opened Aes

  type Block = b: seq<Octet> | |b| == 16 witness seq(16, _ => 0)

  function XorBlock(a: Block, b: Block): (c: Block)
  {
    seq(16, i requires 0 <= i < 16 => Xor(a[i], b[i]))
  }

  function Zeros(n: nat): (z: seq<Octet>)
    ensures |z| == n
  {
    seq(n, _ => 0)
  }

  /** `len` rounded up to whole blocks */
  function Padded(len: nat): (n: nat)
    ensures len <= n < len + 16
  {
    if len == 0 then 0 else if len < 16 then 16 else 16 + Padded(len - 16)
  }

  lemma PaddedStep(len: nat)
    requires len >= 16
    ensures Padded(len) == 16 + Padded(len - 16)
  {
  }

  lemma WholeBlocks(len: nat)
    requires Padded(len) == len > 0
    ensures len >= 16 && Padded(len - 16) == len - 16
  {
  }

  lemma PaddedEnd(len: nat)
    requires len < 16
    ensures Padded(len) == if len == 0 then 0 else 16
  {
  }

  /** Ciphertext of `p`; a partial last block is filled up with zero bytes. */
  function CbcEnc(p: seq<Octet>, iv: Block, enc: Block -> Block): (c: seq<Octet>)
    ensures |c| == Padded(|p|)
  {
    hide XorBlock;
    if |p| == 0 then []
    else if |p| < 16 then enc(XorBlock(p + Zeros(16 - |p|), iv))
    else
      var c := enc(XorBlock(p[..16], iv));
      c + CbcEnc(p[16..], c, enc)
  }

  /** The first `len` bytes of plaintext of `c`. */
  function CbcDec(c: seq<Octet>, len: nat, iv: Block, dec: Block -> Block): (p: seq<Octet>)
    requires |c| == Padded(len)
    ensures |p| == len
    decreases len
  {
    hide XorBlock;
    if len == 0 then []
    else if len < 16 then XorBlock(dec(c[..16]), iv)[..len]
    else XorBlock(dec(c[..16]), iv) + CbcDec(c[16..], len - 16, c[..16], dec)
  }

  /** The last block of `c`, or the IV when there is none: what the next call is to be given. */
  function Chain(c: seq<Octet>, iv: Block): (next: Block)
  {
    if |c| < 16 then iv else c[|c| - 16..]
  }

  lemma ChainStep(c: Block, rest: seq<Octet>, iv: Block)
    requires |rest| == 0 || |rest| >= 16
    ensures Chain(c + rest, iv) == Chain(rest, c)
  {
  }

  lemma XorTwice(a: Block, b: Block)
    ensures XorBlock(XorBlock(a, b), b) == a
  {
    hide Xor;
    forall i | 0 <= i < 16
      ensures XorBlock(XorBlock(a, b), b)[i] == a[i]
    {
      XorCancel(a[i], b[i]);
    }
  }

  ghost predicate Undoes(dec: Block -> Block, enc: Block -> Block)
  {
    forall b: Block :: dec(enc(b)) == b
  }

  /** For every length, a partial last block included: decrypting the padded ciphertext gives the plaintext back. */
  lemma {:induction false} CbcRoundTrip(p: seq<Octet>, iv: Block, enc: Block -> Block, dec: Block -> Block)
    requires Undoes(dec, enc)
    ensures CbcDec(CbcEnc(p, iv, enc), |p|, iv, dec) == p
    decreases |p|
  {
    hide XorBlock;
    if 0 < |p| < 16 {
      var q := p + Zeros(16 - |p|);
      XorTwice(q, iv);
      var c := enc(XorBlock(q, iv));
      assert c[..16] == c;
      assert q[..|p|] == p;
    } else if |p| >= 16 {
      var c := enc(XorBlock(p[..16], iv));
      XorTwice(p[..16], iv);
      CbcRoundTrip(p[16..], c, enc, dec);
      var all := CbcEnc(p, iv, enc);
      assert all[..16] == c && all[16..] == CbcEnc(p[16..], c, enc);
      assert p[..16] + p[16..] == p;
    }
  }

  /** Encrypting a message in two calls that thread the IV is encrypting it in one, when the first part is whole
      blocks. */
  lemma {:induction false} CbcEncSplit(a: seq<Octet>, b: seq<Octet>, iv: Block, enc: Block -> Block)
    requires Padded(|a|) == |a|
    ensures CbcEnc(a + b, iv, enc) == CbcEnc(a, iv, enc) + CbcEnc(b, Chain(CbcEnc(a, iv, enc), iv), enc)
    decreases |a|
  {
    hide XorBlock;
    if |a| == 0 {
      assert a + b == b;
    } else {
      hide Chain;
      var c := enc(XorBlock(a[..16], iv));
      assert (a + b)[..16] == a[..16] && (a + b)[16..] == a[16..] + b;
      CbcEncSplit(a[16..], b, c, enc);
      var rest := CbcEnc(a[16..], c, enc);
      ChainStep(c, rest, iv);
      assert c + (rest + CbcEnc(b, Chain(rest, c), enc)) == c + rest + CbcEnc(b, Chain(rest, c), enc);
    }
  }

  lemma EmptyDec(iv: Block, dec: Block -> Block)
    ensures CbcDec([], 0, iv, dec) == []
  {
  }

  lemma CbcDecStep(c: seq<Octet>, len: nat, iv: Block, dec: Block -> Block)
    requires |c| == Padded(len) && len >= 16
    ensures CbcDec(c, len, iv, dec) == XorBlock(dec(c[..16]), iv) + CbcDec(c[16..], len - 16, c[..16], dec)
  {
    hide XorBlock;
  }

  /** The same for decryption. */
  lemma {:induction false} CbcDecSplit(a: seq<Octet>, b: seq<Octet>, len: nat, iv: Block, dec: Block -> Block)
    requires Padded(|a|) == |a| && |b| == Padded(len)
    ensures Padded(|a| + len) == |a| + Padded(len)
    ensures CbcDec(a + b, |a| + len, iv, dec) == CbcDec(a, |a|, iv, dec) + CbcDec(b, len, Chain(a, iv), dec)
    decreases |a|
  {
    hide XorBlock, CbcDec, Padded, Chain;
    if |a| == 0 {
      EmptyDec(iv, dec);
      EmptyChain(iv);
      assert a == [] && a + b == b;
    } else {
      WholeBlocks(|a|);
      if |a| > 16 {
        WholeBlocks(|a| - 16);
      }
      assert (a + b)[..16] == a[..16] && (a + b)[16..] == a[16..] + b;
      CbcDecSplit(a[16..], b, len, a[..16], dec);
      PaddedStep(|a| + len);
      CbcDecStep(a, |a|, iv, dec);
      CbcDecStep(a + b, |a| + len, iv, dec);
      assert a[..16] + a[16..] == a;
      ChainStep(a[..16], a[16..], iv);
    }
  }

  // ---- the mode, byte by byte ----

  lemma XorBytes(a: Block, b: Block, x: Block)
    requires forall i :: 0 <= i < 16 ==> x[i] == a[i] ^ b[i]
    ensures x == XorBlock(a, b)
  {
    hide Xor;
    forall i | 0 <= i < 16
      ensures x[i] == XorBlock(a, b)[i]
    {
      XorIs(a[i], b[i]);
    }
  }

  lemma ZeroXor(b: Octet)
    ensures 0 ^ b == b
  {
  }

  lemma FirstBytes(p: seq<Octet>, iv: Block, enc: Block -> Block, x: Block)
    requires |p| > 0 && forall i :: 0 <= i < 16 ==> x[i] == if i < |p| then p[i] ^ iv[i] else iv[i]
    ensures |CbcEnc(p, iv, enc)| >= 16 && CbcEnc(p, iv, enc)[..16] == enc(x)
    ensures |p| >= 16 ==> CbcEnc(p, iv, enc)[16..] == CbcEnc(p[16..], enc(x), enc)
  {
    hide XorBlock;
    if |p| < 16 {
      var q := p + Zeros(16 - |p|);
      forall i | 0 <= i < 16
        ensures x[i] == q[i] ^ iv[i]
      {
        ZeroXor(iv[i]);
      }
      XorBytes(q, iv, x);
      assert enc(x)[..16] == enc(x);
    } else {
      XorBytes(p[..16], iv, x);
    }
  }

  /** Block `k` of the ciphertext is the encryption of the bytes of block `k` of the message, each added to the byte 16
      places before it in the ciphertext, or in the IV; behind the end of the message it is that byte alone. */
  lemma {:induction false} CbcEncBytes(p: seq<Octet>, iv: Block, enc: Block -> Block, k: nat, x: Block)
    requires 16 * k < |p| && 16 * k + 16 <= |CbcEnc(p, iv, enc)|
    requires var c := CbcEnc(p, iv, enc);
      forall i :: 0 <= i < 16 ==>
        var before := if k == 0 then iv[i] else c[16 * k - 16 + i];
        x[i] == if 16 * k + i < |p| then p[16 * k + i] ^ before else before
    ensures CbcEnc(p, iv, enc)[16 * k..16 * k + 16] == enc(x)
    decreases k
  {
    hide CbcEnc;
    var c := CbcEnc(p, iv, enc);
    if k == 0 {
      FirstBytes(p, iv, enc, x);
    } else {
      var y: Block := seq(16, i requires 0 <= i < 16 => p[i] ^ iv[i]);
      FirstBytes(p, iv, enc, y);
      var rest := CbcEnc(p[16..], enc(y), enc);
      assert forall i :: 0 <= i < |rest| ==> rest[i] == c[16 + i];
      assert forall i :: 0 <= i < 16 ==> enc(y)[i] == c[i];
      CbcEncBytes(p[16..], enc(y), enc, k - 1, x);
      assert c[16 * k..16 * k + 16] == rest[16 * k - 16..16 * k];
    }
  }

  /** Byte `j` of the plaintext is that byte of the decryption of its block of ciphertext, added to the byte 16 places
      before it in the ciphertext, or in the IV. */
  lemma {:induction false} CbcDecBytes(c: seq<Octet>, len: nat, iv: Block, dec: Block -> Block, k: nat, i: nat)
    requires |c| == Padded(len) && i < 16 && 16 * k + i < len && 16 * k + 16 <= |c|
    ensures CbcDec(c, len, iv, dec)[16 * k + i]
         == dec(c[16 * k..16 * k + 16])[i] ^ if k == 0 then iv[i] else c[16 * k - 16 + i]
    decreases k
  {
    hide XorBlock;
    if k == 0 {
      XorByte(dec(c[..16]), iv, i);
    } else {
      PaddedStep(len);
      CbcDecBytes(c[16..], len - 16, c[..16], dec, k - 1, i);
      assert c[16..][16 * k - 16..16 * k] == c[16 * k..16 * k + 16];
    }
  }

  lemma XorByte(a: Block, b: Block, i: nat)
    requires i < 16
    ensures XorBlock(a, b)[i] == a[i] ^ b[i]
  {
  }

  // ---- AES as the block cipher ----

  function AesEnc(w: seq<Col>, nr: nat): (f: Block -> Block)
    requires nr > 0 && 4 * nr + 3 < |w|
    ensures forall b: Block :: f(b) == EncBlock(b, w, nr)
  {
    hide EncBlock;
    (b: Block) => EncBlock(b, w, nr)
  }

  function AesDec(dw: seq<Col>, nr: nat): (f: Block -> Block)
    requires nr > 0 && 4 * nr + 3 < |dw|
    ensures forall b: Block :: f(b) == DecBlock(b, dw, nr)
  {
    hide DecBlock;
    (b: Block) => DecBlock(b, dw, nr)
  }

  lemma AesUndoes(w: seq<Col>, dw: seq<Col>, nr: nat)
    requires nr > 0 && 4 * nr + 3 < |w| && IsInverseSchedule(w, dw, nr)
    ensures Undoes(AesDec(dw, nr), AesEnc(w, nr))
  {
    hide EncBlock, DecBlock;
    forall b: Block
      ensures AesDec(dw, nr)(AesEnc(w, nr)(b)) == b
    {
      BlockRoundTrip(b, w, dw, nr);
    }
  }

  // ---- the loops ----

  /** `memcpy(dst + at, src, |src|)` */
  method Copy(dst: array<Octet>, at: nat, src: seq<Octet>)
    requires at + |src| <= dst.Length
    modifies dst
    ensures dst[..] == old(dst[..at]) + src + old(dst[at + |src|..])
  {
    for n := 0 to |src|
      invariant forall j :: 0 <= j < dst.Length ==> dst[j] == if at <= j < at + n then src[j - at] else old(dst[j])
    {
      dst[at + n] := src[n];
    }
  }

  /** The two xor loops of the encrypting half: `n` bytes of input, then the rest of the IV as it is. */
  method XorIn(inp: array<Octet>, pos: nat, n: nat, ivec: array<Octet>) returns (tmp: Block)
    requires n <= 16 && pos + n <= inp.Length && ivec.Length == 16
    ensures tmp == XorBlock(inp[pos..pos + n] + Zeros(16 - n), ivec[..])
  {
    hide Xor;
    var t: seq<Octet> := [];
    for k := 0 to n
      invariant |t| == k && forall j :: 0 <= j < k ==> t[j] == Xor(inp[pos + j], ivec[j])
    {
      t := t + [Xor(inp[pos + k], ivec[k])];
    }
    for k := n to 16
      invariant |t| == k && forall j :: 0 <= j < n ==> t[j] == Xor(inp[pos + j], ivec[j])
      invariant forall j :: n <= j < k ==> t[j] == ivec[j]
    {
      t := t + [ivec[k]];
    }
    forall j | n <= j < 16
      ensures Xor(0, ivec[j]) == ivec[j]
    {
      XorComm(0, ivec[j]);
      XorCancel(ivec[j], 0);
    }
    tmp := t;
  }

  /** One block of the encrypting half, whole (`n` is 16) or partial. */
  method EncryptOne(inp: array<Octet>, out: array<Octet>, pos: nat, n: nat, key: AesKey, ivec: array<Octet>)
    returns (ghost block: Block)
    requires Ready(key) && ivec.Length == 16 && n <= 16 && pos + n <= inp.Length && pos + 16 <= out.Length
    requires ivec != inp && ivec != out && key.rdKey as object != out && key.rdKey as object != ivec
    modifies out, ivec
    ensures block == old(AesEnc(key.rdKey[..], key.rounds))(XorBlock(old(inp[pos..pos + n]) + Zeros(16 - n),
                                                                     old(ivec[..])))
    ensures out[..] == old(out[..pos]) + block + old(out[pos + 16..]) && ivec[..] == block
  {
    hide EncBlock, XorBlock;
    var tmp := XorIn(inp, pos, n, ivec);
    var c := EncryptBlock(tmp, key);
    block := c;
    Copy(out, pos, c);
    Copy(ivec, 0, c);
  }

  lemma CbcEncStep(p: seq<Octet>, iv: Block, enc: Block -> Block)
    requires |p| >= 16
    ensures var c := enc(XorBlock(p[..16] + Zeros(0), iv));
            CbcEnc(p, iv, enc) == c + CbcEnc(p[16..], c, enc)
  {
    hide XorBlock;
    assert p[..16] + Zeros(0) == p[..16];
  }

  /** Sequence bookkeeping of one turn. */
  lemma Advance(c: seq<Octet>, o: seq<Octet>, p: seq<Octet>, p1: seq<Octet>, pos: nat, length: nat, block: Block,
                rest: seq<Octet>)
    requires |c| == pos && pos + 16 <= |o| && pos + 16 <= length <= |p| == |p1| && p1[pos..] == p[pos..]
    ensures c + (block + rest) == c + block + rest
    ensures (c + o[pos..])[..pos] + block + (c + o[pos..])[pos + 16..] == c + block + o[pos + 16..]
    ensures p[pos..length][16..] == p[pos + 16..length] && p1[pos + 16..] == p[pos + 16..]
  {
    assert p1[pos..][16..] == p[pos..][16..];
  }

  /** A block written at `pos` leaves everything behind it alone. */
  lemma AfterWrite(a: seq<Octet>, b: seq<Octet>, pos: nat, block: Block)
    requires pos + 16 <= |a| && b == a[..pos] + block + a[pos + 16..]
    ensures |b| == |a| && b[pos + 16..] == a[pos + 16..]
  {
  }

  lemma EmptyChain(iv: Block)
    ensures Chain([], iv) == iv
  {
  }

  lemma LastBlock(c: seq<Octet>, block: Block, iv: Block)
    ensures Chain(c + block, iv) == block
  {
  }

  /** The block loop of the encrypting half; `c` is the ciphertext it has written. */
  method EncryptBlocks(inp: array<Octet>, out: array<Octet>, length: nat, key: AesKey, ivec: array<Octet>)
    returns (pos: nat, ghost c: seq<Octet>)
    requires Ready(key) && ivec.Length == 16 && length <= inp.Length && Padded(length) <= out.Length
    requires ivec != inp && ivec != out && key.rdKey as object != out && key.rdKey as object != ivec
    modifies out, ivec
    ensures pos <= length < pos + 16 && |c| == pos && Padded(length) == pos + Padded(length - pos)
    ensures inp[pos..] == old(inp[pos..]) && out[..] == c + old(out[pos..]) && ivec[..] == Chain(c, old(ivec[..]))
    ensures var f := old(AesEnc(key.rdKey[..], key.rounds));
            CbcEnc(old(inp[..length]), old(ivec[..]), f) == c + CbcEnc(old(inp[pos..length]), ivec[..], f)
  {
    hide EncBlock, XorBlock, CbcEnc, AesEnc, Chain;
    ghost var p0, o0, iv0, w := inp[..], out[..], ivec[..], key.rdKey[..];
    ghost var f := AesEnc(w, key.rounds);
    var len: nat := length;
    EmptyChain(iv0);
    pos, c := 0, [];
    while len >= 16
      invariant pos + len == length && |c| == pos && Padded(length) == pos + Padded(len)
      invariant key.rdKey[..] == w && inp[pos..] == p0[pos..] && out[..] == c + o0[pos..]
      invariant ivec[..] == Chain(c, iv0)
      invariant CbcEnc(p0[..length], iv0, f) == c + CbcEnc(p0[pos..length], ivec[..], f)
    {
      CbcEncStep(p0[pos..length], ivec[..], f);
      SameSlice(inp[..], p0, pos, 16, length);
      ghost var p1, o1 := inp[..], out[..];
      ghost var block := EncryptOne(inp, out, pos, 16, key, ivec);
      Advance(c, o0, p0, p1, pos, length, block, CbcEnc(p0[pos..length][16..], block, f));
      AfterWrite(o1, out[..], pos, block);
      LastBlock(c, block, iv0);
      c := c + block;
      len := len - 16;
      pos := pos + 16;
    }
    assert old(inp[..length]) == p0[..length] && old(inp[pos..length]) == p0[pos..length];
  }

  /** `AES_cbc_encrypt` with enc set; `inp` and `out` may be the same array. */
  method CbcEncrypt(inp: array<Octet>, out: array<Octet>, length: nat, key: AesKey, ivec: array<Octet>)
    requires Ready(key) && ivec.Length == 16 && length <= inp.Length && Padded(length) <= out.Length
    requires ivec != inp && ivec != out && key.rdKey as object != out && key.rdKey as object != ivec
    modifies out, ivec
    ensures var c := CbcEnc(old(inp[..length]), old(ivec[..]), old(AesEnc(key.rdKey[..], key.rounds)));
            |c| <= out.Length && out[..] == c + old(out[|c|..]) && ivec[..] == Chain(c, old(ivec[..]))
  {
    hide EncBlock, XorBlock, CbcEnc, AesEnc;
    ghost var p0, o0, iv0, w := inp[..], out[..], ivec[..], key.rdKey[..];
    ghost var f := AesEnc(w, key.rounds);
    var pos, c := EncryptBlocks(inp, out, length, key, ivec);
    assert key.rdKey[..] == w;
    var len := length - pos;
    LastPart(p0[pos..length], ivec[..], f);
    if len > 0 {
      SameSlice(inp[..], p0, pos, len, length);
      assert p0[pos..length][..len] == p0[pos..length];
      ghost var block := EncryptOne(inp, out, pos, len, key, ivec);
      c := c + block;
      assert out[..] == c + o0[pos + 16..];
    }
    assert CbcEnc(p0[..length], iv0, f) == c;
    assert out[..] == c + o0[|c|..];
  }

  lemma SameSlice(s: seq<Octet>, t: seq<Octet>, pos: nat, n: nat, length: nat)
    requires |s| == |t| && pos + n <= length <= |s| && s[pos..] == t[pos..]
    ensures s[pos..pos + n] == t[pos..length][..n]
  {
    assert s[pos..][..n] == s[pos..pos + n];
    assert t[pos..][..n] == t[pos..length][..n];
  }

  lemma LastPart(p: seq<Octet>, iv: Block, enc: Block -> Block)
    requires |p| < 16
    ensures CbcEnc(p, iv, enc) == if |p| == 0 then [] else enc(XorBlock(p + Zeros(16 - |p|), iv))
  {
    hide XorBlock;
  }

  // ---- the decrypting half ----

  /** `out[n] ^= ivec[n]` over one block */
  method XorOut(out: array<Octet>, pos: nat, ivec: array<Octet>)
    requires pos + 16 <= out.Length && ivec.Length == 16 && ivec != out
    modifies out
    ensures out[..] == old(out[..pos]) + XorBlock(old(out[pos..pos + 16]), ivec[..]) + old(out[pos + 16..])
  {
    hide Xor;
    ghost var iv, o := ivec[..], out[..];
    for n := 0 to 16
      invariant ivec[..] == iv
      invariant forall j :: 0 <= j < out.Length ==> out[j] == if pos <= j < pos + n then Xor(o[j], iv[j - pos])
                else o[j]
    {
      out[pos + n] := Xor(out[pos + n], ivec[n]);
    }
  }

  /** One whole block of the decrypting half; the ciphertext is saved before `out`, perhaps the same memory, is
      written. */
  method DecryptOne(inp: array<Octet>, out: array<Octet>, pos: nat, key: AesKey, ivec: array<Octet>)
    requires Ready(key) && ivec.Length == 16 && pos + 16 <= inp.Length && pos + 16 <= out.Length
    requires ivec != inp && ivec != out && key.rdKey as object != out && key.rdKey as object != ivec
    modifies out, ivec
    ensures var block := XorBlock(old(AesDec(key.rdKey[..], key.rounds))(old(inp[pos..pos + 16])), old(ivec[..]));
            out[..] == old(out[..pos]) + block + old(out[pos + 16..])
    ensures ivec[..] == old(inp[pos..pos + 16])
  {
    hide DecBlock, XorBlock;
    ghost var o := out[..];
    var tmp := inp[pos..pos + 16];
    var d := DecryptBlock(tmp, key);
    Copy(out, pos, d);
    ghost var o1 := out[..];
    assert o1[..pos] == o[..pos] && o1[pos..pos + 16] == d && o1[pos + 16..] == o[pos + 16..];
    XorOut(out, pos, ivec);
    Copy(ivec, 0, tmp);
  }

  /** The decrypting loop at `pos`, `c` being the ciphertext from the start and `o` what was in the output: `d` has been
      written, and what is left of the input decrypts to the rest. */
  ghost predicate Decrypting(c: seq<Octet>, o: seq<Octet>, iv0: Block, g: Block -> Block, length: nat, pos: nat,
                             d: seq<Octet>, inp: seq<Octet>, out: seq<Octet>, iv: Block)
  {
    && pos <= length && Padded(length) == pos + Padded(length - pos) <= |c| == |inp| && length <= |o| && |d| == pos
    && inp[pos..] == c[pos..] && out == d + o[pos..] && iv == Chain(c[..pos], iv0)
    && CbcDec(c[..Padded(length)], length, iv0, g) == d + CbcDec(c[pos..Padded(length)], length - pos, iv, g)
  }

  lemma BeginsDecrypting(c: seq<Octet>, o: seq<Octet>, iv: Block, g: Block -> Block, length: nat)
    requires Padded(length) <= |c| && length <= |o|
    ensures Decrypting(c, o, iv, g, length, 0, [], c, o, iv)
  {
    hide CbcDec, Padded, Chain;
    EmptyChain(iv);
    assert c[..0] == [] && c[0..Padded(length)] == c[..Padded(length)];
  }

  lemma DecryptingNext(c: seq<Octet>, o: seq<Octet>, iv0: Block, g: Block -> Block, length: nat, pos: nat,
                       d: seq<Octet>, inp: seq<Octet>, out: seq<Octet>, iv: Block, inp': seq<Octet>, out': seq<Octet>,
                         block: Block)
    requires Decrypting(c, o, iv0, g, length, pos, d, inp, out, iv) && pos + 16 <= length
    requires |out| == |o| && block == XorBlock(g(inp[pos..pos + 16]), iv)
    requires out' == out[..pos] + block + out[pos + 16..] && |inp'| == |inp| && inp'[pos + 16..] == inp[pos + 16..]
    ensures Decrypting(c, o, iv0, g, length, pos + 16, d + block, inp', out', inp[pos..pos + 16])
  {
    hide CbcDec, Padded, Chain, XorBlock;
    var r, len := Padded(length), length - pos;
    PaddedStep(len);
    SameSlice(inp, c, pos, 16, r);
    CbcDecStep(c[pos..r], len, iv, g);
    Advance(d, o, c, inp, pos, r, block, CbcDec(c[pos..r][16..], len - 16, c[pos..r][..16], g));
    LastBlock(c[..pos], c[pos..r][..16], iv0);
    assert c[..pos] + c[pos..r][..16] == c[..pos + 16];
  }

  /** The block loop of the decrypting half; `d` is the plaintext it has written, `r` the padded length. */
  method DecryptBlocks(inp: array<Octet>, out: array<Octet>, length: nat, ghost r: nat, key: AesKey, ivec: array<Octet>)
    returns (pos: nat, ghost d: seq<Octet>)
    requires Ready(key) && ivec.Length == 16 && r == Padded(length) && r <= inp.Length && length <= out.Length
    requires ivec != inp && ivec != out && key.rdKey as object != out && key.rdKey as object != ivec
    modifies out, ivec
    ensures pos <= length < pos + 16 && |d| == pos && Padded(length) == pos + Padded(length - pos)
    ensures inp[pos..] == old(inp[pos..]) && out[..] == d + old(out[pos..])
            && ivec[..] == Chain(old(inp[..pos]), old(ivec[..]))
    ensures var g := old(AesDec(key.rdKey[..], key.rounds));
            CbcDec(old(inp[..r]), length, old(ivec[..]), g) == d + CbcDec(old(inp[pos..r]), length - pos, ivec[..], g)
  {
    hide DecBlock, XorBlock, CbcDec, AesDec, Chain, Padded, Decrypting;
    ghost var c0, o0, iv0, w := inp[..], out[..], ivec[..], key.rdKey[..];
    ghost var g := AesDec(w, key.rounds);
    var len: nat := length;
    pos, d := 0, [];
    BeginsDecrypting(c0, o0, iv0, g, length);
    while len >= 16
      invariant pos + len == length && key.rdKey[..] == w
      invariant Decrypting(c0, o0, iv0, g, length, pos, d, inp[..], out[..], ivec[..])
    {
      ghost var p1, o1, iv := inp[..], out[..], ivec[..];
      ghost var block := XorBlock(g(p1[pos..pos + 16]), iv);
      DecryptOne(inp, out, pos, key, ivec);
      AfterWrite(o1, out[..], pos, block);
      DecryptingNext(c0, o0, iv0, g, length, pos, d, p1, o1, iv, inp[..], out[..], block);
      d := d + block;
      len := len - 16;
      pos := pos + 16;
    }
    EndsDecrypting(c0, o0, iv0, g, length, pos, d, inp[..], out[..], ivec[..]);
    assert old(inp[..r]) == c0[..r] && old(inp[pos..r]) == c0[pos..r] && old(inp[..pos]) == c0[..pos];
  }

  lemma EndsDecrypting(c: seq<Octet>, o: seq<Octet>, iv0: Block, g: Block -> Block, length: nat, pos: nat,
                       d: seq<Octet>, inp: seq<Octet>, out: seq<Octet>, iv: Block)
    requires Decrypting(c, o, iv0, g, length, pos, d, inp, out, iv)
    ensures pos <= length && |d| == pos && Padded(length) == pos + Padded(length - pos) <= |c| == |inp| && length <= |o|
    ensures inp[pos..] == c[pos..] && out == d + o[pos..] && iv == Chain(c[..pos], iv0)
    ensures CbcDec(c[..Padded(length)], length, iv0, g) == d + CbcDec(c[pos..Padded(length)], length - pos, iv, g)
  {
  }

  lemma LastPartDec(c: seq<Octet>, len: nat, iv: Block, dec: Block -> Block)
    requires |c| == Padded(len) && len < 16
    ensures CbcDec(c, len, iv, dec) == if len == 0 then [] else XorBlock(dec(c[..16]), iv)[..len]
  {
    hide XorBlock;
  }

  /** The partial last block of the decrypting half: `n` bytes are stored, and the IV takes the decrypted block. */
  method DecryptTail(inp: array<Octet>, out: array<Octet>, pos: nat, n: nat, key: AesKey, ivec: array<Octet>)
    returns (x: seq<Octet>)
    requires Ready(key) && ivec.Length == 16 && 0 < n < 16 && pos + 16 <= inp.Length && pos + n <= out.Length
    requires ivec != inp && ivec != out && key.rdKey as object != out && key.rdKey as object != ivec
    modifies out, ivec
    ensures x == XorBlock(old(AesDec(key.rdKey[..], key.rounds))(old(inp[pos..pos + 16])), old(ivec[..]))[..n]
    ensures out[..] == old(out[..pos]) + x + old(out[pos + n..])
    ensures ivec[..] == old(AesDec(key.rdKey[..], key.rounds))(old(inp[pos..pos + 16]))
  {
    hide DecBlock, XorBlock;
    var tmp := DecryptBlock(inp[pos..pos + 16], key);
    x := XorBlock(tmp, ivec[..])[..n];
    Copy(out, pos, x);
    Copy(ivec, 0, tmp);
  }

  /** `AES_cbc_encrypt` with enc clear; `inp` and `out` may be the same array. After a partial last block the IV holds
      that block's decryption, not its ciphertext: calls that are to be chained must be of whole blocks. */
  method CbcDecrypt(inp: array<Octet>, out: array<Octet>, length: nat, key: AesKey, ivec: array<Octet>)
    requires Ready(key) && ivec.Length == 16 && Padded(length) <= inp.Length && length <= out.Length
    requires ivec != inp && ivec != out && key.rdKey as object != out && key.rdKey as object != ivec
    modifies out, ivec
    ensures var r, g := Padded(length), old(AesDec(key.rdKey[..], key.rounds));
            && out[..] == CbcDec(old(inp[..r]), length, old(ivec[..]), g) + old(out[length..])
            && ivec[..] == if r == length then Chain(old(inp[..length]), old(ivec[..])) else g(old(inp[r - 16..r]))
  {
    hide DecBlock, XorBlock, CbcDec, AesDec, Chain, Padded;
    ghost var r := Padded(length);
    ghost var c0, o0, iv0, w := inp[..], out[..], ivec[..], key.rdKey[..];
    ghost var g := AesDec(w, key.rounds);
    assert g == old(AesDec(key.rdKey[..], key.rounds)) && old(inp[..r]) == c0[..r] && old(ivec[..]) == iv0;
    var pos, d := DecryptBlocks(inp, out, length, r, key, ivec);
    assert key.rdKey[..] == w;
    var len := length - pos;
    PaddedEnd(len);
    LastPartDec(c0[pos..r], len, ivec[..], g);
    if len > 0 {
      SameSlice(inp[..], c0, pos, 16, r);
      assert c0[pos..r][..16] == c0[r - 16..r];
      var x := DecryptTail(inp, out, pos, len, key, ivec);
      TailWritten(d, o0, pos, x);
    } else {
      assert d + [] == d;
    }
  }

  lemma TailWritten(d: seq<Octet>, o: seq<Octet>, pos: nat, x: seq<Octet>)
    requires |d| == pos && pos + |x| <= |o|
    ensures (d + o[pos..])[..pos] + x + (d + o[pos..])[pos + |x|..] == d + x + o[pos + |x|..]
  {
  }

  /** Both keys expanded from one user key: what one schedule encrypts the other decrypts. */
  method ExpandBoth(userKey: array<Octet>, bits: int) returns (enc: AesKey, dec: AesKey)
    requires (bits == 128 || bits == 192 || bits == 256) && userKey.Length >= bits / 8
    ensures fresh(enc) && fresh(enc.rdKey) && fresh(dec) && fresh(dec.rdKey) && Ready(enc) && Ready(dec)
    ensures enc.rounds == dec.rounds == bits / 32 + 6 && Filled(enc.rdKey, userKey[..], bits / 32, 4 * (enc.rounds + 1))
    ensures Undoes(AesDec(dec.rdKey[..], dec.rounds), AesEnc(enc.rdKey[..], enc.rounds))
  {
    hide KeyWord, IsInverseSchedule, AesEnc, AesDec, Undoes;
    enc := new AesKey();
    dec := new AesKey();
    var ret := SetEncryptKey(userKey, bits, enc);
    ret := SetDecryptKey(userKey, bits, dec);
    InverseOfPrefix(enc.rdKey[..], Schedule(userKey[..], bits / 32), dec.rdKey[..], enc.rounds);
    AesUndoes(enc.rdKey[..], dec.rdKey[..], enc.rounds);
  }

  /** For every key, IV and length: the bytes encrypted in place and decrypted in place with the original IV are
      back. */
  method CbcThereAndBack(userKey: array<Octet>, bits: int, data: array<Octet>, length: nat, iv: Block)
    requires (bits == 128 || bits == 192 || bits == 256) && userKey.Length >= bits / 8 && userKey != data
    requires Padded(length) <= data.Length
    modifies data
    ensures data[..length] == old(data[..length]) && data[Padded(length)..] == old(data[Padded(length)..])
  {
    hide AesEnc, AesDec, CbcEnc, CbcDec, Undoes, Chain, Padded, Filled;
    var enc, dec := ExpandBoth(userKey, bits);
    ghost var f, g := AesEnc(enc.rdKey[..], enc.rounds), AesDec(dec.rdKey[..], dec.rounds);
    var ivec := new Octet[16](i requires 0 <= i < 16 => iv[i]);
    assert ivec[..] == iv;
    ghost var p, r := data[..length], Padded(length);
    CbcEncrypt(data, data, length, enc, ivec);
    assert data[..r] == CbcEnc(p, iv, f);
    ivec := new Octet[16](i requires 0 <= i < 16 => iv[i]);
    assert ivec[..] == iv;
    CbcDecrypt(data, data, length, dec, ivec);
    CbcRoundTrip(p, iv, f, g);
  }
}
