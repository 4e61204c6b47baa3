/** arch_init.c: the wire format of RAM pages, and the receiver that decodes it. */
module RamWire {
  import opened Basics

  /** TARGET_PAGE_SIZE for 12-bit pages. */
  const PAGE_SIZE: nat := 4096

  type Page = p: seq<Byte> | |p| == 4096 witness seq(4096, _ => 0)

  const FLAG_COMPRESS := 0x02
  const FLAG_MEM_SIZE := 0x04
  const FLAG_PAGE     := 0x08
  const FLAG_EOS      := 0x10
  const FLAG_CONTINUE := 0x20

  /** A RAM block: its name and the pages of the migration bitmap it occupies. */
  datatype Block = Block(id: seq<Byte>, base: nat, pages: nat)

  /** The block list: C-string names that fit a length byte, no two alike, over disjoint pages. */
  ghost predicate ValidBlocks(blocks: seq<Block>, nbits: nat)
  {
    && |blocks| > 0
    && (forall i :: 0 <= i < |blocks| ==> |blocks[i].id| < 256 && blocks[i].base + blocks[i].pages <= nbits)
    && (forall i, j :: 0 <= i < j < |blocks| ==> blocks[i].id != blocks[j].id)
    && (forall i, j :: 0 <= i < j < |blocks| ==>
          blocks[i].base + blocks[i].pages <= blocks[j].base || blocks[j].base + blocks[j].pages <= blocks[i].base)
    && (forall i :: 0 <= i < |blocks| ==> blocks[i].pages < 0x8_0000_0000_0000)
  }

  // ---- is_dup_page ----

  ghost predicate Uniform(p: Page)
  {
    forall i :: 0 <= i < 4096 ==> p[i] == p[0]
  }

  /** `is_dup_page`: comparing the page vector by vector with a splat of its first byte
      decides whether all its bytes are equal, for every vector width that divides the page. */
  method IsDupPage(p: Page, width: nat, count: nat) returns (dup: bool)
    requires width > 0 && count * width == 4096
    ensures dup <==> Uniform(p)
  {
    var i := 0;
    while i < count
      invariant 0 <= i <= count
      invariant forall k :: 0 <= k < i * width && k < 4096 ==> p[k] == p[0]
    {
      MulMonotone(i + 1, count, width);
      assert (i + 1) * width == i * width + width;
      var vec := p[i * width..i * width + width];
      if vec != seq(width, _ => p[0]) {
        assert exists k :: 0 <= k < width && vec[k] != seq(width, _ => p[0])[k];
        return false;
      }
      assert forall k :: i * width <= k < i * width + width ==> p[k] == vec[k - i * width];
      i := i + 1;
    }
    dup := true;
  }

  // ---- integers on the wire ----

  /** `v` in `n` bytes, most significant first: `qemu_put_be64` is PutBe(v, 8). */
  function PutBe(v: nat, n: nat): (s: seq<Byte>)
    ensures |s| == n
  {
    if n == 0 then [] else PutBe(v / 256, n - 1) + [v % 256]
  }

  function GetBe(s: seq<Byte>): (v: nat)
  {
    if s == [] then 0 else 256 * GetBe(s[..|s| - 1]) + s[|s| - 1] as int
  }

  /** 256 to the power `n` */
  function Pow256(n: nat): (p: nat)
    ensures p > 0
  {
    if n == 0 then 1 else 256 * Pow256(n - 1)
  }

  lemma {:induction false} BigEndianRoundTrip(v: nat, n: nat)
    requires v < Pow256(n)
    ensures GetBe(PutBe(v, n)) == v
  {
    if n > 0 {
      BigEndianRoundTrip(v / 256, n - 1);
      assert PutBe(v, n)[..n - 1] == PutBe(v / 256, n - 1);
    }
  }

  /** The bytes on the wire, the most significant first. */
  lemma {:induction false} BigEndianBytes(v: nat, n: nat, k: nat)
    requires k < n
    ensures PutBe(v, n)[k] == v / Pow256(n - 1 - k) % 256
  {
    if k < n - 1 {
      BigEndianBytes(v / 256, n - 1, k);
      DivBy(v, 256, Pow256(n - 2 - k));
    }
  }

  lemma DivBy(v: nat, a: nat, p: nat)
    requires a > 0 && p > 0
    ensures a * p > 0 && v / a / p == v / (a * p)
  {
    var d, m := v / a, a * p;
    var q := d / p;
    Quotient(v, a);
    Quotient(d, p);
    assert m > 0 by {
      MulMonotone(1, a, p);
    }
    Regroup(q, p, a, m);
    Scale(q * p, d, a);
    Scale(d + 1, q * p + p, a);
    assert (d + 1) * a == d * a + a && (q * p + p) * a == q * p * a + p * a;
    QuotientIs(v, m, q);
  }

  lemma Regroup(q: nat, p: nat, a: nat, m: nat)
    requires m == a * p
    ensures q * p * a == q * m && p * a == m
  {
    assert q * p * a == q * (p * a);
  }

  lemma Scale(x: nat, y: nat, a: nat)
    requires x <= y
    ensures x * a <= y * a
  {
    MulMonotone(x, y, a);
  }

  // ---- sending a page ----

  /** `save_block_hdr`: the flags share a word with the page-aligned offset; the name follows unless it continues. */
  function SaveBlockHdr(b: Block, off: nat, cont: bool, flag: nat): (s: seq<Byte>)
    requires |b.id| < 256
  {
    PutBe(off * 4096 + (if cont then FLAG_CONTINUE else 0) + flag, 8)
      + if cont then [] else [|b.id| as Byte] + b.id
  }

  /** What `ram_save_block` puts on the stream for one page. */
  ghost function EncodePage(b: Block, off: nat, cont: bool, page: Page): (s: seq<Byte>)
    requires |b.id| < 256
  {
    if Uniform(page) then SaveBlockHdr(b, off, cont, FLAG_COMPRESS) + [page[0]]
    else SaveBlockHdr(b, off, cont, FLAG_PAGE) + page
  }

  const EOS: seq<Byte> := PutBe(FLAG_EOS, 8)

  /** The bytes of a header of 4096 * off + low, the flags being below 256: the offset, four zero bits, the flags. */
  lemma HeaderBytes(off: nat, low: nat, k: nat)
    requires low < 256 && k < 8
    ensures PutBe(off * 4096 + low, 8)[k]
         == if k == 7 then low else if k == 6 then off % 16 * 16 else off / (16 * Pow256(5 - k)) % 256
  {
    hide PutBe, Pow256;
    var v := off * 4096 + low;
    BigEndianBytes(v, 8, k);
    if k < 6 {
      PowersJoin(5 - k);
      UpperPart(off, low, 16 * Pow256(5 - k));
    } else {
      SmallPowers();
      LowerPart(off, low);
    }
  }

  lemma UpperPart(off: nat, low: nat, p: nat)
    requires low < 256 && p > 0
    ensures (off * 4096 + low) / (4096 * p) == off / p
  {
    DivBy(off * 4096 + low, 4096, p);
  }

  lemma LowerPart(off: nat, low: nat)
    requires low < 256
    ensures (off * 4096 + low) % 256 == low && (off * 4096 + low) / 256 % 256 == off % 16 * 16
  {
    DivisionIs(off * 4096 + low, 256, 16 * off, low);
    DivisionIs(16 * off, 256, off / 16, off % 16 * 16);
  }

  lemma SmallPowers()
    ensures Pow256(0) == 1 && Pow256(1) == 256
  {
  }

  lemma PowersJoin(n: nat)
    ensures 4096 * (16 * Pow256(n)) == 65536 * Pow256(n) == Pow256(n + 2)
  {
  }

  /** A record, byte by byte: the header, the name of the block unless it continues, and one byte or the page. */
  lemma RecordBytes(b: Block, off: nat, cont: bool, page: Page)
    requires |b.id| < 256
    ensures var s := EncodePage(b, off, cont, page);
            var same := forall i :: 0 <= i < 4096 ==> page[i] == page[0];
            && |s| >= 8 && (forall k :: 0 <= k < 6 ==> s[k] == off / (16 * Pow256(5 - k)) % 256)
            && s[6] == off % 16 * 16
            && s[7] == (if same then 0x02 else 0x08) + (if cont then 0x20 else 0)
            && s[8..] == (if cont then [] else [|b.id| as Byte] + b.id) + (if same then [page[0]] else page)
  {
    hide PutBe, Pow256;
    var s, low := EncodePage(b, off, cont, page), (if Uniform(page) then 0x02 else 0x08) + (if cont then 0x20 else 0);
    var hdr := PutBe(off * 4096 + low, 8);
    var rest := (if cont then [] else [|b.id| as Byte] + b.id) + (if Uniform(page) then [page[0]] else page);
    assert s == hdr + rest;
    forall k: nat | k < 8
      ensures s[k] == if k == 7 then low else if k == 6 then off % 16 * 16 else off / (16 * Pow256(5 - k)) % 256
    {
      HeaderBytes(off, low, k);
    }
  }

  lemma EosBytes()
    ensures EOS == [0, 0, 0, 0, 0, 0, 0, 0x10]
  {
    hide PutBe, Pow256;
    forall k: nat | k < 8
      ensures EOS[k] == if k == 7 then 0x10 else 0
    {
      HeaderBytes(0, 0x10, k);
    }
  }

  // ---- receiving ----

  /** The receiver: its memory and the static `block` of `host_from_stream_offset`. */
  datatype Recv = Recv(mem: seq<Page>, block: Option<nat>)

  datatype Parsed = Parsed(recv: Recv, rest: seq<Byte>, eos: bool) | Bad

  /** `flags & bit` for a single bit */
  predicate HasFlag(flags: nat, bit: nat)
    requires bit > 0
  {
    flags / bit % 2 == 1
  }

  /** The block named `id`, searching the list from index `i`. */
  function FindBlock(blocks: seq<Block>, id: seq<Byte>, i: nat): (r: Option<nat>)
    requires i <= |blocks|
    ensures r.Some? ==> i <= r.value < |blocks| && blocks[r.value].id == id
    decreases |blocks| - i
  {
    if i == |blocks| then None
    else if blocks[i].id == id then Some(i)
    else FindBlock(blocks, id, i + 1)
  }

  lemma {:induction false} FindsTheBlock(blocks: seq<Block>, b: nat, i: nat)
    requires i <= b < |blocks|
    requires forall k, l :: 0 <= k < l < |blocks| ==> blocks[k].id != blocks[l].id
    ensures FindBlock(blocks, blocks[b].id, i) == Some(b)
    decreases b - i
  {
    if i < b {
      FindsTheBlock(blocks, b, i + 1);
    }
  }

  /** `host_from_stream_offset`: the block the page goes to, and the stream after its name. */
  function HostBlock(blocks: seq<Block>, current: Option<nat>, flags: nat, s: seq<Byte>): (r: Option<(nat, seq<Byte>)>)
  {
    if HasFlag(flags, FLAG_CONTINUE) then
      if current.None? then None else Some((current.value, s))
    else if |s| < 1 || |s| < 1 + s[0] as int then None
    else
      match FindBlock(blocks, s[1..1 + s[0] as int], 0)
      case None => None
      case Some(b) => Some((b, s[1 + s[0] as int..]))
  }

  /** One turn of the loop of `ram_load`. A set-up section and an offset outside its block are not modelled. */
  function LoadOne(blocks: seq<Block>, r: Recv, s: seq<Byte>): (p: Parsed)
    ensures p.Parsed? ==> |p.rest| < |s| && |p.recv.mem| == |r.mem|
  {
    if |s| < 8 then Bad
    else
      var hdr := GetBe(s[..8]);
      var flags, off := hdr % 4096, hdr / 4096;
      if HasFlag(flags, FLAG_MEM_SIZE) then Bad
      else if HasFlag(flags, FLAG_COMPRESS) then
        match HostBlock(blocks, r.block, flags, s[8..])
        case None => Bad
        case Some((b, t)) =>
          if |t| < 1 || b >= |blocks| || off >= blocks[b].pages || blocks[b].base + off >= |r.mem| then Bad
          else Parsed(Recv(r.mem[blocks[b].base + off := seq(4096, _ => t[0])], Some(b)), t[1..],
                      HasFlag(flags, FLAG_EOS))
      else if HasFlag(flags, FLAG_PAGE) then
        match HostBlock(blocks, r.block, flags, s[8..])
        case None => Bad
        case Some((b, t)) =>
          if |t| < 4096 || b >= |blocks| || off >= blocks[b].pages || blocks[b].base + off >= |r.mem| then Bad
          else Parsed(Recv(r.mem[blocks[b].base + off := t[..4096]], Some(b)), t[4096..], HasFlag(flags, FLAG_EOS))
      else if HasFlag(flags, 0x40) then Bad
      else Parsed(r, s[8..], HasFlag(flags, FLAG_EOS))
  }

  /** Eight bytes as a number. */
  function Be8(s: seq<Byte>): nat
    requires |s| >= 8
  {
    s[0] as int * 0x100_0000_0000_0000 + s[1] as int * 0x1_0000_0000_0000 + s[2] as int * 0x100_0000_0000
    + s[3] as int * 0x1_0000_0000 + s[4] as int * 0x100_0000 + s[5] as int * 0x1_0000 + s[6] as int * 0x100
    + s[7] as int
  }

  lemma BigEndianValue(s: seq<Byte>)
    requires |s| >= 8
    ensures GetBe(s[..8]) == Be8(s)
  {
    hide GetBe;
    LastByte(s, 8);
    LastByte(s, 7);
    LastByte(s, 6);
    LastByte(s, 5);
    LastByte(s, 4);
    LastByte(s, 3);
    LastByte(s, 2);
    LastByte(s, 1);
    NoBytes();
    assert s[..0] == [];
  }

  lemma LastByte(s: seq<Byte>, n: nat)
    requires 0 < n <= |s|
    ensures GetBe(s[..n]) == 256 * GetBe(s[..n - 1]) + s[n - 1] as int
  {
    assert s[..n][..n - 1] == s[..n - 1];
  }

  lemma NoBytes()
    ensures GetBe([]) == 0
  {
  }

  lemma FlagBits(s: seq<Byte>)
    requires |s| >= 8
    ensures var f, low := Be8(s) % 4096, s[7] as int;
            && HasFlag(f, 2) == (low / 2 % 2 == 1) && HasFlag(f, 4) == (low / 4 % 2 == 1)
            && HasFlag(f, 8) == (low / 8 % 2 == 1) && HasFlag(f, 16) == (low / 16 % 2 == 1)
            && HasFlag(f, 32) == (low / 32 % 2 == 1)
  {
    LowByte(s);
    hide Be8;
    Bits(Be8(s) % 4096, s[7] as int);
  }

  lemma LowByte(s: seq<Byte>)
    requires |s| >= 8
    ensures Be8(s) % 256 == s[7] as int && Be8(s) % 4096 % 256 == s[7] as int
  {
    var six, low := s[6] as int, s[7] as int;
    var up := s[0] as int * 0x100_0000_0000 + s[1] as int * 0x1_0000_0000 + s[2] as int * 0x100_0000
              + s[3] as int * 0x1_0000 + s[4] as int * 0x100 + s[5] as int;
    assert Be8(s) == 65536 * up + 256 * six + low;
    hide Be8;
    DivisionIs(Be8(s), 256, 256 * up + six, low);
    DivisionIs(Be8(s), 4096, 16 * up + six / 16, six % 16 * 256 + low);
    DivisionIs(six % 16 * 256 + low, 256, six % 16, low);
  }

  lemma Bits(flags: nat, low: nat)
    requires flags % 256 == low
    ensures flags / 2 % 2 == low / 2 % 2 && flags / 4 % 2 == low / 4 % 2 && flags / 8 % 2 == low / 8 % 2
    ensures flags / 16 % 2 == low / 16 % 2 && flags / 32 % 2 == low / 32 % 2
  {
    Bit(flags, low, 2, 64);
    Bit(flags, low, 4, 32);
    Bit(flags, low, 8, 16);
    Bit(flags, low, 16, 8);
    Bit(flags, low, 32, 4);
  }

  lemma Bit(flags: nat, low: nat, bit: nat, m: nat)
    requires flags % 256 == low && bit > 0 && bit * (2 * m) == 256
    ensures flags / bit % 2 == low / bit % 2
  {
    var q, d, k := flags / 256, low / bit, 2 * m;
    Quotient(low, bit);
    Blocks256(q, k, d, bit);
    QuotientIs(flags, bit, q * k + d);
    Doubled(q, m, d);
  }

  lemma Blocks256(q: nat, k: nat, d: nat, bit: nat)
    requires bit * k == 256
    ensures (q * k + d) * bit == 256 * q + d * bit
  {
    assert q * k * bit == q * (bit * k);
  }

  lemma Doubled(q: nat, m: nat, d: nat)
    ensures (q * (2 * m) + d) % 2 == d % 2
  {
    assert q * (2 * m) == 2 * (q * m);
  }

  /** What the receiver makes of the flags, in the eighth byte of a record: 4 is refused, 10 ends the section, and
      without 2 and 8 nothing is stored. */
  lemma RecordFlags(blocks: seq<Block>, r: Recv, s: seq<Byte>)
    requires |s| >= 8 && LoadOne(blocks, r, s).Parsed?
    ensures var p, flags := LoadOne(blocks, r, s), s[7] as int;
            && flags / 4 % 2 == 0 && p.eos == (flags / 16 % 2 == 1)
            && (flags / 2 % 2 == 0 && flags / 8 % 2 == 0 ==> p.recv == r && p.rest == s[8..])
  {
    hide GetBe, Be8, HasFlag, HostBlock;
    BigEndianValue(s);
    FlagBits(s);
  }

  /** Where the block of a record comes from: the one remembered, with flag 20, or the name that follows the header. */
  lemma RecordBlock(blocks: seq<Block>, r: Recv, s: seq<Byte>)
    requires |s| >= 8 && LoadOne(blocks, r, s).Parsed? && (s[7] as int / 2 % 2 == 1 || s[7] as int / 8 % 2 == 1)
    ensures var p := LoadOne(blocks, r, s);
            && p.recv.block.Some? && p.recv.block.value < |blocks|
            && if s[7] as int / 32 % 2 == 1 then r.block == p.recv.block
               else |s| >= 9 && |s| >= 9 + s[8] as int && s[9..9 + s[8] as int] == blocks[p.recv.block.value].id
  {
    hide GetBe, Be8, HasFlag, FindBlock;
    BigEndianValue(s);
    FlagBits(s);
    if |s| >= 9 && |s| >= 9 + s[8] as int {
      Slices(s, 8, 1, 1 + s[8] as int);
    }
  }

  lemma Slices(s: seq<Byte>, at: nat, i: nat, j: nat)
    requires at + i <= at + j <= |s|
    ensures s[at..][i..j] == s[at + i..at + j]
  {
    assert forall k :: i <= k < j ==> s[at..][k] == s[at + k];
  }

  lemma TailSlices(s: seq<Byte>, t: seq<Byte>, n: nat)
    requires n <= |t| <= |s| && t == s[|s| - |t|..]
    ensures t[..n] == s[|s| - |t|..|s| - |t| + n] && t[n..] == s[|s| - |t| + n..]
  {
    Slices(s, |s| - |t|, 0, n);
    Slices(s, |s| - |t|, n, |t|);
  }

  /** What it stores: with flag 2 a page filled with the next byte, otherwise the next page, at the header's offset. */
  lemma RecordStores(blocks: seq<Block>, r: Recv, s: seq<Byte>)
    requires |s| >= 8 && LoadOne(blocks, r, s).Parsed? && (s[7] as int / 2 % 2 == 1 || s[7] as int / 8 % 2 == 1)
    ensures var p, off := LoadOne(blocks, r, s), Be8(s) / 4096;
            && p.recv.block.Some? && p.recv.block.value < |blocks|
            && var b := blocks[p.recv.block.value];
               var n := if s[7] as int / 2 % 2 == 1 then 1 else 4096;
               && off < b.pages && b.base + off < |r.mem| && |p.rest| + n <= |s|
               && var data := s[|s| - |p.rest| - n..|s| - |p.rest|];
                  && s[|s| - |p.rest|..] == p.rest
                  && |p.rest| + n + 8 + (if s[7] as int / 32 % 2 == 1 then 0 else 1 + |b.id|) == |s|
                  && p.recv.mem == r.mem[b.base + off := if n == 1 then seq(4096, _ => data[0]) else data]
  {
    hide GetBe, Be8, HasFlag, FindBlock;
    BigEndianValue(s);
    FlagBits(s);
    var u := s[8..];
    HostSkips(blocks, r.block, Be8(s) % 4096, u);
    hide HostBlock;
    var t := HostBlock(blocks, r.block, Be8(s) % 4096, u).value.1;
    TailSlices(s, u, |u| - |t|);
    TailSlices(s, t, if s[7] as int / 2 % 2 == 1 then 1 else 4096);
  }

  lemma HostSkips(blocks: seq<Block>, current: Option<nat>, flags: nat, u: seq<Byte>)
    requires HostBlock(blocks, current, flags, u).Some?
    ensures var (b, t) := HostBlock(blocks, current, flags, u).value;
            && |t| <= |u| && t == u[|u| - |t|..]
            && (HasFlag(flags, FLAG_CONTINUE) ==> |t| == |u|)
            && (!HasFlag(flags, FLAG_CONTINUE) ==> b < |blocks| && |t| + 1 + |blocks[b].id| == |u|)
  {
    hide HasFlag;
  }

  lemma Pow256Of8()
    ensures Pow256(8) == 0x1_0000_0000_0000_0000
  {
    assert Pow256(4) == 0x1_0000_0000;
  }

  /** The header comes apart again into offset and flags. */
  lemma HeaderDecodes(off: nat, flags: nat, rest: seq<Byte>)
    requires off < 0x8_0000_0000_0000 && flags < 4096
    ensures var s := PutBe(off * 4096 + flags, 8) + rest;
            && GetBe(s[..8]) % 4096 == flags && GetBe(s[..8]) / 4096 == off && s[8..] == rest
  {
    hide PutBe, GetBe, Pow256;
    Pow256Of8();
    BigEndianRoundTrip(off * 4096 + flags, 8);
    assert (PutBe(off * 4096 + flags, 8) + rest)[..8] == PutBe(off * 4096 + flags, 8);
  }

  /** The receiver picks the block the sender meant, by name or as the continuation of its last one. */
  lemma HostDecodes(blocks: seq<Block>, nbits: nat, b: nat, cont: bool, current: Option<nat>, flag: nat,
                    rest: seq<Byte>)
    requires ValidBlocks(blocks, nbits) && b < |blocks| && (cont ==> current == Some(b))
    requires flag == FLAG_COMPRESS || flag == FLAG_PAGE
    ensures HostBlock(blocks, current, flag + if cont then FLAG_CONTINUE else 0,
                      (if cont then [] else [|blocks[b].id| as Byte] + blocks[b].id) + rest) == Some((b, rest))
  {
    if cont {
      assert [] + rest == rest;
    } else {
      var id := blocks[b].id;
      var s := [|id| as Byte] + id + rest;
      assert s[1..1 + s[0] as int] == id;
      assert s[1 + s[0] as int..] == rest;
      FindsTheBlock(blocks, b, 0);
    }
  }

  lemma FlagsOfPage(dup: bool, cont: bool)
    ensures var flags := (if dup then FLAG_COMPRESS else FLAG_PAGE) + if cont then FLAG_CONTINUE else 0;
            && !HasFlag(flags, FLAG_MEM_SIZE) && !HasFlag(flags, FLAG_EOS)
            && HasFlag(flags, FLAG_COMPRESS) == dup && HasFlag(flags, FLAG_PAGE) == !dup
            && HasFlag(flags, FLAG_CONTINUE) == cont
  {
  }

  lemma UniformIsSplat(page: Page)
    requires Uniform(page)
    ensures seq(4096, _ => page[0]) == page
  {
  }

  /** Sending a page and loading it puts that page in its place and nothing else, and leaves the receiver
      remembering its block. */
  lemma PageRoundTrip(blocks: seq<Block>, nbits: nat, b: nat, off: nat, cont: bool, page: Page, r: Recv,
                      rest: seq<Byte>)
    requires ValidBlocks(blocks, nbits) && b < |blocks| && off < blocks[b].pages && |r.mem| == nbits
    requires cont ==> r.block == Some(b)
    ensures LoadOne(blocks, r, EncodePage(blocks[b], off, cont, page) + rest)
         == Parsed(Recv(r.mem[blocks[b].base + off := page], Some(b)), rest, false)
  {
    hide PutBe, GetBe, HostBlock, HasFlag, Uniform;
    var flag := if Uniform(page) then FLAG_COMPRESS else FLAG_PAGE;
    var flags := flag + if cont then FLAG_CONTINUE else 0;
    var name := if cont then [] else [|blocks[b].id| as Byte] + blocks[b].id;
    var data: seq<Byte> := if Uniform(page) then [page[0]] else page;
    var s := EncodePage(blocks[b], off, cont, page) + rest;
    assert s == PutBe(off * 4096 + flags, 8) + (name + (data + rest));
    HeaderDecodes(off, flags, name + (data + rest));
    FlagsOfPage(Uniform(page), cont);
    HostDecodes(blocks, nbits, b, cont, r.block, flag, data + rest);
    if Uniform(page) {
      UniformIsSplat(page);
    } else {
      assert (data + rest)[..4096] == page;
    }
  }

  /** Everything on the stream, section after section. */
  function Load(blocks: seq<Block>, r: Recv, s: seq<Byte>): (o: Option<Recv>)
    decreases |s|
  {
    if s == [] then Some(r)
    else
      match LoadOne(blocks, r, s)
      case Bad => None
      case Parsed(r', rest, _) => Load(blocks, r', rest)
  }

  /** Bytes that follow a complete record do not change how it is read. */
  lemma LoadOneIgnoresTail(blocks: seq<Block>, r: Recv, s: seq<Byte>, t: seq<Byte>)
    requires LoadOne(blocks, r, s).Parsed?
    ensures var p := LoadOne(blocks, r, s);
            LoadOne(blocks, r, s + t) == Parsed(p.recv, p.rest + t, p.eos)
  {
    hide GetBe, HasFlag;
    Longer(s, t, 8);
    var flags := GetBe(s[..8]) % 4096;
    var u := s[8..];
    var h := HostBlock(blocks, r.block, flags, u);
    HostIgnoresTail(blocks, r.block, flags, u, t);
    hide HostBlock;
    if h.Some? {
      var v := h.value.1;
      if |v| >= 1 {
        Longer(v, t, 1);
      }
      if |v| >= 4096 {
        Longer(v, t, 4096);
      }
    }
  }

  lemma Longer(s: seq<Byte>, t: seq<Byte>, n: nat)
    requires n <= |s|
    ensures (s + t)[..n] == s[..n] && (s + t)[n..] == s[n..] + t
  {
  }

  lemma HostIgnoresTail(blocks: seq<Block>, current: Option<nat>, flags: nat, s: seq<Byte>, t: seq<Byte>)
    ensures var h := HostBlock(blocks, current, flags, s);
            h.Some? ==> HostBlock(blocks, current, flags, s + t) == Some((h.value.0, h.value.1 + t))
  {
    hide HasFlag;
    if |s| >= 1 && |s| >= 1 + s[0] as int {
      var n := 1 + s[0] as int;
      assert (s + t)[1..n] == s[1..n];
      assert (s + t)[n..] == s[n..] + t;
    }
  }

  /** Loading a stream that grew is loading the old part and then the new part. */
  lemma {:induction false} LoadAppend(blocks: seq<Block>, r: Recv, s: seq<Byte>, t: seq<Byte>)
    requires Load(blocks, r, s).Some?
    ensures Load(blocks, r, s + t) == Load(blocks, Load(blocks, r, s).value, t)
    decreases |s|
  {
    hide LoadOne;
    if s == [] {
      assert s + t == t;
    } else {
      var p := LoadOne(blocks, r, s);
      LoadOneIgnoresTail(blocks, r, s, t);
      LoadAppend(blocks, p.recv, p.rest, t);
    }
  }

  /** The end-of-section mark changes nothing. */
  lemma EosRoundTrip(blocks: seq<Block>, r: Recv, rest: seq<Byte>)
    ensures LoadOne(blocks, r, EOS + rest) == Parsed(r, rest, true)
  {
    HeaderDecodes(0, FLAG_EOS, rest);
  }

  /** One call of `ram_load`: everything up to and including the next end-of-section mark. */
  function LoadSection(blocks: seq<Block>, r: Recv, s: seq<Byte>): (o: Option<(Recv, seq<Byte>)>)
    decreases |s|
  {
    match LoadOne(blocks, r, s)
    case Bad => None
    case Parsed(r', rest, eos) => if eos then Some((r', rest)) else LoadSection(blocks, r', rest)
  }

  /** Calling `ram_load` once per section loads the whole stream. */
  lemma {:induction false} SectionThenRest(blocks: seq<Block>, r: Recv, s: seq<Byte>)
    requires LoadSection(blocks, r, s).Some?
    ensures var (r', rest) := LoadSection(blocks, r, s).value;
            |rest| < |s| && Load(blocks, r, s) == Load(blocks, r', rest)
    decreases |s|
  {
    hide LoadOne;
    var p := LoadOne(blocks, r, s);
    if !p.eos {
      SectionThenRest(blocks, p.recv, p.rest);
    }
  }

  class Receiver {
    var mem: seq<Page>
    var block: Option<nat>

    constructor (mem: seq<Page>)
      ensures this.mem == mem && block == None
    {
      this.mem, block := mem, None;
    }

    /** `ram_load` */
    method RamLoad(blocks: seq<Block>, stream: seq<Byte>) returns (ok: bool, rest: seq<Byte>)
      modifies this
      ensures ok == LoadSection(blocks, old(Recv(mem, block)), stream).Some?
      ensures ok ==> LoadSection(blocks, old(Recv(mem, block)), stream) == Some((Recv(mem, block), rest))
    {
      rest := stream;
      var eos := false;
      ok := true;
      while !eos
        invariant eos ==> LoadSection(blocks, old(Recv(mem, block)), stream) == Some((Recv(mem, block), rest))
        invariant !eos ==>
                    LoadSection(blocks, old(Recv(mem, block)), stream) == LoadSection(blocks, Recv(mem, block), rest)
        decreases !eos, |rest|
      {
        hide LoadOne;
        match LoadOne(blocks, Recv(mem, block), rest)
        case Bad =>
          return false, rest;
        case Parsed(r, t, e) =>
          mem, block, rest, eos := r.mem, r.block, t, e;
      }
    }
  }
}
