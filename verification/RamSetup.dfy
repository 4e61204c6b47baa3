/** arch_init.c: the set-up stage of RAM migration, from the bitmap it allocates to the state the first iteration starts
    from. */
module RamSetup {
  import opened Basics
  import opened Words
  import opened Bitops
  import opened Bitmap
  import opened RamWire
  import opened RamSave
  import opened RamMigration

  /** `last_ram_offset`, in pages. */
  function RamEnd(blocks: seq<Block>): (end: nat)
    ensures forall i :: 0 <= i < |blocks| ==> blocks[i].base + blocks[i].pages <= end
  {
    if blocks == [] then 0
    else
      var b, end := blocks[|blocks| - 1], RamEnd(blocks[..|blocks| - 1]);
      if b.base + b.pages > end then b.base + b.pages else end
  }

  /** It is where some block ends. */
  lemma {:induction false} RamEndAttained(blocks: seq<Block>)
    requires blocks != []
    ensures exists i :: 0 <= i < |blocks| && blocks[i].base + blocks[i].pages == RamEnd(blocks)
  {
    var n := |blocks| - 1;
    if n > 0 && RamEnd(blocks) == RamEnd(blocks[..n]) {
      RamEndAttained(blocks[..n]);
      var i :| 0 <= i < n && blocks[..n][i].base + blocks[..n][i].pages == RamEnd(blocks[..n]);
      assert blocks[i].base + blocks[i].pages == RamEnd(blocks);
    } else {
      assert blocks[n].base + blocks[n].pages == RamEnd(blocks);
    }
  }

  method LastRamOffset(blocks: seq<Block>) returns (last: nat)
    ensures last == RamEnd(blocks) && forall i :: 0 <= i < |blocks| ==> blocks[i].base + blocks[i].pages <= last
    ensures if blocks == [] then last == 0
            else exists i :: 0 <= i < |blocks| && blocks[i].base + blocks[i].pages == last
  {
    last := 0;
    for i := 0 to |blocks|
      invariant last == RamEnd(blocks[..i])
    {
      assert blocks[..i + 1][..i] == blocks[..i];
      if blocks[i].base + blocks[i].pages > last {
        last := blocks[i].base + blocks[i].pages;
      }
    }
    assert blocks[..|blocks|] == blocks;
    if blocks != [] {
      RamEndAttained(blocks);
    }
  }

  /** BITS_TO_LONGS */
  function WordsFor(bits: nat): nat
  {
    (bits + 63) / 64
  }

  /** Whether setting `ramPages` bits from bit 1 on leaves the bitmap of `ramPages` bits. */
  predicate Spills(ramPages: nat)
  {
    ramPages > 0 && ramPages % 64 == 0
  }

  /** `bitmap_new` and `bitmap_set(migration_bitmap, 1, ram_pages)`: `after` is the word of memory behind the bitmap.
      The bits set are 1 to `ram_pages`; the last of them is behind the bitmap exactly when `ram_pages` is a multiple of
      64. */
  method SetupBitmap(ramPages: nat, after: Word) returns (bm: array<Word>, behind: Word)
    ensures fresh(bm) && bm.Length == WordsFor(ramPages)
    ensures forall q: nat :: q < bm.Length * 64 ==> BitAt(bm[..], q) == (1 <= q <= ramPages)
    ensures forall k: nat :: k < 64 ==> behind[k] == (after[k] || (k == 0 && Spills(ramPages)))
    ensures behind != after ==> Spills(ramPages)
    ensures Count(bm[..]) == if Spills(ramPages) then ramPages - 1 else ramPages
  {
    hide BitAt, RangeUpdated, CountTo;
    var n := WordsFor(ramPages);
    var memory := new Word[n + 1](i => if i < n then ZERO else after);
    ghost var before := memory[..];
    Fill(memory, 1, ramPages, true);
    bm := new Word[n](i requires 0 <= i < n < memory.Length reads memory => memory[i]);
    behind := memory[n];
    BitsSet(before, memory[..], bm[..], ramPages, after);
    CountRange(bm[..], ramPages, bm.Length * 64);
  }

  /** What filling from bit 1 on leaves in the words of the bitmap and in the one behind. */
  lemma BitsSet(before: seq<Word>, memory: seq<Word>, bm: seq<Word>, ramPages: nat, after: Word)
    requires |before| == WordsFor(ramPages) + 1 && RangeUpdated(before, memory, 1, 1 + ramPages, true)
    requires |bm| == |before| - 1 && forall i :: 0 <= i < |bm| ==> before[i] == ZERO && bm[i] == memory[i]
    requires before[|bm|] == after
    ensures forall q: nat :: q < |bm| * 64 ==> BitAt(bm, q) == (1 <= q <= ramPages)
    ensures forall k: nat :: k < 64 ==> memory[|bm|][k] == (after[k] || (k == 0 && Spills(ramPages)))
    ensures memory[|bm|] != after ==> Spills(ramPages)
  {
    var n := |bm|;
    forall q: nat | q < n * 64
      ensures BitAt(bm, q) == (1 <= q <= ramPages)
    {
      assert BitAt(memory, q) == if 1 <= q < 1 + ramPages then true else BitAt(before, q);
    }
    forall k: nat | k < 64
      ensures memory[n][k] == (after[k] || (k == 0 && Spills(ramPages)))
    {
      BitOfWord(memory, n, k);
      BitOfWord(before, n, k);
    }
  }

  lemma {:induction false} CountRange(bm: seq<Word>, ramPages: nat, n: nat)
    requires n <= |bm| * 64
    requires forall q: nat :: q < |bm| * 64 ==> BitAt(bm, q) == (1 <= q <= ramPages)
    ensures CountTo(bm, n) == if n == 0 then 0 else if n <= ramPages then n - 1 else ramPages
  {
    if n > 0 {
      CountRange(bm, ramPages, n - 1);
    }
  }

  /** The sender and the dirty log after `ram_save_setup`, the log having been `log` before. */
  ghost predicate SetsUp(blocks: seq<Block>, log: set<nat>, s: Sender, log': set<nat>)
  {
    && s.last == None && s.lastOffset == 0 && s.stream == [] && |s.bm| == WordsFor(RamEnd(blocks))
    && (forall q: nat :: q < |s.bm| * 64 ==>
          && BitAt(s.bm, q) == (1 <= q <= RamEnd(blocks) || (Owned(blocks, q) && q in log))
          && (q in log' <==> q in log && !Owned(blocks, q)))
    && s.count - Count(s.bm) == if Spills(RamEnd(blocks)) then 1 else 0
  }

  /** `ram_save_setup`: the bitmap, the counter, the reset of the scan and the first sync. */
  method RamSaveSetup(blocks: seq<Block>, log: set<nat>, after: Word)
    returns (st: RamState, log': set<nat>, behind: Word)
    requires ValidBlocks(blocks, RamEnd(blocks))
    ensures fresh(st) && fresh(st.migrationBitmap) && st.Valid() && st.blocks == blocks
    ensures SetsUp(blocks, log, st.Snapshot(), log')
    ensures forall k: nat :: k < 64 ==> behind[k] == (after[k] || (k == 0 && Spills(RamEnd(blocks))))
  {
    var ramPages := LastRamOffset(blocks);
    var bm;
    bm, behind := SetupBitmap(ramPages, after);
    st := new RamState(blocks, bm, ramPages);
    log' := st.BitmapSync(log);
  }

  /** The state after set-up is consistent if and only if page 0, which no bit stands for, belongs to no block, was in
      the dirty log, or is equal on both sides already. */
  lemma SetupConsistency(blocks: seq<Block>, log: set<nat>, s: Sender, log': set<nat>, mem: seq<Page>, r: Recv)
    requires ValidBlocks(blocks, RamEnd(blocks)) && RamEnd(blocks) > 0 && SetsUp(blocks, log, s, log')
    requires |mem| == |s.bm| * 64 == |r.mem|
    ensures InSync(blocks, System(mem, log', s), r) <==> (Owned(blocks, 0) && 0 !in log ==> r.mem[0] == mem[0])
  {
    hide Count, Owned;
    assert Load(blocks, r, []) == Some(r);
    forall q: nat | q < |mem| && Owned(blocks, q)
      ensures q < RamEnd(blocks)
    {
      OwnedBelow(blocks, q);
    }
  }

  lemma OwnedBelow(blocks: seq<Block>, q: nat)
    requires Owned(blocks, q)
    ensures q < RamEnd(blocks)
  {
  }

  /** One block of one page that the dirty log does not have: after set-up nothing is dirty, the state is inconsistent
      unless the page is equal already, and the first search never ends. */
  lemma LonePageLost(name: seq<Byte>, s: Sender, log': set<nat>, mem: seq<Page>, r: Recv, n: nat)
    requires |name| < 256
    requires SetsUp([Block(name, 0, 1)], {}, s, log') && |mem| == |s.bm| * 64 == |r.mem|
    ensures ValidBlocks([Block(name, 0, 1)], |s.bm| * 64) && AllClean(s.bm, [Block(name, 0, 1)])
    ensures InSync([Block(name, 0, 1)], System(mem, log', s), r) <==> r.mem[0] == mem[0]
    ensures StillSearching(s.bm, [Block(name, 0, 1)], None, 0, Cursor(0, 0, false), n)
  {
    var blocks := [Block(name, 0, 1)];
    assert blocks[..0] == [] && RamEnd(blocks) == 1;
    assert blocks[0].base <= 0 < blocks[0].base + blocks[0].pages && Owned(blocks, 0);
    SetupConsistency(blocks, {}, s, log', mem, r);
    SearchNeverEnds(s.bm, blocks, Cursor(0, 0, false), n);
  }

  /** Such a state: what `ram_save_setup` leaves for one page of RAM, against a receiver that holds another. */
  method PageZeroLost(ours: Page, theirs: Page) returns (st: RamState, log': set<nat>)
    requires ours != theirs
    ensures st.Valid() && |st.migrationBitmap[..]| == 1
    ensures !InSync(st.blocks, System(seq(64, _ => ours), log', st.Snapshot()), Recv(seq(64, _ => theirs), None))
  {
    hide SetsUp, InSync, AllClean, StillSearching;
    var blocks := [Block([], 0, 1)];
    assert blocks[..0] == [] && RamEnd(blocks) == 1;
    var behind;
    st, log', behind := RamSaveSetup(blocks, {}, ZERO);
    OneWord(blocks, st.Snapshot(), log');
    LonePageLost([], st.Snapshot(), log', seq(64, _ => ours), Recv(seq(64, _ => theirs), None), 0);
  }

  lemma OneWord(blocks: seq<Block>, s: Sender, log': set<nat>)
    requires SetsUp(blocks, {}, s, log') && RamEnd(blocks) == 1
    ensures |s.bm| == 1
  {
  }

  // ---- the counter ----

  /** What steps keep of the counter: its distance from the set bits, and the bit of the page behind the last block. */
  ghost predicate Counted(blocks: seq<Block>, s: Sender)
  {
    && |s.bm| == WordsFor(RamEnd(blocks)) && s.count - Count(s.bm) == (if Spills(RamEnd(blocks)) then 1 else 0)
    && (RamEnd(blocks) < |s.bm| * 64 ==> BitAt(s.bm, RamEnd(blocks)))
  }

  lemma StepCounted(blocks: seq<Block>, s: System, a: Action, s': System)
    requires Counted(blocks, s.snd) && Step(blocks, s, a, s')
    ensures Counted(blocks, s'.snd)
  {
    hide Count, Owned, EncodePage, FirstDirty;
    if a.Send? {
      var b, off := s'.snd.last.value, s'.snd.lastOffset;
      SentOwned(blocks, s.snd, b, off);
      CountToUpdate(s.snd.bm, s'.snd.bm, blocks[b].base + off, false, |s.snd.bm| * 64);
      CountIs(s.snd.bm);
      CountIs(s'.snd.bm);
    }
  }

  lemma SentOwned(blocks: seq<Block>, s: Sender, b: nat, o: nat)
    requires ValidSender(blocks, s) && FirstDirty(s.bm, blocks, StartBlock(s), s.lastOffset, b, o)
    ensures b < |blocks| && o < blocks[b].pages && blocks[b].base + o < RamEnd(blocks)
            && BitAt(s.bm, blocks[b].base + o)
  {
  }

  lemma CountIs(bm: seq<Word>)
    ensures Count(bm) == CountTo(bm, |bm| * 64)
  {
  }

  /** The bit of the page behind the last block is set, in the bitmap or behind it, and no block owns it: from set-up
      on, `migration_dirty_pages` never returns to 0, however many pages are sent. */
  lemma {:induction false} CounterNeverZero(blocks: seq<Block>, log: set<nat>, states: seq<System>,
                                            actions: seq<Action>, k: nat)
    requires IsRun(blocks, states, actions) && k < |states| && RamEnd(blocks) > 0
    requires SetsUp(blocks, log, states[0].snd, states[0].log)
    ensures Counted(blocks, states[k].snd) && states[k].snd.count > 0
  {
    hide Step, Count;
    if k > 0 {
      CounterNeverZero(blocks, log, states, actions, k - 1);
      StepCounted(blocks, states[k - 1], actions[k - 1], states[k]);
    }
    var bm := states[k].snd.bm;
    CountToZero(bm, |bm| * 64);
    CountIs(bm);
    assert RamEnd(blocks) < |bm| * 64 || Spills(RamEnd(blocks));
  }
}
