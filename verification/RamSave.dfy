/** arch_init.c: the sender's cyclic scan over the RAM blocks. */
module RamSave {
  import opened Basics
  import opened Words
  import opened Bitops
  import opened RamWire

  /** Pages [lo, hi) of block `b` are clean. */
  ghost predicate Clean(bm: seq<Word>, b: Block, lo: nat, hi: nat)
    requires b.base + hi <= |bm| * 64
  {
    forall q: nat :: b.base + lo <= q < b.base + hi ==> !BitAt(bm, q)
  }

  ghost predicate AllClean(bm: seq<Word>, blocks: seq<Block>)
    requires ValidBlocks(blocks, |bm| * 64)
  {
    forall i :: 0 <= i < |blocks| ==> Clean(bm, blocks[i], 0, blocks[i].pages)
  }

  /** The cyclic order of the scan that starts at page `o0` of block `b0`: what it has passed over by the
      time it looks at block `b` is clean. `round` says it has wrapped around. */
  ghost predicate Passed(bm: seq<Word>, blocks: seq<Block>, b0: nat, o0: nat, b: nat, round: bool)
    requires ValidBlocks(blocks, |bm| * 64) && b0 < |blocks| && b <= |blocks|
  {
    && (round || b > b0 ==> Clean(bm, blocks[b0], o0, blocks[b0].pages))
    && (forall i :: b0 < i < |blocks| && (round || i < b) ==> Clean(bm, blocks[i], 0, blocks[i].pages))
    && (round ==> forall i :: 0 <= i < b ==> Clean(bm, blocks[i], 0, blocks[i].pages))
  }

  /** The scan reaches page `o` of block `b`, from the start position, over clean pages only. */
  ghost predicate FirstDirty(bm: seq<Word>, blocks: seq<Block>, b0: nat, o0: nat, b: nat, o: nat)
    requires ValidBlocks(blocks, |bm| * 64) && b0 < |blocks|
  {
    && b < |blocks| && o < blocks[b].pages && BitAt(bm, blocks[b].base + o)
    && exists round :: ReachedFrom(bm, blocks, b0, o0, b, o, round)
  }

  /** The scan gets to page `o` of block `b` in its first pass, at or behind the start, or after wrapping around. */
  ghost predicate ReachedFrom(bm: seq<Word>, blocks: seq<Block>, b0: nat, o0: nat, b: nat, o: nat, round: bool)
    requires ValidBlocks(blocks, |bm| * 64) && b0 < |blocks| && b < |blocks| && o < blocks[b].pages
  {
    && (if round then b <= b0 else b > b0 || (b == b0 && o >= o0))
    && Passed(bm, blocks, b0, o0, b, round) && Clean(bm, blocks[b], if b == b0 && !round then o0 else 0, o)
  }

  /** The cyclic order leaves no choice: from one start there is one first dirty page. */
  lemma FirstDirtyUnique(bm: seq<Word>, blocks: seq<Block>, b0: nat, o0: nat, b: nat, o: nat, c: nat, p: nat)
    requires ValidBlocks(blocks, |bm| * 64) && b0 < |blocks|
    requires FirstDirty(bm, blocks, b0, o0, b, o) && FirstDirty(bm, blocks, b0, o0, c, p)
    ensures b == c && o == p
  {
    var rb :| ReachedFrom(bm, blocks, b0, o0, b, o, rb);
    var rc :| ReachedFrom(bm, blocks, b0, o0, c, p, rc);
    NotAhead(bm, blocks, b0, o0, b, o, rb, c, p, rc);
    NotAhead(bm, blocks, b0, o0, c, p, rc, b, o, rb);
  }

  /** A dirty page is never passed over on the way to another one. */
  lemma NotAhead(bm: seq<Word>, blocks: seq<Block>, b0: nat, o0: nat, b: nat, o: nat, rb: bool, c: nat, p: nat,
                 rc: bool)
    requires ValidBlocks(blocks, |bm| * 64) && b0 < |blocks|
    requires b < |blocks| && o < blocks[b].pages && BitAt(bm, blocks[b].base + o)
             && ReachedFrom(bm, blocks, b0, o0, b, o, rb)
    requires c < |blocks| && p < blocks[c].pages && BitAt(bm, blocks[c].base + p)
             && ReachedFrom(bm, blocks, b0, o0, c, p, rc)
    ensures rb ==> rc
    ensures rb == rc ==> b <= c && (b == c ==> o <= p)
  {
  }

  /** The sender's globals as a value. */
  datatype Sender = Sender(bm: seq<Word>, count: int, last: Option<nat>, lastOffset: nat, stream: seq<Byte>)

  ghost predicate ValidSender(blocks: seq<Block>, s: Sender)
  {
    && ValidBlocks(blocks, |s.bm| * 64)
    && match s.last {
         case None => s.lastOffset == 0
         case Some(b) => b < |blocks| && s.lastOffset <= blocks[b].pages
       }
  }

  function StartBlock(s: Sender): nat
  {
    if s.last.Some? then s.last.value else 0
  }

  /** One page sent: the first dirty one in cyclic order. Its bit and nothing else is cleared, and what goes on
      the stream is that page, marked as a continuation exactly when its block is the previous one. */
  ghost predicate SendsPage(blocks: seq<Block>, mem: seq<Page>, s: Sender, s': Sender)
    requires ValidSender(blocks, s) && |mem| == |s.bm| * 64
  {
    && s'.last.Some?
    && FirstDirty(s.bm, blocks, StartBlock(s), s.lastOffset, s'.last.value, s'.lastOffset)
    && var b := blocks[s'.last.value];
    && BitUpdated(s.bm, s'.bm, b.base + s'.lastOffset, false)
    && s'.count == s.count - 1
    && s'.stream == s.stream + EncodePage(b, s'.lastOffset, s'.last == s.last, mem[b.base + s'.lastOffset])
  }

  /** Page `q` belongs to some RAM block. */
  ghost predicate Owned(blocks: seq<Block>, q: nat)
  {
    exists i :: 0 <= i < |blocks| && blocks[i].base <= q < blocks[i].base + blocks[i].pages
  }

  /** No dirty page is ahead of the first one: in the cyclic order of the scan, the pages at or behind the start
      position come first, then the others, both by block and offset. */
  lemma FirstIsFirst(bm: seq<Word>, blocks: seq<Block>, b0: nat, o0: nat, b: nat, o: nat, c: nat, p: nat)
    requires ValidBlocks(blocks, |bm| * 64) && b0 < |blocks| && FirstDirty(bm, blocks, b0, o0, b, o)
    requires c < |blocks| && p < blocks[c].pages && BitAt(bm, blocks[c].base + p)
    ensures b < |blocks| && o < blocks[b].pages && BitAt(bm, blocks[b].base + o)
    ensures c > b0 || (c == b0 && p >= o0) ==> b > b0 || (b == b0 && o >= o0)
    ensures (c > b0 || (c == b0 && p >= o0)) == (b > b0 || (b == b0 && o >= o0)) ==> b < c || (b == c && o <= p)
  {
    hide BitAt, ValidBlocks;
    var round :| ReachedFrom(bm, blocks, b0, o0, b, o, round);
    assert !(b > b0 || (b == b0 && o >= o0)) ==> round;
  }

  /** What sending a page does: the page is the first dirty one from the position of the last one sent, or from the
      start; its bit alone is cleared, the counter goes down by one, and its record carries flag 20 exactly if its block
      is that of the last one. */
  lemma SendIs(blocks: seq<Block>, mem: seq<Page>, s: Sender, s': Sender)
    requires ValidSender(blocks, s) && |mem| == |s.bm| * 64 && SendsPage(blocks, mem, s, s')
    ensures s'.last.Some? && s'.last.value < |blocks| && s'.lastOffset < blocks[s'.last.value].pages
    ensures var b0 := if s.last.Some? then s.last.value else 0;
            FirstDirty(s.bm, blocks, b0, s.lastOffset, s'.last.value, s'.lastOffset)
    ensures var q := blocks[s'.last.value].base + s'.lastOffset;
            && q < |s.bm| * 64 == |s'.bm| * 64 && s'.count == s.count - 1
            && forall i: nat :: i < |s.bm| * 64 ==> BitAt(s'.bm, i) == (i != q && BitAt(s.bm, i))
    ensures |s'.stream| >= |s.stream| + 8 && s'.stream[..|s.stream|] == s.stream
    ensures s'.stream[|s.stream| + 7] as int / 32 % 2 == 1 <==> s.last == s'.last
  {
    hide FirstDirty, EncodePage;
    FirstInside(s.bm, blocks, StartBlock(s), s.lastOffset, s'.last.value, s'.lastOffset);
    var b, off := blocks[s'.last.value], s'.lastOffset;
    RecordBytes(b, off, s'.last == s.last, mem[b.base + off]);
    var rec := EncodePage(b, off, s'.last == s.last, mem[b.base + off]);
    assert s'.stream[|s.stream| + 7] == rec[7];
  }

  lemma FirstInside(bm: seq<Word>, blocks: seq<Block>, b0: nat, o0: nat, b: nat, o: nat)
    requires ValidBlocks(blocks, |bm| * 64) && b0 < |blocks| && FirstDirty(bm, blocks, b0, o0, b, o)
    ensures b < |blocks| && o < blocks[b].pages && blocks[b].base + o < |bm| * 64 && BitAt(bm, blocks[b].base + o)
  {
  }

  /** The guest's dirty log moved into the bitmap, page by page, and cleared. */
  ghost predicate Syncs(blocks: seq<Block>, s: Sender, log: set<nat>, s': Sender, log': set<nat>)
    requires ValidSender(blocks, s)
  {
    && |s'.bm| == |s.bm| && s' == s.(bm := s'.bm, count := s'.count)
    && s'.count - Count(s'.bm) == s.count - Count(s.bm)
    && log' <= log
    && forall q: nat :: q < |s.bm| * 64 ==>
         && (Owned(blocks, q) ==> q !in log')
         && (!Owned(blocks, q) ==> (q in log' <==> q in log))
         && BitAt(s'.bm, q) == (BitAt(s.bm, q) || (Owned(blocks, q) && q in log))
  }

  /** A block without a dirty page from where the scan entered it has been passed over. */
  lemma PassBlock(bm: seq<Word>, blocks: seq<Block>, b0: nat, o0: nat, b: nat, round: bool)
    requires ValidBlocks(blocks, |bm| * 64) && b0 < |blocks| && b < |blocks| && (round || b0 <= b)
    requires Passed(bm, blocks, b0, o0, b, round)
    requires Clean(bm, blocks[b], if b == b0 && !round then o0 else 0, blocks[b].pages)
    ensures Passed(bm, blocks, b0, o0, b + 1, round)
  {
  }

  /** At the end of the list the scan restarts; having started from page 0 of block 0 it has then seen everything. */
  lemma WrapAround(bm: seq<Word>, blocks: seq<Block>, b0: nat, o0: nat, round: bool)
    requires ValidBlocks(blocks, |bm| * 64) && b0 < |blocks|
    requires Passed(bm, blocks, b0, o0, |blocks|, round)
    ensures Passed(bm, blocks, b0, o0, 0, true)
    ensures (b0 == 0 && o0 == 0) || round ==> AllClean(bm, blocks)
  {
  }

  /** Back at the start position nothing can have been found there again, and nothing is dirty anywhere. */
  lemma FullRound(bm: seq<Word>, blocks: seq<Block>, b0: nat, o0: nat, off: nat)
    requires ValidBlocks(blocks, |bm| * 64) && b0 < |blocks| && o0 <= off <= blocks[b0].pages
    requires Passed(bm, blocks, b0, o0, b0, true) && Clean(bm, blocks[b0], 0, off)
    requires off < blocks[b0].pages ==> BitAt(bm, blocks[b0].base + off)
    ensures off == blocks[b0].pages && AllClean(bm, blocks)
  {
  }

  class RamState {
    const blocks: seq<Block>
    const migrationBitmap: array<Word>
    var dirtyPages: int
    var lastBlock: Option<nat>
    var lastOffset: nat
    var stream: seq<Byte>

    function Snapshot(): Sender
      reads this, migrationBitmap
    {
      Sender(migrationBitmap[..], dirtyPages, lastBlock, lastOffset, stream)
    }

    ghost predicate Valid()
      reads this, migrationBitmap
    {
      ValidSender(blocks, Snapshot())
    }

    constructor (blocks: seq<Block>, bitmap: array<Word>, dirtyPages: int)
      requires ValidBlocks(blocks, bitmap.Length * 64)
      ensures Valid() && lastBlock == None && stream == []
      ensures this.blocks == blocks && migrationBitmap == bitmap && this.dirtyPages == dirtyPages
    {
      this.blocks, migrationBitmap, this.dirtyPages := blocks, bitmap, dirtyPages;
      lastBlock, lastOffset, stream := None, 0, [];
    }

    /** `migration_bitmap_find_and_reset_dirty` */
    method FindAndResetDirty(b: nat, start: nat) returns (off: nat)
      requires Valid() && b < |blocks| && start <= blocks[b].pages
      modifies this`dirtyPages, migrationBitmap
      ensures start <= off <= blocks[b].pages
      ensures Clean(old(migrationBitmap[..]), blocks[b], start, off)
      ensures if off < blocks[b].pages then
                && old(BitAt(migrationBitmap[..], blocks[b].base + off))
                && BitUpdated(old(migrationBitmap[..]), migrationBitmap[..], blocks[b].base + off, false)
                && dirtyPages == old(dirtyPages) - 1
              else
                migrationBitmap[..] == old(migrationBitmap[..]) && dirtyPages == old(dirtyPages)
    {
      var base := blocks[b].base;
      var size := base + blocks[b].pages;
      var next := FindNextBit(migrationBitmap, size, base + start);
      ScanIsLeast(migrationBitmap[..], size, base + start, true);
      if next < size {
        ClearBit(next, migrationBitmap);
        dirtyPages := dirtyPages - 1;
      }
      off := next - base;
    }

    /** `ram_save_block` without XBZRLE. Never clears a bit without sending that page: the first dirty page in
        cyclic order is sent, and None (-1) is returned only when no page of any block is dirty. */
    method RamSaveBlock(mem: seq<Page>) returns (sent: Option<nat>)
      requires Valid() && |mem| == migrationBitmap.Length * 64
      requires lastBlock.Some? || !AllClean(migrationBitmap[..], blocks)
      modifies this`dirtyPages, this`lastBlock, this`lastOffset, this`stream, migrationBitmap
      ensures Valid()
      ensures sent.None? ==> AllClean(old(migrationBitmap[..]), blocks) && lastBlock.Some?
                             && Snapshot() == old(Snapshot()).(lastOffset := lastOffset)
      ensures sent.Some? ==> SendsPage(blocks, mem, old(Snapshot()), Snapshot())
      ensures sent.Some? ==> sent.value == if Uniform(mem[blocks[lastBlock.value].base + lastOffset]) then 1 else 4096
    {
      hide FirstDirty, BitUpdated, AllClean, EncodePage, Uniform;
      var found, block, off := FindDirty();
      if found {
        var bytes := SendPage(mem, block, off);
        return Some(bytes);
      }
      lastBlock, lastOffset := Some(block), off;
      sent := None;
    }

    /** The search of `ram_save_block`: the loop up to its two exits. */
    method FindDirty() returns (found: bool, block: nat, off: nat)
      requires Valid() && (lastBlock.Some? || !AllClean(migrationBitmap[..], blocks))
      modifies this`dirtyPages, migrationBitmap
      ensures if found then
                && FirstDirty(old(migrationBitmap[..]), blocks, StartBlock(Snapshot()), lastOffset, block, off)
                && BitUpdated(old(migrationBitmap[..]), migrationBitmap[..], blocks[block].base + off, false)
                && dirtyPages == old(dirtyPages) - 1
              else
                && AllClean(old(migrationBitmap[..]), blocks) && migrationBitmap[..] == old(migrationBitmap[..])
                && dirtyPages == old(dirtyPages) && lastBlock == Some(block) && off == blocks[block].pages
    {
      ghost var bm := migrationBitmap[..];
      ghost var b0, o0 := StartBlock(Snapshot()), lastOffset;
      block := StartBlock(Snapshot());
      var offset := lastOffset;
      var round := false;
      while true
        invariant block < |blocks| && offset <= blocks[block].pages
        invariant migrationBitmap[..] == bm && dirtyPages == old(dirtyPages)
        invariant offset == if block == b0 && !round then o0 else 0
        invariant Passed(bm, blocks, b0, o0, block, round)
        invariant !round ==> b0 <= block
        invariant round ==> block <= b0 && lastBlock.Some?
        decreases !round, |blocks| - block
      {
        off := FindAndResetDirty(block, offset);
        if round && lastBlock == Some(block) && off >= lastOffset {
          FullRound(bm, blocks, b0, o0, off);
          return false, block, off;
        }
        if off >= blocks[block].pages {
          PassBlock(bm, blocks, b0, o0, block, round);
          block := block + 1;
          offset := 0;
          if block == |blocks| {
            WrapAround(bm, blocks, b0, o0, round);
            block := 0;
            round := true;
          }
        } else {
          assert ReachedFrom(bm, blocks, b0, o0, block, off, round);
          return true, block, off;
        }
      }
    }

    /** The sending branch of `ram_save_block`. */
    method SendPage(mem: seq<Page>, block: nat, off: nat) returns (bytes: nat)
      requires Valid() && |mem| == migrationBitmap.Length * 64 && block < |blocks| && off < blocks[block].pages
      modifies this`lastBlock, this`lastOffset, this`stream
      ensures Valid() && lastBlock == Some(block) && lastOffset == off
      ensures bytes == if Uniform(mem[blocks[block].base + off]) then 1 else 4096
      ensures stream == old(stream) + EncodePage(blocks[block], off, old(lastBlock) == Some(block),
                                                 mem[blocks[block].base + off])
    {
      var p := mem[blocks[block].base + off];
      var cont := lastBlock == Some(block);
      var dup := IsDupPage(p, 16, 256);
      if dup {
        stream := stream + (SaveBlockHdr(blocks[block], off, cont, FLAG_COMPRESS) + [p[0]]);
        bytes := 1;
      } else {
        stream := stream + (SaveBlockHdr(blocks[block], off, cont, FLAG_PAGE) + p);
        bytes := 4096;
      }
      lastBlock, lastOffset := Some(block), off;
    }

    /** One page of `migration_bitmap_sync`: test-and-clear in the dirty log, set in the migration bitmap. */
    method SyncPage(q: nat, log: set<nat>) returns (log': set<nat>)
      requires q < migrationBitmap.Length * 64
      modifies this`dirtyPages, migrationBitmap
      ensures log' == log - {q}
      ensures if q in log then BitUpdated(old(migrationBitmap[..]), migrationBitmap[..], q, true)
              else migrationBitmap[..] == old(migrationBitmap[..])
      ensures dirtyPages - Count(migrationBitmap[..]) == old(dirtyPages - Count(migrationBitmap[..]))
    {
      log' := log;
      if q in log {
        log' := log - {q};
        var was := TestAndSetBit(q, migrationBitmap);
        if !was {
          dirtyPages := dirtyPages + 1;
        }
        CountToUpdate(old(migrationBitmap[..]), migrationBitmap[..], q, true, migrationBitmap.Length * 64);
      }
    }

    /** `migration_bitmap_sync` */
    method BitmapSync(log: set<nat>) returns (log': set<nat>)
      requires Valid()
      modifies this`dirtyPages, migrationBitmap
      ensures Valid() && Syncs(blocks, old(Snapshot()), log, Snapshot(), log')
    {
      ghost var bm := migrationBitmap[..];
      ghost var done: set<nat> := {};
      assert SyncedSoFar(bm, bm, log, log, done);
      hide SyncedSoFar, BitUpdated, Count;
      log' := log;
      var i := 0;
      while i < |blocks|
        invariant 0 <= i <= |blocks|
        invariant dirtyPages - Count(migrationBitmap[..]) == old(dirtyPages - Count(migrationBitmap[..]))
        invariant SyncedSoFar(bm, migrationBitmap[..], log, log', done)
        invariant forall q :: q in done ==> Owned(blocks, q)
        invariant forall k: nat :: k < i ==> Covers(done, blocks[k], blocks[k].pages)
      {
        var addr: nat := 0;
        while addr < blocks[i].pages
          invariant addr <= blocks[i].pages
          invariant dirtyPages - Count(migrationBitmap[..]) == old(dirtyPages - Count(migrationBitmap[..]))
          invariant SyncedSoFar(bm, migrationBitmap[..], log, log', done)
          invariant forall q :: q in done ==> Owned(blocks, q)
          invariant forall k: nat :: k < i ==> Covers(done, blocks[k], blocks[k].pages)
          invariant Covers(done, blocks[i], addr)
        {
          ghost var before, logBefore := migrationBitmap[..], log';
          var q := blocks[i].base + addr;
          log' := SyncPage(q, log');
          SyncOne(bm, before, migrationBitmap[..], log, logBefore, done, q);
          done := done + {q};
          addr := addr + 1;
        }
        i := i + 1;
      }
      AllSynced(blocks, old(Snapshot()), Snapshot(), log, log', done);
    }

    /** `ram_save_complete`, the guest being stopped: whatever pages were dirty or logged, the receiver ends up with
        the guest's memory. */
    method RamSaveComplete(mem: seq<Page>, log: set<nat>, ghost r: Recv)
      requires Valid() && Consistent(blocks, mem, log, Snapshot(), r)
      requires lastBlock.Some?
               || exists q: nat :: q < |mem| && Owned(blocks, q) && (BitAt(migrationBitmap[..], q) || q in log)
      modifies this`dirtyPages, this`lastBlock, this`lastOffset, this`stream, migrationBitmap
      ensures Load(blocks, r, stream).Some?
      ensures forall q: nat :: q < |mem| && Owned(blocks, q) ==>
                q < |Load(blocks, r, stream).value.mem| && Load(blocks, r, stream).value.mem[q] == mem[q]
    {
      var log' := BitmapSync(log);
      SyncKeeps(blocks, mem, old(Snapshot()), log, Snapshot(), log', r);
      SomePageDirty(blocks, old(Snapshot()), log, Snapshot(), log');
      while true
        invariant Valid() && Consistent(blocks, mem, log', Snapshot(), r)
        invariant lastBlock.Some? || !AllClean(migrationBitmap[..], blocks)
        invariant forall q: nat :: q < |mem| && Owned(blocks, q) ==> q !in log'
        decreases Count(migrationBitmap[..])
      {
        ghost var s := Snapshot();
        var sent := RamSaveBlock(mem);
        if sent.None? {
          break;
        }
        SendKeeps(blocks, mem, log', s, Snapshot(), r);
      }
      DrainedMeansEqual(blocks, mem, log', Snapshot(), r);
      FinishSection(blocks, r, stream);
      stream := stream + EOS;
    }
  }

  // ---- one page of the sync loop ----

  /** The pages of `b` below `addr` are among those done. */
  ghost predicate Covers(done: set<nat>, b: Block, addr: nat)
  {
    forall q: nat :: b.base <= q < b.base + addr ==> q in done
  }

  /** Exactly the done pages have moved from the log into the bitmap. */
  ghost predicate SyncedSoFar(bm: seq<Word>, bm': seq<Word>, log: set<nat>, log': set<nat>, done: set<nat>)
  {
    && |bm'| == |bm| && log' == log - done
    && forall q: nat :: q < |bm| * 64 ==> BitAt(bm', q) == (BitAt(bm, q) || (q in done && q in log))
  }

  lemma SyncOne(bm: seq<Word>, before: seq<Word>, after: seq<Word>, log: set<nat>, logBefore: set<nat>, done: set<nat>,
                q: nat)
    requires SyncedSoFar(bm, before, log, logBefore, done) && q < |bm| * 64
    requires if q in logBefore then BitUpdated(before, after, q, true) else after == before
    ensures SyncedSoFar(bm, after, log, logBefore - {q}, done + {q})
  {
  }

  lemma AllSynced(blocks: seq<Block>, s: Sender, s': Sender, log: set<nat>, log': set<nat>, done: set<nat>)
    requires ValidSender(blocks, s) && s' == s.(bm := s'.bm, count := s'.count)
    requires s'.count - Count(s'.bm) == s.count - Count(s.bm)
    requires SyncedSoFar(s.bm, s'.bm, log, log', done)
    requires forall q :: q in done ==> Owned(blocks, q)
    requires forall k: nat :: k < |blocks| ==> Covers(done, blocks[k], blocks[k].pages)
    ensures Syncs(blocks, s, log, s', log')
  {
    forall q: nat | q < |s.bm| * 64
      ensures Owned(blocks, q) <==> q in done
    {
      if Owned(blocks, q) {
        var i: nat :| i < |blocks| && blocks[i].base <= q < blocks[i].base + blocks[i].pages;
        assert Covers(done, blocks[i], blocks[i].pages);
      }
    }
  }

  // ---- sender and receiver ----

  /** Sender and receiver agree: the stream so far loads, the receiver's remembered block is a non-null `last_block`,
      and every page of a RAM block that is in neither the bitmap nor the guest's log is equal on both sides. */
  ghost predicate Consistent(blocks: seq<Block>, mem: seq<Page>, log: set<nat>, s: Sender, r: Recv)
  {
    && ValidSender(blocks, s) && |mem| == |s.bm| * 64
    && Load(blocks, r, s.stream).Some?
    && var recv := Load(blocks, r, s.stream).value;
    && |recv.mem| == |mem|
    && (s.last.Some? ==> recv.block == s.last)
    && forall q: nat :: q < |mem| && Owned(blocks, q) && !BitAt(s.bm, q) && q !in log ==> recv.mem[q] == mem[q]
  }

  /** Sending a page, in any consistent state, keeps sender and receiver consistent. */
  lemma SendKeeps(blocks: seq<Block>, mem: seq<Page>, log: set<nat>, s: Sender, s': Sender, r: Recv)
    requires Consistent(blocks, mem, log, s, r) && SendsPage(blocks, mem, s, s')
    ensures Consistent(blocks, mem, log, s', r)
    ensures Count(s'.bm) < Count(s.bm) && s'.count - Count(s'.bm) == s.count - Count(s.bm)
  {
    hide Load, LoadOne, EncodePage, Passed, Clean, BitAt, Scan;
    var b, off := s'.last.value, s'.lastOffset;
    var q, cont := blocks[b].base + off, s'.last == s.last;
    var recv := Load(blocks, r, s.stream).value;
    LoadPage(blocks, |mem|, b, off, cont, mem[q], r, s.stream);
    CountToUpdate(s.bm, s'.bm, q, false, |s.bm| * 64);
  }

  /** Appending one page record to a stream that loads. */
  lemma LoadPage(blocks: seq<Block>, nbits: nat, b: nat, off: nat, cont: bool, page: Page, r: Recv, stream: seq<Byte>)
    requires ValidBlocks(blocks, nbits) && b < |blocks| && off < blocks[b].pages
    requires Load(blocks, r, stream).Some? && |Load(blocks, r, stream).value.mem| == nbits
    requires cont ==> Load(blocks, r, stream).value.block == Some(b)
    ensures var recv := Load(blocks, r, stream).value;
            Load(blocks, r, stream + EncodePage(blocks[b], off, cont, page))
              == Some(Recv(recv.mem[blocks[b].base + off := page], Some(b)))
  {
    hide LoadOne, EncodePage;
    var recv, enc := Load(blocks, r, stream).value, EncodePage(blocks[b], off, cont, page);
    LoadAppend(blocks, r, stream, enc);
    PageRoundTrip(blocks, nbits, b, off, cont, page, recv, []);
    assert enc + [] == enc;
  }

  lemma SyncKeeps(blocks: seq<Block>, mem: seq<Page>, s: Sender, log: set<nat>, s': Sender, log': set<nat>, r: Recv)
    requires Consistent(blocks, mem, log, s, r) && Syncs(blocks, s, log, s', log')
    ensures Consistent(blocks, mem, log', s', r)
  {
    hide Load, Owned, BitAt;
  }

  /** A page that was dirty or logged makes the bitmap dirty once the log is synced. */
  lemma SomePageDirty(blocks: seq<Block>, s: Sender, log: set<nat>, s': Sender, log': set<nat>)
    requires ValidSender(blocks, s) && Syncs(blocks, s, log, s', log')
    requires s.last.Some? || exists q: nat :: q < |s.bm| * 64 && Owned(blocks, q) && (BitAt(s.bm, q) || q in log)
    ensures s'.last.Some? || !AllClean(s'.bm, blocks)
  {
    if s.last.None? {
      var q: nat :| q < |s.bm| * 64 && Owned(blocks, q) && (BitAt(s.bm, q) || q in log);
      var i: nat :| i < |blocks| && blocks[i].base <= q < blocks[i].base + blocks[i].pages;
      assert BitAt(s'.bm, q);
      assert !Clean(s'.bm, blocks[i], 0, blocks[i].pages);
    }
  }

  /** With nothing dirty and nothing logged, consistency is equality of all RAM. */
  lemma DrainedMeansEqual(blocks: seq<Block>, mem: seq<Page>, log: set<nat>, s: Sender, r: Recv)
    requires Consistent(blocks, mem, log, s, r) && AllClean(s.bm, blocks)
    requires forall q: nat :: q < |mem| && Owned(blocks, q) ==> q !in log
    ensures forall q: nat :: q < |mem| && Owned(blocks, q) ==> Load(blocks, r, s.stream).value.mem[q] == mem[q]
  {
    hide Load;
    forall q: nat | q < |mem| && Owned(blocks, q)
      ensures !BitAt(s.bm, q)
    {
      var i: nat :| i < |blocks| && blocks[i].base <= q < blocks[i].base + blocks[i].pages;
      assert Clean(s.bm, blocks[i], 0, blocks[i].pages);
    }
  }

  /** The end-of-section mark adds nothing to what has been loaded. */
  lemma FinishSection(blocks: seq<Block>, r: Recv, stream: seq<Byte>)
    requires Load(blocks, r, stream).Some?
    ensures Load(blocks, r, stream + EOS) == Load(blocks, r, stream)
  {
    hide LoadOne;
    LoadAppend(blocks, r, stream, EOS);
    EosRoundTrip(blocks, Load(blocks, r, stream).value, []);
    assert EOS + [] == EOS;
  }
}
