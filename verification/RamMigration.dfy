/** arch_init.c: live RAM migration as runs of guest writes, log syncs and page sends. */
module RamMigration {
  import opened Basics
  import opened Words
  import opened Bitops
  import opened RamWire
  import opened RamSave

  datatype System = System(mem: seq<Page>, log: set<nat>, snd: Sender)

  datatype Action =
    | GuestWrite(q: nat, page: Page)  // the guest writes a page; its dirty log records it
    | Sync                            // migration_bitmap_sync
    | Send                            // ram_save_block finds a page
    | Idle                            // ram_save_block finds none
    | EndSection                      // the end-of-section mark of ram_save_iterate
    | Reset                           // reset_ram_globals, when the block list version changed

  ghost predicate Step(blocks: seq<Block>, s: System, a: Action, s': System)
  {
    && ValidSender(blocks, s.snd) && |s.mem| == |s.snd.bm| * 64
    && match a
       case GuestWrite(q, page) => q < |s.mem| && s' == s.(mem := s.mem[q := page], log := s.log + {q})
       case Sync => Syncs(blocks, s.snd, s.log, s'.snd, s'.log) && s'.mem == s.mem
       case Send => SendsPage(blocks, s.mem, s.snd, s'.snd) && s' == s.(snd := s'.snd)
       case Idle => && AllClean(s.snd.bm, blocks) && s.snd.last.Some?
                    && s' == s.(snd := s.snd.(lastOffset := blocks[s.snd.last.value].pages))
       case EndSection => s' == s.(snd := s.snd.(stream := s.snd.stream + EOS))
       case Reset => s' == s.(snd := s.snd.(last := None, lastOffset := 0))
  }

  ghost predicate IsRun(blocks: seq<Block>, states: seq<System>, actions: seq<Action>)
  {
    && |states| == |actions| + 1
    && forall k: nat :: k < |actions| ==> Step(blocks, states[k], actions[k], states[k + 1])
  }

  ghost predicate InSync(blocks: seq<Block>, s: System, r: Recv)
  {
    Consistent(blocks, s.mem, s.log, s.snd, r)
  }

  lemma StepKeeps(blocks: seq<Block>, s: System, a: Action, s': System, r: Recv)
    requires InSync(blocks, s, r) && Step(blocks, s, a, s')
    ensures InSync(blocks, s', r)
    ensures s'.snd.count - Count(s'.snd.bm) == s.snd.count - Count(s.snd.bm)
  {
    match a
    case Sync => SyncKeeps(blocks, s.mem, s.snd, s.log, s'.snd, s'.log, r);
    case Send => SendKeeps(blocks, s.mem, s.log, s.snd, s'.snd, r);
    case EndSection => FinishSection(blocks, r, s.snd.stream);
    case _ => hide Load, BitAt, Owned;
  }

  /** In every run from a consistent start, at every moment: any page of a RAM block in neither the migration bitmap nor
      the guest's log is equal on both sides, the receiver's remembered block equals a non-null `last_block`, and the
      counter keeps its distance from the number of set bits. */
  lemma {:induction false} MigrationIsConsistent(blocks: seq<Block>, states: seq<System>, actions: seq<Action>, r: Recv,
                                                 k: nat)
    requires IsRun(blocks, states, actions) && k < |states| && InSync(blocks, states[0], r)
    ensures InSync(blocks, states[k], r)
    ensures states[k].snd.count - Count(states[k].snd.bm) == states[0].snd.count - Count(states[0].snd.bm)
  {
    hide Consistent, Step;
    if k > 0 {
      MigrationIsConsistent(blocks, states, actions, r, k - 1);
      StepKeeps(blocks, states[k - 1], actions[k - 1], states[k], r);
    }
  }

  /** At any moment of a run at which nothing is dirty or logged, the receiver holds the guest's whole RAM. */
  lemma QuiescentMeansEqual(blocks: seq<Block>, states: seq<System>, actions: seq<Action>, r: Recv, k: nat)
    requires IsRun(blocks, states, actions) && k < |states| && InSync(blocks, states[0], r)
    requires |states[k].mem| == |states[k].snd.bm| * 64 && ValidBlocks(blocks, |states[k].mem|)
    requires AllClean(states[k].snd.bm, blocks)
    requires forall q: nat :: q < |states[k].mem| && Owned(blocks, q) ==> q !in states[k].log
    ensures Load(blocks, r, states[k].snd.stream).Some?
    ensures var recv := Load(blocks, r, states[k].snd.stream).value;
            forall q: nat :: q < |states[k].mem| && Owned(blocks, q) ==>
                q < |recv.mem| && recv.mem[q] == states[k].mem[q]
  {
    MigrationIsConsistent(blocks, states, actions, r, k);
    DrainedMeansEqual(blocks, states[k].mem, states[k].log, states[k].snd, r);
  }

  // ---- termination of the search ----

  datatype Cursor = Cursor(block: nat, offset: nat, round: bool)

  datatype Turn = Stop | Found(block: nat, off: int) | Go(next: Cursor)

  /** One turn of the loop of `ram_save_block`. */
  function SearchTurn(bm: seq<Word>, blocks: seq<Block>, last: Option<nat>, lastOffset: nat, c: Cursor): (t: Turn)
    requires c.block < |blocks| && blocks[c.block].base + blocks[c.block].pages <= |bm| * 64
  {
    var b := blocks[c.block];
    var off := Scan(bm, b.base + b.pages, b.base + c.offset, true) - b.base;
    if c.round && last == Some(c.block) && off >= lastOffset then Stop
    else if off >= b.pages then
      Go(if c.block + 1 == |blocks| then Cursor(0, 0, true) else Cursor(c.block + 1, 0, c.round))
    else Found(c.block, off)
  }

  /** The loop has not ended within `n` turns. */
  ghost predicate StillSearching(bm: seq<Word>, blocks: seq<Block>, last: Option<nat>, lastOffset: nat, c: Cursor,
                                 n: nat)
    requires ValidBlocks(blocks, |bm| * 64) && c.block < |blocks|
    decreases n
  {
    n == 0 ||
    var t := SearchTurn(bm, blocks, last, lastOffset, c);
    t.Go? && StillSearching(bm, blocks, last, lastOffset, t.next, n - 1)
  }

  /** The stop test compares with `last_block`, so with a null `last_block` and nothing dirty the search never ends. */
  lemma {:induction false} SearchNeverEnds(bm: seq<Word>, blocks: seq<Block>, c: Cursor, n: nat)
    requires ValidBlocks(blocks, |bm| * 64) && c.block < |blocks| && AllClean(bm, blocks)
    ensures StillSearching(bm, blocks, None, 0, c, n)
    decreases n
  {
    if n > 0 {
      var b := blocks[c.block];
      assert Clean(bm, b, 0, b.pages);
      ScanIsLeast(bm, b.base + b.pages, b.base + c.offset, true);
      SearchNeverEnds(bm, blocks, SearchTurn(bm, blocks, None, 0, c).next, n - 1);
    }
  }

  /** With a block sent before, the search that finds nothing comes back to where it began, and ends there. */
  lemma {:induction false} SearchEnds(bm: seq<Word>, blocks: seq<Block>, b: nat, lastOffset: nat, c: Cursor, n: nat)
    requires ValidBlocks(blocks, |bm| * 64) && b < |blocks| && lastOffset <= blocks[b].pages && AllClean(bm, blocks)
    requires if c.round then c.block <= b else b <= c.block < |blocks|
    requires n > if c.round then b - c.block else |blocks| - c.block + b
    ensures !StillSearching(bm, blocks, Some(b), lastOffset, c, n)
    decreases n
  {
    var block := blocks[c.block];
    assert Clean(bm, block, 0, block.pages);
    ScanIsLeast(bm, block.base + block.pages, block.base + c.offset, true);
    var t := SearchTurn(bm, blocks, Some(b), lastOffset, c);
    if t.Go? {
      SearchEnds(bm, blocks, b, lastOffset, t.next, n - 1);
    }
  }

  /** A dirty page in the block it looks at stops it there, at the first one from the offset on. */
  lemma SearchFinds(bm: seq<Word>, blocks: seq<Block>, last: Option<nat>, lastOffset: nat, c: Cursor, off: nat)
    requires ValidBlocks(blocks, |bm| * 64) && c.block < |blocks| && c.offset <= off < blocks[c.block].pages
    requires BitAt(bm, blocks[c.block].base + off) && Clean(bm, blocks[c.block], c.offset, off)
    requires !(c.round && last == Some(c.block) && off >= lastOffset)
    ensures SearchTurn(bm, blocks, last, lastOffset, c) == Found(c.block, off)
  {
    var block := blocks[c.block];
    ScanIsLeast(bm, block.base + block.pages, block.base + c.offset, true);
  }

  /** Whenever everything is clean, a reset of the scan (as after a change of the block list) leads to a search that
      never ends. */
  lemma ResetNeverEnds(blocks: seq<Block>, s: System, s': System, n: nat)
    requires Step(blocks, s, Reset, s') && AllClean(s.snd.bm, blocks)
    ensures s'.snd.last == None && AllClean(s'.snd.bm, blocks)
    ensures StillSearching(s'.snd.bm, blocks, s'.snd.last, s'.snd.lastOffset, Cursor(0, 0, false), n)
  {
    SearchNeverEnds(s.snd.bm, blocks, Cursor(0, 0, false), n);
  }
}
