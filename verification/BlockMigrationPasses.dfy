/** block-migration.c: the passes over the devices, as the source runs them. */
module BlockMigrationPasses {
  import opened Basics
  import opened BlockMigration
  import opened BlockMigrationRuns
  import ImageChain

  const MAX_IS_ALLOCATED_SEARCH: nat := 65536

  /** `block_mig_state`, with the devices it migrates and their destination. `nextId` stands for the next block
      to be allocated. */
  class BlkMigState {
    var devs: seq<Dev>
    var curDirty: seq<nat>
    var disk: map<Key, Data>
    var dest: map<Key, Data>
    var dirty: set<Key>
    var inflight: set<Key>
    var aios: map<nat, Read>
    var blkList: seq<Block>
    var nextId: nat
    var submitted: int
    var readDone: int
    var transferred: int
    ghost var chunks: set<Key>
    ghost var writers: multiset<Key>
    ghost var issued: nat

    ghost predicate Valid()
      reads this
    {
      && submitted >= 0 && readDone >= 0 && transferred >= 0
      && Shape(View())
      && |curDirty| == |devs|
      && (forall d :: 0 <= d < |curDirty| ==> curDirty[d] % 2048 == 0)
      && (forall i :: i in aios ==> i < nextId)
      && InflightPending(inflight, aios)
    }

    ghost function View(): State
      requires submitted >= 0 && readDone >= 0 && transferred >= 0
      reads this
    {
      State(chunks, devs, disk, dest, dirty, inflight, aios, blkList, writers, issued, submitted, readDone, transferred)
    }

    /** `mig_save_device_bulk`, with its caller's note that the device is completed: the first wanted chunk from the
        cursor on is submitted, or the cursor goes to the end when there is none. */
    method MigSaveDeviceBulk(d: nat) returns (sent: Option<Key>)
      requires Valid() && d < |devs| && !devs[d].bulkCompleted
      modifies this
      ensures Valid()
      ensures BulkStep(old(View()), View(), d, sent, old(nextId))
    {
      hide Shape, NextBulk, NoneWanted, InflightPending;
      ShapeDev(View(), d);
      var dev := devs[d];
      var more, cur, nr := BulkTarget(dev);
      if !more {
        BulkEndShape(View(), d);
        devs := devs[d := Advance(dev, dev.total)];
        return None;
      }
      var k := Key(d, cur / 2048);
      BulkShape(View(), k, nextId);
      IssuePending(inflight, aios, nextId, Read(k, true, None));
      aios := aios[nextId := Read(k, true, None)];
      nextId := nextId + 1;
      submitted, issued := submitted + 1, issued + 1;
      dirty := dirty - {k};
      devs := devs[d := Advance(dev, cur + nr)];
      sent := Some(k);
    }

    /** `blk_mig_save_bulked_block`: one bulk step of the first device that is not completed. */
    method SaveBulkedBlock() returns (more: bool, sent: Option<Key>, ghost d: nat)
      requires Valid()
      modifies this
      ensures Valid()
      ensures !more ==> sent == None && BulkDone(devs) && View() == old(View())
      ensures more ==> FirstOpen(old(devs), d) && BulkStep(old(View()), View(), d, sent, old(nextId))
    {
      hide Shape, BulkStep, InflightPending;
      var i: nat := 0;
      while i < |devs| && devs[i].bulkCompleted
        invariant i <= |devs| && forall e :: 0 <= e < i ==> devs[e].bulkCompleted
      {
        i := i + 1;
      }
      d := i;
      if i == |devs| {
        return false, None, d;
      }
      sent := MigSaveDeviceBulk(i);
      more := true;
    }

    /** The bulk phase, with no guest activity in between: every wanted chunk is submitted exactly once, in order, and
        nothing else is. */
    method BulkPass() returns (log: seq<Key>)
      requires Valid() && forall d :: 0 <= d < |devs| ==> devs[d].curSector == 0 && !devs[d].bulkCompleted
      modifies this
      ensures Valid() && BulkDone(devs) && chunks == old(chunks)
      ensures forall i, j :: 0 <= i < j < |log| ==>
                log[i].d < log[j].d || (log[i].d == log[j].d && log[i].c < log[j].c)
      ensures forall k :: k in log <==> WantedKey(old(devs), k)
    {
      hide Shape, InflightPending, BulkStep, Logged, Remaining, FirstOpen;
      StartLogged(devs);
      log := [];
      var more := true;
      while more
        invariant Valid() && chunks == old(chunks) && Logged(old(devs), devs, log)
        invariant !more ==> BulkDone(devs)
        decreases more, Remaining(devs)
      {
        var sent;
        ghost var s, id, d := View(), nextId, 0;
        more, sent, d := SaveBulkedBlock();
        if more {
          LogStep(old(devs), s, View(), d, sent, id, log);
          if sent.Some? {
            log := log + [sent.value];
          }
        }
      }
      EndLogged(old(devs), View(), log);
    }

    /** `blk_mig_read_cb`: the block joins `blk_list`, and its chunk is no longer in flight. */
    method ReadCb(id: nat, ok: bool)
      requires Valid() && id in aios && aios[id].sampled.Some?
      modifies this
      ensures Valid() && nextId == old(nextId) && curDirty == old(curDirty)
      ensures CanComplete(old(View()), id) && View() == Complete(old(View()), id, ok)
    {
      hide Shape, InflightPending;
      ShapeCounts(View());
      CompleteShape(View(), id, ok);
      CompletePending(inflight, aios, id);
      var r := aios[id];
      blkList := blkList + [Block(r.key, r.sampled.value, ok)];
      inflight := inflight - {r.key};
      aios := aios - {id};
      submitted := submitted - 1;
      readDone := readDone + 1;
    }

    /** `bdrv_drain_all`: every outstanding read is sampled and called back, in some order; those in `errs` fail. */
    method DrainAll(errs: set<nat>) returns (ghost order: seq<nat>)
      requires Valid()
      modifies this
      ensures Valid() && nextId == old(nextId) && curDirty == old(curDirty)
      ensures Drains(old(View()), View(), order, errs)
      ensures old(Inv(View())) ==> Inv(View())
    {
      hide Shape, InflightPending, Inv, CalledBack;
      order := [];
      CalledBackNone(View(), errs);
      while aios != map[]
        invariant Valid() && nextId == old(nextId) && curDirty == old(curDirty)
        invariant devs == old(devs) && disk == old(disk) && dest == old(dest) && dirty == old(dirty)
        invariant chunks == old(chunks) && writers == old(writers) && issued == old(issued)
                  && transferred == old(transferred)
        invariant CalledBack(old(View()), aios, blkList, order, errs)
        invariant old(Inv(View())) ==> Inv(View())
        decreases aios.Keys
      {
        var id :| id in aios;
        ReadKnown(View(), id);
        ghost var a, q := aios, blkList;
        FinishRead(id, id !in errs);
        CalledBackNext(old(View()), a, q, order, errs, id);
        order := order + [id];
      }
      NothingPending(inflight);
      ShapeCounts(View());
    }

    /** The driver fills the buffer of read `id`, if it has not yet, and calls back. */
    method FinishRead(id: nat, ok: bool)
      requires Valid() && id in aios && aios[id].key in disk
      modifies this
      ensures Valid() && nextId == old(nextId) && curDirty == old(curDirty) && aios == old(aios) - {id}
      ensures blkList == old(blkList) + [Finished(old(aios[id]), old(disk), ok)] && transferred == old(transferred)
      ensures devs == old(devs) && disk == old(disk) && dest == old(dest) && dirty == old(dirty)
      ensures chunks == old(chunks) && writers == old(writers) && issued == old(issued)
      ensures old(Inv(View())) ==> Inv(View())
    {
      hide Shape, InflightPending, Inv;
      if aios[id].sampled.None? {
        SampleShape(View(), id);
        SamplePending(inflight, aios, id, disk[aios[id].key]);
        if Inv(View()) {
          SampleKeeps(View(), id);
        }
        aios := aios[id := aios[id].(sampled := Some(disk[aios[id].key]))];
      }
      ghost var s := View();
      ReadCb(id, ok);
      assert aios == old(aios) - {id};
      if Inv(s) {
        CompleteKeeps(s, id, ok);
      }
    }

    /** The scan of `mig_save_device_dirty`: from `cur_dirty` on, past clean chunks, waiting for a read in flight. */
    method ScanDirty(d: nat, errs: set<nat>) returns (found: bool, k: Key)
      requires Valid() && d < |devs|
      modifies this
      ensures Valid() && nextId == old(nextId) && DrainedOrSame(old(View()), View())
      ensures old(Inv(View())) ==> Inv(View())
      ensures old(aios) == map[] ==> View() == old(View())
      ensures k.d == d && forall e :: 0 <= e < |devs| && e != d ==> curDirty[e] == old(curDirty[e])
      ensures old(curDirty[d]) <= curDirty[d]
      ensures forall j :: j in dirty && j.d == d && old(curDirty[d]) <= 2048 * j.c ==> curDirty[d] <= 2048 * j.c
      ensures if found then k in dirty && k !in inflight && curDirty[d] == 2048 * k.c && k in disk
              else curDirty[d] >= devs[d].total
    {
      hide Shape, InflightPending, Inv, Drains, DrainedOrSame;
      NothingDrained(View());
      found, k := false, Key(d, curDirty[d] / 2048);
      var sector := curDirty[d];
      while sector < devs[d].total
        invariant Valid() && nextId == old(nextId) && DrainedOrSame(old(View()), View())
        invariant devs == old(devs) && dirty == old(dirty) && (inflight == {} || View() == old(View()))
        invariant old(Inv(View())) ==> Inv(View())
        invariant old(aios) == map[] ==> View() == old(View())
        invariant sector == curDirty[d] >= old(curDirty[d])
        invariant forall e :: 0 <= e < |devs| && e != d ==> curDirty[e] == old(curDirty[e])
        invariant k == Key(d, sector / 2048)
        invariant forall j :: j in dirty && j.d == d && old(curDirty[d]) <= 2048 * j.c ==> sector <= 2048 * j.c
      {
        if k in inflight {
          NotIdle(View());
          ghost var order := DrainAll(errs);
          Drained(old(View()), View(), order, errs);
        }
        if k in dirty {
          DirtyKnown(View(), k);
          found := true;
          return;
        }
        PassClean(dirty, d, sector, old(curDirty[d]));
        sector := sector + 2048;
        curDirty := curDirty[d := sector];
        k := Key(d, sector / 2048);
      }
    }

    /** `mig_save_device_dirty`: at most one dirty chunk from `cur_dirty` on is read, asynchronously or at once. The
        result is 1 when the cursor has reached the end. */
    method MigSaveDeviceDirty(d: nat, isAsync: bool, failing: set<Key>, errs: set<nat>) returns (ret: int)
      requires Valid() && d < |devs| && BulkDone(devs)
      requires !isAsync ==> aios == map[] && blkList == [] && writers == multiset{}
      modifies this
      ensures Valid() && devs == old(devs) && disk == old(disk) && chunks == old(chunks)
      ensures forall e :: 0 <= e < |devs| && e != d ==> curDirty[e] == old(curDirty[e])
      ensures forall j :: j in dirty && j.d == d && old(curDirty[d]) <= 2048 * j.c ==> curDirty[d] <= 2048 * j.c
      ensures ret == 0 || ret == 1 || ret == -EIO
      ensures ret == 1 ==> DrainedOrSame(old(View()), View()) && nextId == old(nextId) && curDirty[d] >= devs[d].total
      ensures ret == 0 && isAsync ==> SubmittedOne(old(View()), View(), d, old(nextId))
      ensures ret == 0 && !isAsync ==> SentOne(old(View()), View(), d, failing)
      ensures ret == 0 ==>
                var k := Key(d, curDirty[d] / 2048);
                && k in old(dirty) && k in disk && dirty == old(dirty) - {k}
                && if isAsync then k in inflight && dest == old(dest) else dest == old(dest)[k := disk[k]]
      ensures ret != 0 && !isAsync ==> View() == old(View())
      ensures ret == -EIO ==> !isAsync
      ensures ret == -EIO ==> exists k :: k in dirty && k in failing
    {
      hide Shape, InflightPending;
      ghost var s := View();
      var found, k := ScanDirty(d, errs);
      ghost var m := View();
      if !found {
        return 1;
      }
      if isAsync {
        SubmitDirty(k);
        assert DrainedOrSame(s, m) && CanSubmit(m, k, old(nextId));
      } else {
        if k in failing {
          return -EIO;
        }
        SendShape(View(), k);
        dest := dest[k := disk[k]];
        dirty := dirty - {k};
      }
      return 0;
    }

    method SubmitDirty(k: Key)
      requires Valid() && BulkDone(devs) && k in dirty && k !in inflight
      modifies this
      ensures Valid() && nextId == old(nextId) + 1 && curDirty == old(curDirty)
      ensures CanSubmit(old(View()), k, old(nextId)) && View() == DirtySubmit(old(View()), k, old(nextId))
    {
      hide Shape, InflightPending;
      DirtySubmitShape(View(), k, nextId);
      IssuePending(inflight, aios, nextId, Read(k, false, None));
      aios := aios[nextId := Read(k, false, None)];
      nextId := nextId + 1;
      submitted, issued := submitted + 1, issued + 1;
      inflight := inflight + {k};
      dirty := dirty - {k};
    }

    /** `blk_mig_save_dirty_block`: one dirty chunk of the first device that has one is submitted or sent. */
    method SaveDirtyBlock(isAsync: bool, failing: set<Key>, errs: set<nat>) returns (ret: int)
      requires Valid() && BulkDone(devs)
      requires !isAsync ==> aios == map[] && blkList == [] && writers == multiset{} && Scanned(dirty, curDirty)
      modifies this
      ensures Valid() && devs == old(devs)
      ensures ret == 0 || ret == 1 || (ret == -EIO && !isAsync)
      ensures isAsync && ret == 0 ==> exists d :: SubmittedOne(old(View()), View(), d, old(nextId))
      ensures isAsync && ret == 1 ==> DrainedOrSame(old(View()), View()) && NoneFrom(devs, dirty, old(curDirty))
      ensures !isAsync ==> Scanned(dirty, curDirty)
      ensures !isAsync && ret == 0 ==> exists d :: SentOne(old(View()), View(), d, failing)
      ensures !isAsync && ret != 0 ==> View() == old(View())
      ensures !isAsync && ret == 1 ==> dirty == {}
      ensures ret == -EIO ==> exists k :: k in dirty && k in failing
    {
      hide Shape, InflightPending, SentOne, SubmittedOne, DrainedOrSame, Drains;
      ret := 1;
      var d: nat := 0;
      NothingDrained(View());
      while d < |devs|
        invariant d <= |devs| && Valid() && ret == 1 && devs == old(devs) && nextId == old(nextId)
        invariant DrainedOrSame(old(View()), View())
        invariant !isAsync ==> View() == old(View()) && Scanned(dirty, curDirty)
        invariant forall e :: 0 <= e < d ==> curDirty[e] >= devs[e].total
        invariant forall e :: d <= e < |devs| ==> curDirty[e] == old(curDirty[e])
        invariant NoneFrom(devs[..d], dirty, old(curDirty))
      {
        ghost var m, cur := View(), curDirty[d];
        ret := MigSaveDeviceDirty(d, isAsync, failing, errs);
        if ret == 0 && !isAsync {
          SentDirty(m, View(), d, failing);
        }
        if ret <= 0 {
          if isAsync {
            SubmittedLater(old(View()), m, View(), d, old(nextId));
          }
          return;
        }
        DrainedTwice(old(View()), m, View());
        NoneFromNext(devs, dirty, old(curDirty), d, curDirty[d]);
        d := d + 1;
      }
      assert devs[..d] == devs;
      if !isAsync {
        NoneDirty(View(), curDirty);
      }
    }

    /** The synchronous pass of `block_save_complete`, with the guest stopped and every read called back and flushed: it
        ends with nothing dirty and the destination equal to the source, unless a dirty chunk cannot be read. */
    method CompletePass(failing: set<Key>) returns (ret: int)
      requires Valid() && Inv(View()) && BulkDone(devs)
      requires aios == map[] && blkList == [] && writers == multiset{}
      modifies this
      ensures Valid() && Inv(View()) && disk == old(disk)
      ensures ret == 1 || ret == -EIO
      ensures ret == 1 <==> old(dirty) !! failing
      ensures ret == 1 ==> dirty == {} && dest == disk
    {
      hide Shape, InflightPending, Inv, SentOne;
      curDirty := seq(|devs|, _ => 0);
      ret := 0;
      while ret == 0
        invariant Valid() && Inv(View()) && BulkDone(devs) && devs == old(devs) && disk == old(disk)
        invariant aios == map[] && blkList == [] && writers == multiset{}
        invariant Scanned(dirty, curDirty) && dirty <= old(dirty) && (old(dirty) - dirty) !! failing
        invariant ret == 0 || ret == 1 || ret == -EIO
        invariant ret == 1 ==> dirty == {}
        invariant ret == -EIO ==> exists k :: k in dirty && k in failing
        decreases ret == 0, |dirty|
      {
        ghost var s := View();
        ret := SaveDirtyBlock(false, failing, {});
        if ret == 0 {
          ghost var d :| SentOne(s, View(), d, failing);
          SentDirty(s, View(), d, failing);
        }
      }
      if ret == 1 {
        QuietAgrees(View());
      }
    }

    /** `flush_blks`: blocks go out oldest first until the list is empty, the rate limit is reached or a read has
        failed. */
    method FlushBlks(budget: nat) returns (ret: int, ghost n: nat)
      requires Valid()
      modifies this
      ensures Valid() && (old(Inv(View())) ==> Inv(View()))
      ensures n <= old(|blkList|) && n <= budget && blkList == old(blkList[n..])
      ensures forall i :: 0 <= i < n ==> old(blkList[i].ok)
      ensures n == old(|blkList|) || n == budget || !old(blkList[n].ok)
      ensures ret == 0 || ret == -EIO
      ensures ret == -EIO <==> n < old(|blkList|) && n < budget
      ensures transferred == old(transferred) + n && readDone == old(readDone) - n
      ensures dest == Delivered(old(dest), old(blkList[..n]))
      ensures View() == old(View()).(dest := dest, queue := blkList, readDone := readDone, transferred := transferred)
    {
      hide Inv, Shape, InflightPending;
      ret, n := 0, 0;
      var sends := budget;
      while blkList != []
        invariant Valid() && (old(Inv(View())) ==> Inv(View()))
        invariant n <= old(|blkList|) && sends == budget - n && blkList == old(blkList[n..])
        invariant forall i :: 0 <= i < n ==> old(blkList[i].ok)
        invariant transferred == old(transferred) + n && readDone == old(readDone) - n
        invariant dest == Delivered(old(dest), old(blkList[..n]))
        invariant View() == old(View()).(dest := dest, queue := blkList, readDone := readDone,
                                         transferred := transferred)
        decreases |blkList|
      {
        if sends == 0 {
          return;
        }
        assert blkList[0] == old(blkList[n]);
        if !blkList[0].ok {
          ret := -EIO;
          return;
        }
        DeliverNext(old(dest), old(blkList), n);
        SendHead();
        sends, n := sends - 1, n + 1;
      }
    }

    /** One iteration of `flush_blks`. */
    method SendHead()
      requires Valid() && blkList != [] && blkList[0].ok
      modifies this
      ensures Valid() && CanFlush(old(View())) && View() == Flush(old(View()))
      ensures old(Inv(View())) ==> Inv(View())
    {
      hide Inv, Shape, InflightPending;
      ShapeCounts(View());
      SendShape(View(), blkList[0].key);
      if Inv(View()) {
        FlushKeeps(View());
      }
      dest := dest[blkList[0].key := blkList[0].data];
      blkList := blkList[1..];
      readDone := readDone - 1;
      transferred := transferred + 1;
    }
  }

  /** A chunk marked in the `aio_bitmap` has a read out. */
  ghost predicate InflightPending(inflight: set<Key>, aios: map<nat, Read>) {
    forall k :: k in inflight ==> ReadPending(aios, k)
  }

  lemma IssuePending(inflight: set<Key>, aios: map<nat, Read>, id: nat, r: Read)
    requires InflightPending(inflight, aios) && id !in aios && r.sampled.None?
    ensures InflightPending(inflight, aios[id := r]) && InflightPending(inflight + {r.key}, aios[id := r])
  {
    forall k | k in inflight + {r.key}
      ensures ReadPending(aios[id := r], k)
    {
      ReadAdded(aios, id, r, k, 0);
    }
    assert forall k :: k in inflight ==> k in inflight + {r.key};
  }

  lemma SamplePending(inflight: set<Key>, aios: map<nat, Read>, id: nat, v: Data)
    requires InflightPending(inflight, aios) && id in aios
    ensures InflightPending(inflight, aios[id := aios[id].(sampled := Some(v))])
  {
    var aios' := aios[id := aios[id].(sampled := Some(v))];
    forall k | k in inflight
      ensures ReadPending(aios', k)
    {
      assert ReadPending(aios, k);
      var i :| i in aios && aios[i].key == k;
      assert i in aios' && aios'[i].key == k;
    }
  }

  lemma CompletePending(inflight: set<Key>, aios: map<nat, Read>, id: nat)
    requires InflightPending(inflight, aios) && id in aios
    ensures InflightPending(inflight - {aios[id].key}, aios - {id})
  {
    forall k | k in inflight - {aios[id].key}
      ensures ReadPending(aios - {id}, k)
    {
      assert ReadPending(aios, k);
      var i :| i in aios && aios[i].key == k;
      assert i in aios - {id};
    }
  }

  /** One bulk step of device `d`: a chunk submitted, or nothing left to submit. */
  ghost predicate BulkStep(s: State, s': State, d: nat, sent: Option<Key>, id: nat) {
    match sent
    case Some(k) => k.d == d && CanBulk(s, k, id) && s' == BulkSubmit(s, k, id)
    case None => CanEndBulk(s, d) && s' == BulkEnd(s, d)
  }

  predicate FirstOpen(devs: seq<Dev>, d: nat) {
    d < |devs| && !devs[d].bulkCompleted && forall e :: 0 <= e < d ==> devs[e].bulkCompleted
  }

  ghost predicate DevSane(dev: Dev) {
    dev.curSector <= dev.total == |dev.alloc| && (dev.curSector == dev.total || dev.curSector % 2048 == 0)
  }

  /** The destination after the blocks of `q` have been written there in order. */
  function Delivered(dest: map<Key, Data>, q: seq<Block>): map<Key, Data> {
    if q == [] then dest else Delivered(dest, q[..|q| - 1])[q[|q| - 1].key := q[|q| - 1].data]
  }

  lemma DeliverNext(dest: map<Key, Data>, q: seq<Block>, n: nat)
    requires n < |q|
    ensures Delivered(dest, q[..n + 1]) == Delivered(dest, q[..n])[q[n].key := q[n].data]
  {
    assert q[..n + 1][..n] == q[..n];
  }

  /** The last block of a chunk decides what the destination holds there. */
  lemma {:induction false} LastBlockWins(dest: map<Key, Data>, q: seq<Block>, i: nat)
    requires i < |q| && forall j :: i < j < |q| ==> q[j].key != q[i].key
    ensures q[i].key in Delivered(dest, q) && Delivered(dest, q)[q[i].key] == q[i].data
  {
    if i < |q| - 1 {
      LastBlockWins(dest, q[..|q| - 1], i);
    }
  }

  lemma {:induction false} OthersStay(dest: map<Key, Data>, q: seq<Block>, k: Key)
    requires forall j :: 0 <= j < |q| ==> q[j].key != k
    ensures (k in Delivered(dest, q) <==> k in dest) && (k in dest ==> Delivered(dest, q)[k] == dest[k])
  {
    if q != [] {
      OthersStay(dest, q[..|q| - 1], k);
    }
  }

  lemma ShapeCounts(s: State)
    requires Shape(s)
    ensures Conserved(s)
  {
  }

  /** Nothing but the outstanding reads has changed: either nothing at all, or all of them have been called back. */
  ghost predicate DrainedOrSame(s: State, s': State) {
    s' == s || exists order, errs :: Drains(s, s', order, errs)
  }

  lemma NothingDrained(s: State)
    ensures DrainedOrSame(s, s)
  {
  }

  lemma Drained(s: State, s': State, order: seq<nat>, errs: set<nat>)
    requires Drains(s, s', order, errs)
    ensures DrainedOrSame(s, s') && s'.devs == s.devs && s'.dirty == s.dirty && s'.inflight == {} && s'.aios == map[]
  {
  }

  /** The block that read `r` becomes. */
  function Finished(r: Read, disk: map<Key, Data>, ok: bool): Block
    requires r.key in disk
  {
    Block(r.key, if r.sampled.Some? then r.sampled.value else disk[r.key], ok)
  }

  /** What a read was given when it was sampled, or is given now, goes into its block. */
  lemma FinishedIs(k: Key, bulk: bool, v: Data, disk: map<Key, Data>, ok: bool)
    requires k in disk
    ensures Finished(Read(k, bulk, Some(v)), disk, ok) == Block(k, v, ok)
    ensures Finished(Read(k, bulk, None), disk, ok) == Block(k, disk[k], ok)
  {
  }

  /** The reads of `order`, each once, have left `s.aios` and joined the list at its end, as what they have become. */
  ghost predicate CalledBack(s: State, aios: map<nat, Read>, queue: seq<Block>, order: seq<nat>, errs: set<nat>) {
    && (forall i, j :: 0 <= i < j < |order| ==> order[i] != order[j])
    && (forall id :: id in s.aios <==> id in aios || id in order)
    && (forall id :: id in aios ==> id !in order && aios[id] == s.aios[id])
    && |queue| == |s.queue| + |order| && s.queue <= queue
    && (forall i :: 0 <= i < |order| ==>
          && order[i] in s.aios && s.aios[order[i]].key in s.disk
          && queue[|s.queue| + i] == Finished(s.aios[order[i]], s.disk, order[i] !in errs))
  }

  lemma CalledBackNone(s: State, errs: set<nat>)
    ensures CalledBack(s, s.aios, s.queue, [], errs)
  {
  }

  lemma CalledBackNext(s: State, aios: map<nat, Read>, queue: seq<Block>, order: seq<nat>, errs: set<nat>, id: nat)
    requires CalledBack(s, aios, queue, order, errs) && id in aios && aios[id].key in s.disk
    ensures CalledBack(s, aios - {id}, queue + [Finished(aios[id], s.disk, id !in errs)], order + [id], errs)
  {
    var n := |order|;
    var order' := order + [id];
    assert forall i :: 0 <= i < n ==> order'[i] == order[i];
    assert order'[n] == id;
    forall x | x in s.aios
      ensures x in aios - {id} || x in order'
    {
      assert x in order ==> x in order';
    }
  }

  /** Every read that was out has been called back, in the order given; nothing else has changed. */
  ghost predicate Drains(s: State, s': State, order: seq<nat>, errs: set<nat>) {
    && s'.devs == s.devs && s'.disk == s.disk && s'.dest == s.dest && s'.dirty == s.dirty
    && s'.chunks == s.chunks && s'.writers == s.writers && s'.issued == s.issued && s'.transferred == s.transferred
    && s'.aios == map[] && s'.inflight == {} && CalledBack(s, s'.aios, s'.queue, order, errs)
    && s'.submitted == 0 && s'.readDone == |s'.queue|
  }

  ghost predicate SubmittedOne(s: State, s': State, d: nat, id: nat) {
    exists k: Key, m :: k.d == d && DrainedOrSame(s, m) && CanSubmit(m, k, id) && s' == DirtySubmit(m, k, id)
  }

  ghost predicate SentOne(s: State, s': State, d: nat, failing: set<Key>) {
    exists k: Key :: k.d == d && CanSyncSend(s, k) && k !in failing && s' == SyncSend(s, k)
  }

  /** No device has a dirty chunk before its cursor. */
  ghost predicate Scanned(dirty: set<Key>, curDirty: seq<nat>) {
    forall k :: k in dirty && k.d < |curDirty| ==> curDirty[k.d] <= 2048 * k.c
  }

  /** None of these devices has a dirty chunk at or behind its cursor. */
  ghost predicate NoneFrom(devs: seq<Dev>, dirty: set<Key>, curDirty: seq<nat>) {
    forall k :: k in dirty && k.d < |devs| && k.d < |curDirty| && 2048 * k.c < devs[k.d].total ==>
        2048 * k.c < curDirty[k.d]
  }

  lemma NoneFromNext(devs: seq<Dev>, dirty: set<Key>, curDirty: seq<nat>, d: nat, end: nat)
    requires d < |devs| && d < |curDirty| && NoneFrom(devs[..d], dirty, curDirty) && end >= devs[d].total
    requires forall j :: j in dirty && j.d == d && curDirty[d] <= 2048 * j.c ==> end <= 2048 * j.c
    ensures NoneFrom(devs[..d + 1], dirty, curDirty)
  {
    forall k | k in dirty && k.d < d && 2048 * k.c < devs[k.d].total
      ensures 2048 * k.c < curDirty[k.d]
    {
      assert devs[..d][k.d] == devs[k.d];
    }
  }

  /** Once drained, there is nothing left to drain. */
  lemma DrainedTwice(s: State, m: State, s': State)
    requires DrainedOrSame(s, m) && DrainedOrSame(m, s')
    ensures DrainedOrSame(s, s') && s'.dirty == m.dirty == s.dirty
  {
    hide CalledBack;
    if m != s {
      var order, errs :| Drains(s, m, order, errs);
      if more, errs' :| Drains(m, s', more, errs') {
        NothingLeft(m, s', more, errs');
      }
    }
  }

  lemma NothingLeft(m: State, s': State, more: seq<nat>, errs: set<nat>)
    requires m.aios == map[] && m.inflight == {} && m.submitted == 0 && m.readDone == |m.queue|
             && Drains(m, s', more, errs)
    ensures s' == m
  {
    HasMember(more);
    assert s'.queue == m.queue;
  }

  lemma PassClean(dirty: set<Key>, d: nat, sector: nat, from: nat)
    requires sector % 2048 == 0 && Key(d, sector / 2048) !in dirty
    requires forall j :: j in dirty && j.d == d && from <= 2048 * j.c ==> sector <= 2048 * j.c
    ensures forall j :: j in dirty && j.d == d && from <= 2048 * j.c ==> sector + 2048 <= 2048 * j.c
  {
    forall j | j in dirty && j.d == d && from <= 2048 * j.c
      ensures sector + 2048 <= 2048 * j.c
    {
      assert j == Key(d, j.c);
    }
  }

  lemma HasMember(ids: seq<nat>)
    ensures ids == [] || exists id :: id in ids
  {
    if ids != [] {
      assert ids[0] in ids;
    }
  }

  lemma SubmittedLater(s: State, m: State, s': State, d: nat, id: nat)
    requires DrainedOrSame(s, m) && SubmittedOne(m, s', d, id)
    ensures SubmittedOne(s, s', d, id)
  {
    hide DrainedOrSame, CanSubmit;
    var k: Key, n :| k.d == d && DrainedOrSame(m, n) && CanSubmit(n, k, id) && s' == DirtySubmit(n, k, id);
    DrainedTwice(s, m, n);
  }

  lemma NoneDirty(s: State, curDirty: seq<nat>)
    requires Shape(s) && |curDirty| == |s.devs| && Scanned(s.dirty, curDirty)
    requires forall d :: 0 <= d < |s.devs| ==> curDirty[d] >= s.devs[d].total
    ensures s.dirty == {}
  {
    forall k
      ensures k !in s.dirty
    {
      assert k in s.dirty ==> IsChunk(s.devs, k);
    }
  }

  lemma SentDirty(s: State, s': State, d: nat, failing: set<Key>)
    requires SentOne(s, s', d, failing)
    ensures s'.dirty < s.dirty && |s'.dirty| < |s.dirty| && (s.dirty - s'.dirty) !! failing
    ensures forall k :: k in s.dirty && k.d != d ==> k in s'.dirty
    ensures Inv(s) ==> Inv(s')
    ensures s' == s.(dest := s'.dest, dirty := s'.dirty)
  {
    hide Inv;
    var k: Key :| k.d == d && CanSyncSend(s, k) && k !in failing && s' == SyncSend(s, k);
    assert |s.dirty| == |s.dirty - {k}| + 1;
    if Inv(s) {
      SyncSendKeeps(s, k);
    }
  }

  lemma NotIdle(s: State)
    requires InflightPending(s.inflight, s.aios) && s.inflight != {}
    ensures s.aios != map[]
  {
    var k :| k in s.inflight;
    assert ReadPending(s.aios, k);
  }

  lemma DirtyKnown(s: State, k: Key)
    requires Shape(s) && k in s.dirty
    ensures k in s.disk
  {
  }

  lemma ReadKnown(s: State, id: nat)
    requires Shape(s) && id in s.aios
    ensures s.aios[id].key in s.disk
  {
  }

  lemma NothingPending(inflight: set<Key>)
    requires InflightPending(inflight, map[])
    ensures inflight == {}
  {
    forall k
      ensures k !in inflight
    {
      var none: map<nat, Read> := map[];
      assert !ReadPending(none, k);
    }
  }

  lemma ShapeDev(s: State, d: nat)
    requires Shape(s) && d < |s.devs|
    ensures DevSane(s.devs[d])
  {
  }

  /** The chunk to submit next: the cursor, moved to the next allocated sector with a shared base, rounded down. */
  method BulkTarget(dev: Dev) returns (more: bool, cur: nat, nr: nat)
    requires DevSane(dev)
    ensures !more ==> NoneWanted(dev)
    ensures more ==> cur % 2048 == 0 && cur + nr == Min(cur + 2048, dev.total) && NextBulk(dev, cur / 2048)
  {
    cur, nr := dev.curSector, 0;
    if dev.sharedBase {
      cur := FirstAllocated(dev);
    }
    if cur >= dev.total {
      return false, cur, 0;
    }
    cur := cur - cur % 2048;
    nr := if dev.total - cur < 2048 then dev.total - cur else 2048;
    more := true;
  }

  /** The search loop of `mig_save_device_bulk`. */
  method FirstAllocated(dev: Dev) returns (cur: nat)
    requires DevSane(dev)
    ensures dev.curSector <= cur <= dev.total && (cur < dev.total ==> dev.alloc[cur])
    ensures forall t :: dev.curSector <= t < cur ==> !dev.alloc[t]
  {
    cur := dev.curSector;
    var found := false;
    while cur < dev.total && !found
      invariant dev.curSector <= cur <= dev.total && (found ==> cur < dev.total && dev.alloc[cur])
      invariant forall t :: dev.curSector <= t < cur ==> !dev.alloc[t]
      decreases !found, dev.total - cur
    {
      var present, n := ImageChain.IsAllocated(dev.alloc, cur, MAX_IS_ALLOCATED_SEARCH);
      if present {
        assert dev.alloc[cur];
        found := true;
      } else {
        cur := cur + n;
      }
    }
  }

  predicate WantedKey(devs: seq<Dev>, k: Key) {
    k.d < |devs| && Wanted(devs[k.d], k.c)
  }

  lemma WantedIs(devs: seq<Dev>, k: Key)
    ensures WantedKey(devs, k) <==>
              && k.d < |devs| && 2048 * k.c < devs[k.d].total
              && (!devs[k.d].sharedBase
                  || exists t: nat :: t < |devs[k.d].alloc| && t / 2048 == k.c && devs[k.d].alloc[t])
  {
    if k.d < |devs| {
      AllocatedIs(devs[k.d].alloc, k.c);
    }
  }

  predicate Before(j: Key, k: Key) {
    j.d < k.d || (j.d == k.d && j.c < k.c)
  }

  /** What the bulk steps have done so far: exactly the wanted chunks the cursors have passed are in the log. */
  ghost predicate Logged(devs0: seq<Dev>, devs: seq<Dev>, log: seq<Key>) {
    && |devs| == |devs0|
    && (forall d :: 0 <= d < |devs| ==>
        devs[d].total == devs0[d].total && devs[d].sharedBase == devs0[d].sharedBase && devs[d].alloc == devs0[d].alloc)
    && (forall d, e :: 0 <= d < e < |devs| && devs[e].curSector > 0 ==> devs[d].bulkCompleted)
    && (forall i, j :: 0 <= i < j < |log| ==> Before(log[i], log[j]))
    && (forall k :: k in log <==> Passed(devs, k) && WantedKey(devs, k))
  }

  function Remaining(devs: seq<Dev>): nat {
    if devs == [] then 0
    else
      var dev := devs[|devs| - 1];
      (if dev.bulkCompleted then 0 else 1) + (if dev.curSector < dev.total then dev.total - dev.curSector else 0)
      + Remaining(devs[..|devs| - 1])
  }

  lemma {:induction false} RemainingUpdate(devs: seq<Dev>, d: nat, sector: nat)
    requires d < |devs| && !devs[d].bulkCompleted && devs[d].curSector <= sector <= devs[d].total
    requires sector == devs[d].total || sector > devs[d].curSector
    ensures Remaining(devs[d := Advance(devs[d], sector)]) < Remaining(devs)
  {
    var devs' := devs[d := Advance(devs[d], sector)];
    if d == |devs| - 1 {
      assert devs'[..|devs| - 1] == devs[..|devs| - 1];
    } else {
      RemainingUpdate(devs[..|devs| - 1], d, sector);
      assert devs'[..|devs| - 1] == devs[..|devs| - 1][d := Advance(devs[d], sector)];
    }
  }

  /** The cursor of the first open device moves to `sector`, passing the wanted chunk `c` or none. */
  ghost predicate Moves(dev: Dev, sector: nat, c: Option<nat>) {
    match c
    case Some(c) => NextBulk(dev, c) && sector == Min(2048 * c + 2048, dev.total)
    case None => NoneWanted(dev) && sector == dev.total
  }

  lemma MovePasses(devs: seq<Dev>, d: nat, sector: nat, c: Option<nat>, k: Key)
    requires d < |devs| && DevSane(devs[d]) && Moves(devs[d], sector, c)
    ensures var devs' := devs[d := Advance(devs[d], sector)];
      && WantedKey(devs', k) == WantedKey(devs, k)
      && (Passed(devs', k) && WantedKey(devs, k)
          <==> (Passed(devs, k) && WantedKey(devs, k)) || (c.Some? && k == Key(d, c.value)))
  {
    hide ChunkAllocated;
  }

  lemma MoveLogged(devs0: seq<Dev>, devs: seq<Dev>, d: nat, sector: nat, c: Option<nat>, log: seq<Key>)
    requires Logged(devs0, devs, log) && FirstOpen(devs, d) && DevSane(devs[d]) && Moves(devs[d], sector, c)
    ensures Logged(devs0, devs[d := Advance(devs[d], sector)], if c.Some? then log + [Key(d, c.value)] else log)
  {
    var devs' := devs[d := Advance(devs[d], sector)];
    var log' := if c.Some? then log + [Key(d, c.value)] else log;
    forall k
      ensures k in log' <==> Passed(devs', k) && WantedKey(devs', k)
    {
      MovePasses(devs, d, sector, c, k);
    }
    hide Moves, WantedKey;
    if c.Some? {
      forall i | 0 <= i < |log|
        ensures Before(log[i], Key(d, c.value))
      {
        assert log[i] in log && Passed(devs, log[i]);
        MoveAhead(devs[d], sector, c);
      }
    }
  }

  lemma MoveAhead(dev: Dev, sector: nat, c: Option<nat>)
    requires Moves(dev, sector, c) && c.Some?
    ensures dev.curSector <= 2048 * c.value < dev.total
  {
  }

  lemma LogStep(devs0: seq<Dev>, s: State, s': State, d: nat, sent: Option<Key>, id: nat, log: seq<Key>)
    requires Shape(s) && Logged(devs0, s.devs, log) && FirstOpen(s.devs, d) && BulkStep(s, s', d, sent, id)
    ensures Logged(devs0, s'.devs, if sent.Some? then log + [sent.value] else log)
    ensures Remaining(s'.devs) < Remaining(s.devs) && s'.chunks == s.chunks
  {
    hide Logged, Remaining, Shape, NextBulk, NoneWanted;
    ShapeDev(s, d);
    var c := if sent.Some? then Some(sent.value.c) else None;
    var sector := if sent.Some? then Min(2048 * sent.value.c + 2048, s.devs[d].total) else s.devs[d].total;
    MoveLogged(devs0, s.devs, d, sector, c, log);
    if sent.Some? {
      MoveAhead(s.devs[d], sector, c);
    }
    RemainingUpdate(s.devs, d, sector);
  }

  lemma StartLogged(devs: seq<Dev>)
    requires forall d :: 0 <= d < |devs| ==> devs[d].curSector == 0 && !devs[d].bulkCompleted
    ensures Logged(devs, devs, [])
  {
  }

  lemma EndLogged(devs0: seq<Dev>, s: State, log: seq<Key>)
    requires Shape(s) && Logged(devs0, s.devs, log) && BulkDone(s.devs)
    ensures forall i, j :: 0 <= i < j < |log| ==> Before(log[i], log[j])
    ensures forall k :: k in log <==> WantedKey(devs0, k)
  {
    hide ChunkAllocated, Domains, Known, Conserved;
    forall k
      ensures k in log <==> WantedKey(devs0, k)
    {
    }
  }
}
