/** block-migration.c over whole runs: guest writes, bulk and dirty reads, callbacks and sends in any order. */
module BlockMigrationRuns {
  import opened Basics
  import opened BlockMigration

  ghost predicate BulkPending(aios: map<nat, Read>, k: Key) {
    exists i :: i in aios && aios[i].key == k && aios[i].bulk
  }

  ghost predicate OtherStep(s: State, s': State) {
    || (exists k :: k in s.chunks && s' == WriteBegin(s, k))
    || (exists k, v, alloc :: CanWrite(s, k, alloc) && s' == WriteData(s, k, v, alloc))
    || (exists k :: k in s.writers && s' == WriteEnd(s, k))
    || (exists k, id :: CanBulk(s, k, id) && s' == BulkSubmit(s, k, id))
    || (exists d :: CanEndBulk(s, d) && s' == BulkEnd(s, d))
    || (exists id :: CanSample(s, id) && s' == Sample(s, id))
    || (exists id, ok :: CanComplete(s, id) && s' == Complete(s, id, ok))
    || (CanFlush(s) && s' == Flush(s))
    || (exists k :: CanSyncSend(s, k) && s' == SyncSend(s, k))
  }

  /** The asynchronous dirty pass submits a chunk; a careful one waits for a bulk read of that chunk to be called
      back. */
  ghost predicate DirtyStep(s: State, s': State, careful: bool) {
    exists k, id :: CanSubmit(s, k, id) && (careful ==> !BulkPending(s.aios, k)) && s' == DirtySubmit(s, k, id)
  }

  ghost predicate Step(s: State, s': State, careful: bool) {
    OtherStep(s, s') || DirtyStep(s, s', careful)
  }

  ghost predicate IsRun(t: seq<State>, careful: bool) {
    |t| > 0 && forall i :: 0 <= i < |t| - 1 ==> Step(t[i], t[i + 1], careful)
  }

  /** `block_save_setup`: tracking has just been switched on; with a shared base image, what it holds agrees. */
  ghost predicate Start(s: State) {
    && Domains(s) && s.dirty == {} && s.inflight == {} && s.aios == map[] && s.queue == [] && s.writers == multiset{}
    && s.issued == s.submitted == s.readDone == s.transferred == 0
    && (forall d :: 0 <= d < |s.devs| ==>
          s.devs[d].curSector == 0 && !s.devs[d].bulkCompleted && s.devs[d].total == |s.devs[d].alloc|)
    && (forall k :: k in s.chunks && !Wanted(s.devs[k.d], k.c) ==> s.dest[k] == s.disk[k])
  }

  /** Everything has been called back, sent and drained, and nothing is dirty. */
  ghost predicate Quiet(s: State) {
    BulkDone(s.devs) && s.aios == map[] && s.queue == [] && s.writers == multiset{} && s.dirty == {}
  }

  // ---- conservation: every run, careful or not ----

  lemma StepShape(s: State, s': State)
    requires Shape(s) && Step(s, s', false)
    ensures Shape(s')
  {
    hide Shape, Grows, NextBulk, NoneWanted;
    if DirtyStep(s, s', false) {
      var k, id :| CanSubmit(s, k, id) && s' == DirtySubmit(s, k, id);
      DirtySubmitShape(s, k, id);
    } else if k :| k in s.chunks && s' == WriteBegin(s, k) {
      WriteShape(s, k);
    } else if k, v, alloc :| CanWrite(s, k, alloc) && s' == WriteData(s, k, v, alloc) {
      WriteDataShape(s, k, v, alloc);
    } else if k :| k in s.writers && s' == WriteEnd(s, k) {
      WriteShape(s, k);
    } else if k, id :| CanBulk(s, k, id) && s' == BulkSubmit(s, k, id) {
      BulkShape(s, k, id);
    } else if d :| CanEndBulk(s, d) && s' == BulkEnd(s, d) {
      BulkEndShape(s, d);
    } else if id :| CanSample(s, id) && s' == Sample(s, id) {
      SampleShape(s, id);
    } else if id, ok :| CanComplete(s, id) && s' == Complete(s, id, ok) {
      CompleteShape(s, id, ok);
    } else if CanFlush(s) && s' == Flush(s) {
      SendShape(s, s.queue[0].key);
    } else {
      var k :| CanSyncSend(s, k) && s' == SyncSend(s, k);
      SendShape(s, k);
    }
  }

  lemma StartShape(s: State)
    requires Start(s)
    ensures Shape(s)
  {
  }

  /** In every run, `submitted + read_done + transferred` is the number of asynchronous reads issued, `submitted` the
      number still out and `read_done` the length of `blk_list`. */
  lemma {:induction false} RunConserved(t: seq<State>, i: nat)
    requires IsRun(t, false) && Start(t[0]) && i < |t|
    ensures Shape(t[i]) && t[i].issued == t[i].submitted + t[i].readDone + t[i].transferred
    ensures t[i].submitted == |t[i].aios| && t[i].readDone == |t[i].queue|
  {
    hide Cursors, Domains, Known;
    if i == 0 {
      StartShape(t[0]);
    } else {
      RunConserved(t, i - 1);
      StepShape(t[i - 1], t[i]);
    }
  }

  // ---- the bulk cursor: every run ----

  /** No cursor moves back from `s` to `s'`. */
  ghost predicate Onward(s: State, s': State) {
    |s'.devs| == |s.devs| && forall d :: 0 <= d < |s.devs| ==> s.devs[d].curSector <= s'.devs[d].curSector
  }

  lemma BulkOnward(s: State, k: Key, id: nat, d: nat)
    requires Shape(s)
    ensures CanBulk(s, k, id) ==> Onward(s, BulkSubmit(s, k, id))
    ensures CanEndBulk(s, d) ==> Onward(s, BulkEnd(s, d))
  {
    hide Domains, Known, Conserved, NoneWanted, Wanted;
  }

  lemma ReadOnward(s: State, k: Key, id: nat, ok: bool)
    ensures CanSubmit(s, k, id) ==> Onward(s, DirtySubmit(s, k, id))
    ensures CanSample(s, id) ==> Onward(s, Sample(s, id))
    ensures CanComplete(s, id) ==> Onward(s, Complete(s, id, ok))
    ensures CanFlush(s) ==> Onward(s, Flush(s))
    ensures CanSyncSend(s, k) ==> Onward(s, SyncSend(s, k))
  {
  }

  lemma WriteOnward(s: State, k: Key, v: Data, alloc: seq<bool>)
    ensures k in s.chunks ==> Onward(s, WriteBegin(s, k))
    ensures CanWrite(s, k, alloc) ==> Onward(s, WriteData(s, k, v, alloc))
    ensures k in s.writers ==> Onward(s, WriteEnd(s, k))
  {
    hide Grows;
  }

  lemma StepOnward(s: State, s': State)
    requires Shape(s) && Step(s, s', false)
    ensures Onward(s, s')
  {
    hide Shape, Onward, Grows, NextBulk, NoneWanted;
    if DirtyStep(s, s', false) {
      var k, id :| CanSubmit(s, k, id) && s' == DirtySubmit(s, k, id);
      ReadOnward(s, k, id, true);
    } else if k :| k in s.chunks && s' == WriteBegin(s, k) {
      WriteOnward(s, k, 0, []);
    } else if k, v, alloc :| CanWrite(s, k, alloc) && s' == WriteData(s, k, v, alloc) {
      WriteOnward(s, k, v, alloc);
    } else if k :| k in s.writers && s' == WriteEnd(s, k) {
      WriteOnward(s, k, 0, []);
    } else if k, id :| CanBulk(s, k, id) && s' == BulkSubmit(s, k, id) {
      BulkOnward(s, k, id, k.d);
    } else if d :| CanEndBulk(s, d) && s' == BulkEnd(s, d) {
      BulkOnward(s, Key(d, 0), 0, d);
    } else if id :| CanSample(s, id) && s' == Sample(s, id) {
      ReadOnward(s, Key(0, 0), id, true);
    } else if id, ok :| CanComplete(s, id) && s' == Complete(s, id, ok) {
      ReadOnward(s, Key(0, 0), id, ok);
    } else if CanFlush(s) && s' == Flush(s) {
      ReadOnward(s, Key(0, 0), 0, true);
    } else {
      var k :| CanSyncSend(s, k) && s' == SyncSend(s, k);
      ReadOnward(s, k, 0, true);
    }
  }

  lemma {:induction false} CursorGrows(t: seq<State>, i: nat, j: nat, d: nat)
    requires IsRun(t, false) && Start(t[0]) && i <= j < |t| && d < |t[i].devs|
    ensures |t[j].devs| == |t[i].devs| && t[i].devs[d].curSector <= t[j].devs[d].curSector
    decreases j
  {
    hide Step, Start, Shape;
    if i < j {
      CursorGrows(t, i, j - 1, d);
      RunConserved(t, j - 1);
      StepOnward(t[j - 1], t[j]);
    }
  }

  /** In every run the bulk phase of a device submits chunks in increasing order, hence each at most once. */
  lemma BulkIncreases(t: seq<State>, i: nat, j: nat, k: Key, id: nat, k': Key, id': nat)
    requires IsRun(t, false) && Start(t[0]) && i < j < |t| - 1 && k.d == k'.d
    requires CanBulk(t[i], k, id) && t[i + 1] == BulkSubmit(t[i], k, id)
    requires CanBulk(t[j], k', id') && t[j + 1] == BulkSubmit(t[j], k', id')
    ensures k.c < k'.c
  {
    hide Step, Start;
    CursorGrows(t, i + 1, j, k.d);
    assert t[i + 1].devs[k.d].curSector == Min(2048 * k.c + 2048, t[i].devs[k.d].total);
  }

  // ---- consistency: every careful run ----

  /** At most one read of a chunk is out, and a read of the dirty pass is marked in the `aio_bitmap`. */
  ghost predicate Marked(s: State) {
    && (forall i, j :: i in s.aios && j in s.aios && s.aios[i].key == s.aios[j].key ==> i == j)
    && (forall i :: i in s.aios && !s.aios[i].bulk ==> s.aios[i].key in s.inflight)
  }

  lemma IssueMarked(s: State, k: Key, id: nat)
    requires Marked(s)
    ensures CanSubmit(s, k, id) && !BulkPending(s.aios, k) ==> Marked(DirtySubmit(s, k, id))
    ensures CanBulk(s, k, id) && Known(s) ==> Marked(BulkSubmit(s, k, id))
  {
    hide NextBulk, Known;
    if CanSubmit(s, k, id) && !BulkPending(s.aios, k) {
      assert forall i :: i in s.aios ==> s.aios[i].key != k;
    }
    if CanBulk(s, k, id) && Known(s) {
      NotYetRead(s, k, id);
    }
  }

  lemma ReadMarked(s: State, id: nat, ok: bool)
    requires Marked(s)
    ensures CanSample(s, id) ==> Marked(Sample(s, id))
    ensures CanComplete(s, id) ==> Marked(Complete(s, id, ok))
  {
    if CanComplete(s, id) {
      var s' := Complete(s, id, ok);
      assert forall i :: i in s'.aios ==> i in s.aios && i != id && s'.aios[i] == s.aios[i];
    }
    if CanSample(s, id) {
      var s' := Sample(s, id);
      assert s'.aios.Keys == s.aios.Keys;
      assert forall i :: i in s.aios ==> s'.aios[i].key == s.aios[i].key && s'.aios[i].bulk == s.aios[i].bulk;
    }
  }

  lemma UnreadMarked(s: State, k: Key, v: Data, alloc: seq<bool>, d: nat)
    requires Marked(s)
    ensures k in s.chunks ==> Marked(WriteBegin(s, k))
    ensures CanWrite(s, k, alloc) ==> Marked(WriteData(s, k, v, alloc))
    ensures k in s.writers ==> Marked(WriteEnd(s, k))
    ensures CanEndBulk(s, d) ==> Marked(BulkEnd(s, d))
    ensures CanFlush(s) ==> Marked(Flush(s))
    ensures CanSyncSend(s, k) ==> Marked(SyncSend(s, k))
  {
    hide Grows, NoneWanted;
  }

  lemma StepMarked(s: State, s': State)
    requires Known(s) && Marked(s) && Step(s, s', true)
    ensures Marked(s')
  {
    hide Known, Marked, Grows, NextBulk, NoneWanted, BulkPending;
    if DirtyStep(s, s', true) {
      var k, id :| CanSubmit(s, k, id) && !BulkPending(s.aios, k) && s' == DirtySubmit(s, k, id);
      IssueMarked(s, k, id);
    } else if k, id :| CanBulk(s, k, id) && s' == BulkSubmit(s, k, id) {
      IssueMarked(s, k, id);
    } else if id, ok :| CanComplete(s, id) && s' == Complete(s, id, ok) {
      ReadMarked(s, id, ok);
    } else if id :| CanSample(s, id) && s' == Sample(s, id) {
      ReadMarked(s, id, true);
    } else if k :| k in s.chunks && s' == WriteBegin(s, k) {
      UnreadMarked(s, k, 0, [], 0);
    } else if k, v, alloc :| CanWrite(s, k, alloc) && s' == WriteData(s, k, v, alloc) {
      UnreadMarked(s, k, v, alloc, 0);
    } else if k :| k in s.writers && s' == WriteEnd(s, k) {
      UnreadMarked(s, k, 0, [], 0);
    } else if d :| CanEndBulk(s, d) && s' == BulkEnd(s, d) {
      UnreadMarked(s, Key(0, 0), 0, [], d);
    } else if CanFlush(s) && s' == Flush(s) {
      UnreadMarked(s, Key(0, 0), 0, [], 0);
    } else {
      var k :| CanSyncSend(s, k) && s' == SyncSend(s, k);
      UnreadMarked(s, k, 0, [], 0);
    }
  }

  lemma NotYetRead(s: State, k: Key, id: nat)
    requires Known(s) && CanBulk(s, k, id)
    ensures forall i :: i in s.aios ==> s.aios[i].key != k
  {
    assert !Passed(s.devs, k);
  }

  lemma OtherStepKeeps(s: State, s': State)
    requires Inv(s) && OtherStep(s, s')
    ensures Inv(s')
  {
    hide Inv, Grows, NextBulk, NoneWanted;
    if k :| k in s.chunks && s' == WriteBegin(s, k) {
      WriteKeeps(s, k);
    } else if k, v, alloc :| CanWrite(s, k, alloc) && s' == WriteData(s, k, v, alloc) {
      WriteDataKeeps(s, k, v, alloc);
    } else if k :| k in s.writers && s' == WriteEnd(s, k) {
      WriteKeeps(s, k);
    } else if k, id :| CanBulk(s, k, id) && s' == BulkSubmit(s, k, id) {
      BulkSubmitKeeps(s, k, id);
    } else if d :| CanEndBulk(s, d) && s' == BulkEnd(s, d) {
      BulkEndKeeps(s, d);
    } else if id :| CanSample(s, id) && s' == Sample(s, id) {
      SampleKeeps(s, id);
    } else if id, ok :| CanComplete(s, id) && s' == Complete(s, id, ok) {
      CompleteKeeps(s, id, ok);
    } else if CanFlush(s) && s' == Flush(s) {
      FlushKeeps(s);
    } else {
      var k :| CanSyncSend(s, k) && s' == SyncSend(s, k);
      SyncSendKeeps(s, k);
    }
  }

  lemma StepKeeps(s: State, s': State)
    requires Inv(s) && Marked(s) && Step(s, s', true)
    ensures Inv(s')
  {
    hide Inv, OtherStep, ReadsFresh;
    if DirtyStep(s, s', true) {
      var k, id :| CanSubmit(s, k, id) && !BulkPending(s.aios, k) && s' == DirtySubmit(s, k, id);
      DirtySubmitKeeps(s, k, id);
      SoloFresh(s, k, s.disk[k]);
    } else {
      OtherStepKeeps(s, s');
    }
  }

  /** A chunk not marked in flight and with no bulk read out has no read out at all. */
  lemma SoloFresh(s: State, k: Key, v: Data)
    requires Marked(s) && k !in s.inflight && !BulkPending(s.aios, k)
    ensures ReadsFresh(s.aios, k, v)
  {
  }

  lemma StartInv(s: State)
    requires Start(s)
    ensures Inv(s) && Marked(s)
  {
    StartShape(s);
    forall k | k in s.chunks
      ensures Settled(s, k)
    {
      assert IsChunk(s.devs, k);
    }
  }

  lemma {:induction false} RunInv(t: seq<State>, i: nat)
    requires IsRun(t, true) && Start(t[0]) && i < |t|
    ensures Inv(t[i]) && Marked(t[i])
  {
    hide Settled, Shape, Marked;
    if i == 0 {
      StartInv(t[0]);
    } else {
      RunInv(t, i - 1);
      StepKeeps(t[i - 1], t[i]);
      assert Known(t[i - 1]) by { InvKnown(t[i - 1]); }
      StepMarked(t[i - 1], t[i]);
    }
  }

  lemma InvKnown(s: State)
    requires Inv(s)
    ensures Known(s)
  {
  }

  lemma QuietAgrees(s: State)
    requires Inv(s) && Quiet(s)
    ensures s.dest == s.disk
  {
    forall k | k in s.chunks
      ensures s.dest[k] == s.disk[k]
    {
      assert Settled(s, k) && IsChunk(s.devs, k);
    }
  }

  /** The destination equals the source at the end of every careful run that comes to rest, whatever the guest wrote. */
  lemma MigrationIsConsistent(t: seq<State>)
    requires IsRun(t, true) && Start(t[0]) && Quiet(t[|t| - 1])
    ensures t[|t| - 1].dest == t[|t| - 1].disk
  {
    hide Inv, Quiet, Start;
    RunInv(t, |t| - 1);
    QuietAgrees(t[|t| - 1]);
  }

  // ---- a run that is not careful ----

  const FRESH: Dev := Dev(1, false, [true], 0, false)
  const BULKED: Dev := Dev(1, false, [true], 1, true)

  /** One device of one sector, whose chunk holds `was` at the source and `there` at the destination. */
  function Setup(was: Data, there: Data): State {
    var k := Key(0, 0);
    State({k}, [FRESH], map[k := was], map[k := there], {}, {}, map[], [], multiset{}, 0, 0, 0, 0)
  }

  /** A bulk read has sampled the chunk, then the guest has rewritten it. */
  function Rewritten(was: Data, now: Data, there: Data): State {
    var k := Key(0, 0);
    State({k}, [BULKED], map[k := now], map[k := there], {k}, {}, map[0 := Read(k, true, Some(was))], [], multiset{}, 1,
          1, 0, 0)
  }

  /** The dirty pass has read the chunk again, and its read was called back and sent first. */
  function Overtaken(was: Data, now: Data): State {
    var k := Key(0, 0);
    State({k}, [BULKED], map[k := now], map[k := now], {}, {}, map[0 := Read(k, true, Some(was))], [], multiset{}, 2, 1,
          0, 1)
  }

  /** The late bulk read has overwritten the newer contents. */
  function Reverted(was: Data, now: Data): State {
    var k := Key(0, 0);
    State({k}, [BULKED], map[k := now], map[k := was], {}, {}, map[], [], multiset{}, 2, 0, 0, 2)
  }

  lemma StepsAre(s: State, k: Key, id: nat, v: Data, alloc: seq<bool>)
    ensures CanBulk(s, k, id) ==> Step(s, BulkSubmit(s, k, id), false)
    ensures CanSubmit(s, k, id) ==> Step(s, DirtySubmit(s, k, id), false)
    ensures CanSample(s, id) ==> Step(s, Sample(s, id), false)
    ensures CanComplete(s, id) ==> Step(s, Complete(s, id, true), false)
    ensures CanFlush(s) ==> Step(s, Flush(s), false)
    ensures k in s.chunks ==> Step(s, WriteBegin(s, k), false)
    ensures CanWrite(s, k, alloc) ==> Step(s, WriteData(s, k, v, alloc), false)
    ensures k in s.writers ==> Step(s, WriteEnd(s, k), false)
  {
    hide CanBulk, CanSubmit, CanSample, CanComplete, CanFlush, CanWrite;
  }

  lemma FirstPart(was: Data, now: Data, there: Data) returns (t: seq<State>)
    ensures IsRun(t, false) && t[0] == Setup(was, there) && t[|t| - 1] == Rewritten(was, now, there)
  {
    hide Step;
    var k := Key(0, 0);
    var s0 := Setup(was, there);
    assert FRESH.alloc[0] && ChunkAllocated(FRESH.alloc, 0) && CanBulk(s0, k, 0);
    StepsAre(s0, k, 0, now, [true]);
    var s1 := BulkSubmit(s0, k, 0);
    StepsAre(s1, k, 0, now, [true]);
    var s2 := Sample(s1, 0);
    StepsAre(s2, k, 0, now, [true]);
    var s3 := WriteBegin(s2, k);
    StepsAre(s3, k, 0, now, [true]);
    var s4 := WriteData(s3, k, now, [true]);
    StepsAre(s4, k, 0, now, [true]);
    var s5 := WriteEnd(s4, k);
    assert s5 == Rewritten(was, now, there);
    t := [s0, s1, s2, s3, s4, s5];
  }

  lemma SecondPart(was: Data, now: Data, there: Data) returns (t: seq<State>)
    ensures IsRun(t, false) && t[0] == Rewritten(was, now, there) && t[|t| - 1] == Overtaken(was, now)
  {
    hide Step;
    var k := Key(0, 0);
    var s0 := Rewritten(was, now, there);
    StepsAre(s0, k, 1, now, []);
    var s1 := DirtySubmit(s0, k, 1);
    StepsAre(s1, k, 1, now, []);
    var s2 := Sample(s1, 1);
    StepsAre(s2, k, 1, now, []);
    var s3 := Complete(s2, 1, true);
    assert s3.aios == map[0 := Read(k, true, Some(was))];
    StepsAre(s3, k, 1, now, []);
    var s4 := Flush(s3);
    assert s4 == Overtaken(was, now);
    t := [s0, s1, s2, s3, s4];
  }

  lemma ThirdPart(was: Data, now: Data) returns (t: seq<State>)
    ensures IsRun(t, false) && t[0] == Overtaken(was, now) && t[|t| - 1] == Reverted(was, now)
  {
    hide Step;
    var k := Key(0, 0);
    var s0 := Overtaken(was, now);
    StepsAre(s0, k, 0, now, []);
    var s1 := Complete(s0, 0, true);
    assert s1.aios == map[];
    StepsAre(s1, k, 0, now, []);
    var s2 := Flush(s1);
    assert s2 == Reverted(was, now);
    t := [s0, s1, s2];
  }

  lemma Join(t: seq<State>, u: seq<State>)
    requires IsRun(t, false) && IsRun(u, false) && t[|t| - 1] == u[0]
    ensures IsRun(t + u[1..], false) && (t + u[1..])[|t + u[1..]| - 1] == u[|u| - 1]
  {
    hide Step;
    var j := t + u[1..];
    forall i | 0 <= i < |j| - 1
      ensures Step(j[i], j[i + 1], false)
    {
      if i >= |t| - 1 {
        assert j[i] == u[i - |t| + 1] && j[i + 1] == u[i - |t| + 2];
      }
    }
  }

  /** Without that care a run can come to rest with the destination holding the older contents: bulk reads are not
      marked in the `aio_bitmap`, so the dirty pass does not wait for them. */
  lemma LateBulkRead(was: Data, now: Data, there: Data) returns (t: seq<State>)
    requires was != now
    ensures IsRun(t, false) && Start(t[0]) && Quiet(t[|t| - 1])
    ensures t[|t| - 1].dest == map[Key(0, 0) := was] && t[|t| - 1].disk == map[Key(0, 0) := now]
  {
    var a := FirstPart(was, now, there);
    var b := SecondPart(was, now, there);
    var c := ThirdPart(was, now);
    Join(a, b);
    Join(a + b[1..], c);
    t := a + b[1..] + c[1..];
    hide IsRun;
    StartsWell(was, there);
  }

  lemma StartsWell(was: Data, there: Data)
    ensures Start(Setup(was, there))
  {
    assert FRESH.alloc[0];
    assert Wanted(FRESH, 0);
    forall k
      ensures k in {Key(0, 0)} <==> IsChunk([FRESH], k)
    {
    }
  }
}
