/** block-migration.c: how a run comes to rest. Every outstanding read is called back, the list flushed and what is
    dirty sent at once; with an outdated read still out, the order of the callbacks decides what the destination ends up
    with. */
module BlockMigrationRest {
  import opened Basics
  import opened BlockMigration
  import opened BlockMigrationRuns

  /** A run without further submissions of the asynchronous dirty pass. */
  ghost predicate IsCalm(t: seq<State>) {
    |t| > 0 && forall i :: 0 <= i < |t| - 1 ==> OtherStep(t[i], t[i + 1])
  }

  ghost predicate Reaches(s: State, s': State) {
    exists t :: IsCalm(t) && t[0] == s && t[|t| - 1] == s'
  }

  lemma Stays(s: State)
    ensures Reaches(s, s)
  {
    assert IsCalm([s]);
  }

  lemma StepReaches(s: State, s': State)
    requires OtherStep(s, s')
    ensures Reaches(s, s')
  {
    hide OtherStep;
    var t := [s, s'];
    assert IsCalm(t) && t[0] == s && t[|t| - 1] == s';
  }

  lemma ReachesTrans(a: State, b: State, c: State)
    requires Reaches(a, b) && Reaches(b, c)
    ensures Reaches(a, c)
  {
    hide OtherStep;
    var t :| IsCalm(t) && t[0] == a && t[|t| - 1] == b;
    var u :| IsCalm(u) && u[0] == b && u[|u| - 1] == c;
    var j := t + u[1..];
    forall i | 0 <= i < |j| - 1
      ensures OtherStep(j[i], j[i + 1])
    {
      if i >= |t| - 1 {
        assert j[i] == u[i - |t| + 1] && j[i + 1] == u[i - |t| + 2];
      }
    }
    assert IsCalm(j) && j[0] == a && j[|j| - 1] == c;
  }

  /** What finishing the guest's writes and the reads leaves alone. */
  ghost predicate SameData(s: State, s': State) {
    s'.disk == s.disk && s'.devs == s.devs && s'.chunks == s.chunks
  }

  /** Every guest write under way ends, leaving its chunk dirty. */
  lemma {:induction false} EndWrites(s: State) returns (s': State)
    requires Shape(s)
    ensures Reaches(s, s') && Shape(s') && SameData(s, s') && s'.writers == multiset{}
    ensures s'.aios == s.aios && s'.queue == s.queue && s'.dest == s.dest
    ensures forall k :: k in s'.dirty <==> k in s.dirty || k in s.writers
    decreases |s.writers|
  {
    hide Shape, OtherStep, Reaches;
    if s.writers == multiset{} {
      Stays(s);
      s' := s;
    } else {
      var k :| k in s.writers;
      var m := WriteEnd(s, k);
      WriteShape(s, k);
      EndIsStep(s, k);
      StepReaches(s, m);
      s' := EndWrites(m);
      ReachesTrans(s, m, s');
    }
  }

  lemma EndIsStep(s: State, k: Key)
    requires k in s.writers
    ensures OtherStep(s, WriteEnd(s, k))
  {
  }

  lemma ReadIsStep(s: State, id: nat)
    ensures CanSample(s, id) ==> OtherStep(s, Sample(s, id))
    ensures CanComplete(s, id) ==> OtherStep(s, Complete(s, id, true))
  {
    hide CanSample, CanComplete;
  }

  lemma SendIsStep(s: State, k: Key)
    ensures CanFlush(s) ==> OtherStep(s, Flush(s))
    ensures CanSyncSend(s, k) ==> OtherStep(s, SyncSend(s, k))
  {
    hide CanFlush, CanSyncSend;
  }

  /** What calling back reads leaves alone. */
  ghost predicate Called(s: State, s': State) {
    && SameData(s, s') && s'.dirty == s.dirty && s'.dest == s.dest && s'.writers == s.writers
    && (NoErrors(s.queue) ==> NoErrors(s'.queue))
  }

  /** One read is sampled, if it has not been, and called back. */
  lemma CallBack(s: State, id: nat) returns (s': State)
    requires Shape(s) && id in s.aios
    ensures Reaches(s, s') && Shape(s') && Called(s, s') && s'.aios == s.aios - {id}
    ensures s.aios[id].sampled.Some? ==> s'.queue == s.queue + [Block(s.aios[id].key, s.aios[id].sampled.value, true)]
  {
    hide OtherStep, Reaches, Cursors, Domains, Conserved;
    var m := s;
    Stays(s);
    if s.aios[id].sampled.None? {
      ReadReady(s, id);
      m := Sample(s, id);
      SampleShape(s, id);
      ReadIsStep(s, id);
      StepReaches(s, m);
    }
    ReadReady(m, id);
    s' := Complete(m, id, true);
    CompleteShape(m, id, true);
    ReadIsStep(m, id);
    StepReaches(m, s');
    ReachesTrans(s, m, s');
    assert s'.aios == s.aios - {id};
  }

  lemma ReadReady(s: State, id: nat)
    requires Shape(s) && id in s.aios
    ensures s.submitted > 0 && s.aios[id].key in s.disk
  {
    assert s.aios.Keys != {};
  }

  /** All reads but `last` are called back. */
  lemma {:induction false} CallBackOthers(s: State, last: nat) returns (s': State)
    requires Shape(s) && last in s.aios
    ensures Reaches(s, s') && Shape(s') && Called(s, s') && s'.aios == map[last := s.aios[last]]
    decreases |s.aios|
  {
    hide Shape, OtherStep, Reaches, NoErrors;
    if id :| id in s.aios && id != last {
      var m := CallBack(s, id);
      assert |m.aios| < |s.aios| by { FewerReads(s.aios, id); }
      s' := CallBackOthers(m, last);
      ReachesTrans(s, m, s');
    } else {
      Stays(s);
      s' := s;
    }
  }

  lemma FewerReads(aios: map<nat, Read>, id: nat)
    requires id in aios
    ensures |aios - {id}| < |aios|
  {
    assert (aios - {id}).Keys == aios.Keys - {id} && |(aios - {id}).Keys| == |aios - {id}| && |aios.Keys| == |aios|;
  }

  /** The whole list is sent. */
  lemma {:induction false} FlushAll(s: State) returns (s': State)
    requires Shape(s) && NoErrors(s.queue)
    ensures Reaches(s, s') && Shape(s') && SameData(s, s') && s'.queue == []
    ensures s'.aios == s.aios && s'.dirty == s.dirty && s'.writers == s.writers
    ensures forall k :: k in s.dest ==> k in s'.dest && s'.dest[k] == Arrived(s.queue, k, s.dest[k])
    decreases |s.queue|
  {
    hide Cursors, Domains, Known, OtherStep, Reaches, Arrived;
    if s.queue == [] {
      Stays(s);
      s' := s;
      forall k | k in s.dest
        ensures Arrived(s.queue, k, s.dest[k]) == s.dest[k]
      {
        NotQueued(s.queue, k, s.dest[k]);
      }
    } else {
      var m := Flush(s);
      SendShape(s, s.queue[0].key);
      SendIsStep(s, s.queue[0].key);
      StepReaches(s, m);
      assert NoErrors(m.queue);
      s' := FlushAll(m);
      ReachesTrans(s, m, s');
      forall k | k in s.dest
        ensures k in s'.dest && s'.dest[k] == Arrived(s.queue, k, s.dest[k])
      {
        DeliverHead(s.queue, k, s.dest[k]);
      }
    }
  }

  /** Whatever is dirty is sent synchronously. */
  lemma {:induction false} SyncAll(s: State) returns (s': State)
    requires Shape(s) && s.aios == map[] && s.queue == [] && s.writers == multiset{}
    ensures Reaches(s, s') && Shape(s') && SameData(s, s') && s'.dirty == {}
    ensures s'.aios == map[] && s'.queue == [] && s'.writers == multiset{}
    ensures forall k :: k in s.dest && k !in s.dirty ==> k in s'.dest && s'.dest[k] == s.dest[k]
    decreases |s.dirty|
  {
    hide Shape, OtherStep, Reaches;
    if k :| k in s.dirty {
      DirtyOnDisk(s, k);
      var m := SyncSend(s, k);
      SendShape(s, k);
      SendIsStep(s, k);
      StepReaches(s, m);
      s' := SyncAll(m);
      ReachesTrans(s, m, s');
    } else {
      Stays(s);
      s' := s;
    }
  }

  lemma DirtyOnDisk(s: State, k: Key)
    requires Shape(s) && k in s.dirty
    ensures k in s.disk && k in s.dest
  {
  }

  /** From any state with an outdated read of a clean chunk still out, a run can come to rest with what that read holds
      at the destination. */
  lemma LastReadWins(s: State, k: Key, i: nat) returns (s': State)
    requires Shape(s) && NoErrors(s.queue) && BulkDone(s.devs) && k in s.dest && Clean(s, k)
    requires i in s.aios && s.aios[i].key == k && s.aios[i].sampled.Some?
    ensures Reaches(s, s') && Quiet(s') && s'.disk == s.disk && k in s'.dest && s'.dest[k] == s.aios[i].sampled.value
  {
    hide Shape, OtherStep, Reaches, BulkDone, NoErrors, Arrived;
    var a := EndWrites(s);
    var b := CallBackOthers(a, i);
    ReachesTrans(s, a, b);
    var c := CallBack(b, i);
    ReachesTrans(s, b, c);
    assert c.aios == map[];
    var d := FlushAll(c);
    ReachesTrans(s, c, d);
    QueueTail(b.queue, Block(k, s.aios[i].sampled.value, true), k, c.dest[k]);
    s' := SyncAll(d);
    ReachesTrans(s, d, s');
  }

  // ---- harmless submissions ----

  lemma {:induction false} CalmKeeps(t: seq<State>, i: nat)
    requires IsCalm(t) && Inv(t[0]) && i < |t|
    ensures Inv(t[i])
  {
    hide Inv, OtherStep;
    if i > 0 {
      CalmKeeps(t, i - 1);
      OtherStepKeeps(t[i - 1], t[i]);
    }
  }

  /** Every way of coming to rest from `s`, without further submissions of the dirty pass, ends with both sides
      equal. */
  ghost predicate Harmless(s: State) {
    forall t: seq<State> :: IsCalm(t) && t[0] == s && Quiet(t[|t| - 1]) ==> t[|t| - 1].dest == t[|t| - 1].disk
  }

  /** Submitting a dirty chunk is harmless if and only if a write to it is under way, which will set its dirty bit
      again, or no outstanding read of it holds contents other than the disk's: otherwise a run exists that comes to
      rest with the older contents at the destination. */
  lemma HarmlessExactly(s: State, k: Key, id: nat)
    requires Inv(s) && CanSubmit(s, k, id) && NoErrors(s.queue)
    ensures k in s.disk && (Harmless(DirtySubmit(s, k, id)) <==> k in s.writers || ReadsFresh(s.aios, k, s.disk[k]))
  {
    hide Settled, Cursors, Known, Conserved, OtherStep, NoErrors;
    var m := DirtySubmit(s, k, id);
    DirtySubmitShape(s, k, id);
    DirtySubmitKeeps(s, k, id);
    if k in s.writers || ReadsFresh(s.aios, k, s.disk[k]) {
      forall t: seq<State> | IsCalm(t) && t[0] == m && Quiet(t[|t| - 1])
        ensures t[|t| - 1].dest == t[|t| - 1].disk
      {
        CalmKeeps(t, |t| - 1);
        QuietAgrees(t[|t| - 1]);
      }
    } else {
      var i :| i in s.aios && s.aios[i].key == k && s.aios[i].sampled.Some? && s.aios[i].sampled.value != s.disk[k];
      assert i in m.aios && m.aios[i] == s.aios[i];
      var e := LastReadWins(m, k, i);
      var t :| IsCalm(t) && t[0] == m && t[|t| - 1] == e;
      assert e.dest[k] != e.disk[k];
    }
  }
}
