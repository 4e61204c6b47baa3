/** block-migration.c as a transition system: bulk and dirty reads in flight, guest writes, and the stream to the
    destination. Every run, whatever the interleaving, is judged by one invariant. */
module BlockMigration {
  import opened Basics

  /** The contents of one chunk of BDRV_SECTORS_PER_DIRTY_CHUNK (2048) sectors. */
  type Data = nat

  /** A chunk: device number and index within the device. */
  datatype Key = Key(d: nat, c: nat)

  /** `BlkMigDevState`: size and bulk cursor in sectors; `alloc` is what `bdrv_is_allocated` answers. */
  datatype Dev = Dev(total: nat, sharedBase: bool, alloc: seq<bool>, curSector: nat, bulkCompleted: bool)

  /** An asynchronous read that has been issued and not called back; the driver samples the disk at some moment
      between. */
  datatype Read = Read(key: Key, bulk: bool, sampled: Option<Data>)

  /** `BlkMigBlock` once read: an entry of `blk_list`. */
  datatype Block = Block(key: Key, data: Data, ok: bool)

  /** `chunks` are the chunks of all devices; `dirty` and `inflight` are their dirty bitmaps and `aio_bitmap`s;
      `writers` holds one element for each guest write between its start and the `bdrv_set_dirty` that ends it. */
  datatype State = State(
    chunks: set<Key>, devs: seq<Dev>, disk: map<Key, Data>, dest: map<Key, Data>, dirty: set<Key>, inflight: set<Key>,
    aios: map<nat, Read>, queue: seq<Block>, writers: multiset<Key>,
    issued: nat, submitted: nat, readDone: nat, transferred: nat)

  function Min(a: nat, b: nat): nat { if a < b then a else b }

  predicate ChunkAllocated(alloc: seq<bool>, c: nat) {
    exists t: nat :: t < |alloc| && 2048 * c <= t < 2048 * c + 2048 && alloc[t]
  }

  /** The chunks the bulk phase has to send. */
  predicate Wanted(dev: Dev, c: nat) {
    2048 * c < dev.total && (!dev.sharedBase || ChunkAllocated(dev.alloc, c))
  }

  /** The chunk `mig_save_device_bulk` submits next: the first wanted one from the cursor on. */
  ghost predicate NextBulk(dev: Dev, c: nat) {
    && Wanted(dev, c) && dev.curSector <= 2048 * c
    && forall e: nat :: dev.curSector <= 2048 * e && e < c ==> !Wanted(dev, e)
  }

  ghost predicate NoneWanted(dev: Dev) {
    forall c: nat :: dev.curSector <= 2048 * c ==> !Wanted(dev, c)
  }

  predicate Passed(devs: seq<Dev>, k: Key) {
    k.d < |devs| && 2048 * k.c < devs[k.d].curSector
  }

  ghost predicate BulkDone(devs: seq<Dev>) {
    forall d :: 0 <= d < |devs| ==> devs[d].bulkCompleted
  }

  ghost predicate ReadPending(aios: map<nat, Read>, k: Key) {
    exists i :: i in aios && aios[i].key == k
  }

  /** The device after a guest write to chunk `c`, which may allocate sectors of that chunk. */
  ghost predicate Grows(dev: Dev, c: nat, alloc: seq<bool>) {
    && |alloc| == |dev.alloc| && ChunkAllocated(alloc, c)
    && forall t: nat :: t < |alloc| && !(2048 * c <= t < 2048 * c + 2048) ==> alloc[t] == dev.alloc[t]
  }

  function Advance(dev: Dev, sector: nat): Dev {
    dev.(curSector := sector, bulkCompleted := sector >= dev.total)
  }

  // ---- the steps: when each may happen, and what it does ----

  ghost predicate CanWrite(s: State, k: Key, alloc: seq<bool>) {
    k in s.writers && k.d < |s.devs| && Grows(s.devs[k.d], k.c, alloc)
  }

  ghost predicate CanBulk(s: State, k: Key, id: nat) {
    k.d < |s.devs| && !s.devs[k.d].bulkCompleted && NextBulk(s.devs[k.d], k.c) && id !in s.aios
  }

  ghost predicate CanEndBulk(s: State, d: nat) {
    d < |s.devs| && !s.devs[d].bulkCompleted && NoneWanted(s.devs[d])
  }

  ghost predicate CanSubmit(s: State, k: Key, id: nat) {
    BulkDone(s.devs) && k in s.dirty && k !in s.inflight && id !in s.aios
  }

  ghost predicate CanSample(s: State, id: nat) {
    id in s.aios && s.aios[id].sampled.None? && s.aios[id].key in s.disk
  }

  ghost predicate CanComplete(s: State, id: nat) {
    id in s.aios && s.aios[id].sampled.Some? && s.submitted > 0
  }

  ghost predicate CanFlush(s: State) {
    s.queue != [] && s.queue[0].ok && s.readDone > 0
  }

  ghost predicate CanSyncSend(s: State, k: Key) {
    s.aios == map[] && s.queue == [] && s.writers == multiset{} && k in s.dirty && k in s.disk
  }

  function WriteBegin(s: State, k: Key): State
    requires k in s.chunks
  {
    s.(writers := s.writers + multiset{k})
  }

  ghost function WriteData(s: State, k: Key, v: Data, alloc: seq<bool>): State
    requires CanWrite(s, k, alloc)
  {
    s.(disk := s.disk[k := v], devs := s.devs[k.d := s.devs[k.d].(alloc := alloc)])
  }

  function WriteEnd(s: State, k: Key): State
    requires k in s.writers
  {
    s.(writers := s.writers - multiset{k}, dirty := s.dirty + {k})
  }

  /** `mig_save_device_bulk` submitting a chunk. */
  ghost function BulkSubmit(s: State, k: Key, id: nat): State
    requires CanBulk(s, k, id)
  {
    s.(aios := s.aios[id := Read(k, true, None)], dirty := s.dirty - {k},
       devs := s.devs[k.d := Advance(s.devs[k.d], Min(2048 * k.c + 2048, s.devs[k.d].total))],
       issued := s.issued + 1, submitted := s.submitted + 1)
  }

  /** `mig_save_device_bulk` finding nothing more to submit. */
  ghost function BulkEnd(s: State, d: nat): State
    requires CanEndBulk(s, d)
  {
    s.(devs := s.devs[d := Advance(s.devs[d], s.devs[d].total)])
  }

  /** `mig_save_device_dirty` submitting a chunk asynchronously. */
  ghost function DirtySubmit(s: State, k: Key, id: nat): State
    requires CanSubmit(s, k, id)
  {
    s.(aios := s.aios[id := Read(k, false, None)], dirty := s.dirty - {k}, inflight := s.inflight + {k},
       issued := s.issued + 1, submitted := s.submitted + 1)
  }

  /** The driver copies the chunk into the buffer of read `id`. */
  ghost function Sample(s: State, id: nat): State
    requires CanSample(s, id)
  {
    s.(aios := s.aios[id := s.aios[id].(sampled := Some(s.disk[s.aios[id].key]))])
  }

  /** `blk_mig_read_cb`. */
  ghost function Complete(s: State, id: nat, ok: bool): State
    requires CanComplete(s, id)
  {
    s.(aios := s.aios - {id}, queue := s.queue + [Block(s.aios[id].key, s.aios[id].sampled.value, ok)],
       inflight := s.inflight - {s.aios[id].key}, submitted := s.submitted - 1, readDone := s.readDone + 1)
  }

  /** One iteration of `flush_blks`: the oldest block goes out and is written at the destination. */
  ghost function Flush(s: State): State
    requires CanFlush(s)
  {
    s.(dest := s.dest[s.queue[0].key := s.queue[0].data], queue := s.queue[1..],
       readDone := s.readDone - 1, transferred := s.transferred + 1)
  }

  /** `mig_save_device_dirty` reading and sending a chunk synchronously. */
  ghost function SyncSend(s: State, k: Key): State
    requires CanSyncSend(s, k)
  {
    s.(dest := s.dest[k := s.disk[k]], dirty := s.dirty - {k})
  }

  // ---- the steps, field by field ----

  /** A bulk read takes the first chunk from the cursor on that holds an allocated sector, or any without a shared base;
      it clears the chunk's dirty bit, does not mark it in flight, and moves the cursor behind it. */
  lemma BulkSubmitIs(s: State, k: Key, id: nat)
    requires CanBulk(s, k, id)
    ensures var dev, s' := s.devs[k.d], BulkSubmit(s, k, id);
            && dev.curSector <= 2048 * k.c < dev.total
            && (dev.sharedBase ==> exists t: nat :: t < |dev.alloc| && t / 2048 == k.c && dev.alloc[t])
            && (forall c: nat :: dev.curSector <= 2048 * c && c < k.c ==>
                  dev.sharedBase && forall t: nat :: t < |dev.alloc| && t / 2048 == c ==> !dev.alloc[t])
            && s'.aios == s.aios[id := Read(k, true, None)] && s'.dirty == s.dirty - {k} && s'.inflight == s.inflight
            && s'.submitted == s.submitted + 1 && s'.issued == s.issued + 1
            && s'.queue == s.queue && s'.dest == s.dest && s'.disk == s.disk && s'.readDone == s.readDone
            && s'.devs[k.d].curSector == (if 2048 * k.c + 2048 < dev.total then 2048 * k.c + 2048 else dev.total)
            && s'.devs[k.d].bulkCompleted == (2048 * k.c + 2048 >= dev.total)
  {
    var dev := s.devs[k.d];
    if dev.sharedBase {
      AllocatedIs(dev.alloc, k.c);
    }
    forall c: nat | dev.curSector <= 2048 * c && c < k.c
      ensures dev.sharedBase && forall t: nat :: t < |dev.alloc| && t / 2048 == c ==> !dev.alloc[t]
    {
      assert !Wanted(dev, c);
      AllocatedIs(dev.alloc, c);
    }
  }

  lemma AllocatedIs(alloc: seq<bool>, c: nat)
    ensures ChunkAllocated(alloc, c) <==> exists t: nat :: t < |alloc| && t / 2048 == c && alloc[t]
  {
    if t: nat :| t < |alloc| && t / 2048 == c && alloc[t] {
      assert 2048 * c <= t < 2048 * c + 2048;
    }
    if t: nat :| t < |alloc| && 2048 * c <= t < 2048 * c + 2048 && alloc[t] {
      assert t / 2048 == c;
    }
  }

  /** An asynchronous dirty read is of a dirty chunk that is not in flight; it clears the bit and marks it in flight. */
  lemma DirtySubmitIs(s: State, k: Key, id: nat)
    requires CanSubmit(s, k, id)
    ensures var s' := DirtySubmit(s, k, id);
            && k in s.dirty && k !in s.inflight && (forall d :: 0 <= d < |s.devs| ==> s.devs[d].bulkCompleted)
            && s'.aios == s.aios[id := Read(k, false, None)] && s'.dirty == s.dirty - {k}
            && s'.inflight == s.inflight + {k} && s'.submitted == s.submitted + 1 && s'.issued == s.issued + 1
            && s'.queue == s.queue && s'.dest == s.dest && s'.disk == s.disk && s'.devs == s.devs
  {
  }

  /** A callback puts what was read at the end of the list and takes the chunk out of flight. */
  lemma CompleteIs(s: State, id: nat, ok: bool)
    requires CanComplete(s, id)
    ensures var r, s' := s.aios[id], Complete(s, id, ok);
            && s'.aios == s.aios - {id} && s'.queue == s.queue + [Block(r.key, r.sampled.value, ok)]
            && s'.inflight == s.inflight - {r.key} && s'.submitted == s.submitted - 1 && s'.readDone == s.readDone + 1
            && s'.dirty == s.dirty && s'.dest == s.dest && s'.disk == s.disk && s'.devs == s.devs
  {
  }

  /** The oldest block is sent first. */
  lemma FlushIs(s: State)
    requires CanFlush(s)
    ensures var s' := Flush(s);
            && s.queue[0].ok && s'.dest == s.dest[s.queue[0].key := s.queue[0].data] && s'.queue == s.queue[1..]
            && s'.readDone == s.readDone - 1 && s'.transferred == s.transferred + 1
            && s'.dirty == s.dirty && s'.aios == s.aios && s'.disk == s.disk && s'.devs == s.devs
  {
  }

  /** A synchronous send is of the chunk as it is, and clears its dirty bit. */
  lemma SyncSendIs(s: State, k: Key)
    requires CanSyncSend(s, k)
    ensures var s' := SyncSend(s, k);
            && k in s.dirty && s'.dest == s.dest[k := s.disk[k]] && s'.dirty == s.dirty - {k}
            && s'.queue == s.queue && s'.aios == s.aios && s'.disk == s.disk && s'.devs == s.devs
  {
  }

  /** A guest write changes the disk first, and sets the dirty bit when it ends. */
  lemma GuestWriteIs(s: State, k: Key, v: Data, alloc: seq<bool>)
    requires CanWrite(s, k, alloc)
    ensures WriteData(s, k, v, alloc).disk == s.disk[k := v] && WriteData(s, k, v, alloc).dirty == s.dirty
    ensures WriteEnd(s, k).dirty == s.dirty + {k} && WriteEnd(s, k).disk == s.disk
  {
  }

  // ---- the invariant ----

  /** The contents of chunk `k` at the destination once all of the queue has arrived. */
  function Arrived(q: seq<Block>, k: Key, v: Data): Data {
    if q == [] then v
    else if q[|q| - 1].key == k then q[|q| - 1].data
    else Arrived(q[..|q| - 1], k, v)
  }

  predicate NoErrors(q: seq<Block>) {
    forall i :: 0 <= i < |q| ==> q[i].ok
  }

  /** Cursors stand at a chunk boundary or at the end, and at the end once the bulk phase is completed. */
  ghost predicate Cursors(devs: seq<Dev>) {
    forall d :: 0 <= d < |devs| ==>
      && devs[d].curSector <= devs[d].total == |devs[d].alloc|
      && (devs[d].curSector == devs[d].total || devs[d].curSector % 2048 == 0)
      && (devs[d].bulkCompleted ==> devs[d].curSector == devs[d].total)
  }

  predicate IsChunk(devs: seq<Dev>, k: Key) {
    k.d < |devs| && 2048 * k.c < devs[k.d].total
  }

  ghost predicate Domains(s: State) {
    && s.disk.Keys == s.chunks && s.dest.Keys == s.chunks && s.dirty <= s.chunks
    && (forall k :: k in s.writers ==> k in s.chunks)
    && (forall k :: k in s.chunks <==> IsChunk(s.devs, k))
  }

  ghost predicate Known(s: State) {
    && (forall i :: i in s.aios ==> s.aios[i].key in s.chunks && Passed(s.devs, s.aios[i].key))
    && (forall i :: 0 <= i < |s.queue| ==> s.queue[i].key in s.chunks && Passed(s.devs, s.queue[i].key))
  }

  /** Every asynchronous read is counted in exactly one of the three counters of `block_mig_state`. */
  ghost predicate Conserved(s: State) {
    && s.submitted == |s.aios| && s.readDone == |s.queue|
    && s.issued == s.submitted + s.readDone + s.transferred
  }

  /** Chunk `k` is clean: it is not dirty and no write to it is under way. */
  predicate Clean(s: State, k: Key) {
    k !in s.dirty && k !in s.writers
  }

  /** No outstanding read of chunk `k` holds contents other than `v`. */
  ghost predicate ReadsFresh(aios: map<nat, Read>, k: Key, v: Data) {
    forall i :: i in aios && aios[i].key == k && aios[i].sampled.Some? ==> aios[i].sampled.value == v
  }

  /** A clean chunk the bulk phase has passed, with no read of it left, arrives as it is on the source. */
  ghost predicate Agrees(devs: seq<Dev>, aios: map<nat, Read>, queue: seq<Block>, k: Key, there: Data, here: Data) {
    Passed(devs, k) && !ReadPending(aios, k) && NoErrors(queue) ==> Arrived(queue, k, there) == here
  }

  /** With a shared base image, a chunk never written is the same on both sides before the bulk phase gets there. */
  ghost predicate Shared(devs: seq<Dev>, k: Key, there: Data, here: Data) {
    k.d < |devs| && !Passed(devs, k) && !Wanted(devs[k.d], k.c) ==> there == here
  }

  ghost predicate Settled(s: State, k: Key) {
    && k in s.disk && k in s.dest
    && (Clean(s, k) ==> ReadsFresh(s.aios, k, s.disk[k]) && Agrees(s.devs, s.aios, s.queue, k, s.dest[k], s.disk[k]))
    && Shared(s.devs, k, s.dest[k], s.disk[k])
  }

  ghost predicate Shape(s: State) {
    Cursors(s.devs) && Domains(s) && Known(s) && Conserved(s)
  }

  ghost predicate Inv(s: State) {
    && Shape(s)
    && forall k :: k in s.chunks ==> Settled(s, k)
  }

  // ---- every step keeps it ----

  /** The oldest entry may be delivered first without changing what arrives. */
  lemma {:induction false} DeliverHead(q: seq<Block>, k: Key, v: Data)
    requires q != []
    ensures Arrived(q, k, v) == Arrived(q[1..], k, if q[0].key == k then q[0].data else v)
  {
    if |q| > 1 {
      DeliverHead(q[..|q| - 1], k, v);
      assert q[..|q| - 1][1..] == q[1..][..|q| - 2];
    }
  }

  lemma {:induction false} NotQueued(q: seq<Block>, k: Key, v: Data)
    requires forall i :: 0 <= i < |q| ==> q[i].key != k
    ensures Arrived(q, k, v) == v
  {
    if q != [] {
      NotQueued(q[..|q| - 1], k, v);
    }
  }

  lemma QueueTail(q: seq<Block>, b: Block, k: Key, v: Data)
    ensures Arrived(q + [b], k, v) == if b.key == k then b.data else Arrived(q, k, v)
    ensures NoErrors(q + [b]) ==> NoErrors(q) && b.ok
  {
    assert (q + [b])[..|q|] == q;
    assert (q + [b])[|q|] == b;
    assert forall i :: 0 <= i < |q| ==> (q + [b])[i] == q[i];
  }

  /** A write to chunk `c` leaves the other chunks as allocated as they were. */
  lemma OtherChunk(dev: Dev, c: nat, alloc: seq<bool>, e: nat)
    requires Grows(dev, c, alloc)
    ensures |alloc| == |dev.alloc| && ChunkAllocated(alloc, c)
    ensures e != c ==> (ChunkAllocated(alloc, e) <==> ChunkAllocated(dev.alloc, e))
  {
    forall t: nat | t < |alloc| && e != c && 2048 * e <= t < 2048 * e + 2048
      ensures alloc[t] == dev.alloc[t]
    {
    }
  }

  /** Changing one device's cursor or allocation, never moving the cursor back. */
  lemma DevUpdated(devs: seq<Dev>, d: nat, dev: Dev)
    requires d < |devs| && dev.total == devs[d].total && Cursors(devs) && Cursors([dev])
    requires dev.curSector >= devs[d].curSector
    ensures Cursors(devs[d := dev])
    ensures forall e :: IsChunk(devs[d := dev], e) == IsChunk(devs, e)
    ensures forall e :: Passed(devs, e) ==> Passed(devs[d := dev], e)
  {
    assert [dev][0] == dev;
  }

  /** Issuing a read changes the picture for its own chunk only. */
  lemma ReadAdded(aios: map<nat, Read>, id: nat, r: Read, e: Key, v: Data)
    requires id !in aios && r.sampled.None?
    ensures ReadsFresh(aios[id := r], e, v) <==> ReadsFresh(aios, e, v)
    ensures ReadPending(aios[id := r], e) <==> e == r.key || ReadPending(aios, e)
  {
    var aios' := aios[id := r];
    assert aios'[id] == r;
    assert forall i :: i in aios ==> i in aios' && aios'[i] == aios[i];
  }

  lemma WriteShape(s: State, k: Key)
    requires Shape(s)
    ensures k in s.chunks ==> Shape(WriteBegin(s, k))
    ensures k in s.writers ==> Shape(WriteEnd(s, k))
  {
    hide Passed, IsChunk, Cursors;
  }

  lemma WriteDataShape(s: State, k: Key, v: Data, alloc: seq<bool>)
    requires Shape(s) && CanWrite(s, k, alloc)
    ensures Shape(WriteData(s, k, v, alloc))
  {
    hide Grows, Passed, IsChunk;
    OtherChunk(s.devs[k.d], k.c, alloc, k.c);
    DevUpdated(s.devs, k.d, s.devs[k.d].(alloc := alloc));
    hide Cursors;
  }

  lemma BulkShape(s: State, k: Key, id: nat)
    requires Shape(s) && CanBulk(s, k, id)
    ensures Shape(BulkSubmit(s, k, id))
  {
    hide ChunkAllocated;
    var s' := BulkSubmit(s, k, id);
    DevUpdated(s.devs, k.d, s'.devs[k.d]);
    assert IsChunk(s.devs, k) && Passed(s'.devs, k);
    hide Cursors, IsChunk, Passed, NextBulk;
  }

  lemma BulkEndShape(s: State, d: nat)
    requires Shape(s) && CanEndBulk(s, d)
    ensures Shape(BulkEnd(s, d))
  {
    hide NoneWanted, IsChunk, Passed;
    DevUpdated(s.devs, d, BulkEnd(s, d).devs[d]);
    hide Cursors;
  }

  lemma DirtySubmitShape(s: State, k: Key, id: nat)
    requires Shape(s) && CanSubmit(s, k, id)
    ensures Shape(DirtySubmit(s, k, id))
  {
    assert IsChunk(s.devs, k) && Passed(s.devs, k);
    hide IsChunk, Passed, Cursors;
  }

  lemma SampleShape(s: State, id: nat)
    requires Shape(s) && CanSample(s, id)
    ensures Shape(Sample(s, id))
  {
    hide Cursors, IsChunk, Passed;
    var s' := Sample(s, id);
    assert s'.aios.Keys == s.aios.Keys && |s'.aios.Keys| == |s'.aios| && |s.aios.Keys| == |s.aios|;
    assert forall i :: i in s.aios ==> s'.aios[i].key == s.aios[i].key;
  }

  lemma CompleteShape(s: State, id: nat, ok: bool)
    requires Shape(s) && CanComplete(s, id)
    ensures Shape(Complete(s, id, ok))
  {
    hide Cursors, IsChunk, Passed;
    assert Complete(s, id, ok).aios.Keys == s.aios.Keys - {id};
  }

  lemma SendShape(s: State, k: Key)
    requires Shape(s)
    ensures CanFlush(s) ==> Shape(Flush(s))
    ensures CanSyncSend(s, k) ==> Shape(SyncSend(s, k))
  {
    hide Cursors, IsChunk, Passed;
    if CanFlush(s) {
      assert forall i :: 0 <= i < |s.queue| - 1 ==> Flush(s).queue[i] == s.queue[i + 1];
    }
  }

  lemma WriteKeeps(s: State, k: Key)
    requires Inv(s)
    ensures k in s.chunks ==> Inv(WriteBegin(s, k))
    ensures k in s.writers ==> Inv(WriteEnd(s, k))
  {
    hide ReadsFresh, Shared, Agrees, Shape;
    WriteShape(s, k);
    forall e | e in s.chunks
      ensures k in s.chunks ==> Settled(WriteBegin(s, k), e)
      ensures k in s.writers ==> Settled(WriteEnd(s, k), e)
    {
      assert Settled(s, e);
    }
  }

  lemma WriteDataSettled(s: State, k: Key, v: Data, alloc: seq<bool>, e: Key)
    requires Inv(s) && CanWrite(s, k, alloc) && e in s.chunks
    ensures Settled(WriteData(s, k, v, alloc), e)
  {
    hide Cursors, Known, Conserved, ReadsFresh, Arrived, ReadPending, NoErrors, Grows, ChunkAllocated;
    assert Settled(s, e) && IsChunk(s.devs, e);
    OtherChunk(s.devs[k.d], k.c, alloc, e.c);
  }

  lemma WriteDataKeeps(s: State, k: Key, v: Data, alloc: seq<bool>)
    requires Inv(s) && CanWrite(s, k, alloc)
    ensures Inv(WriteData(s, k, v, alloc))
  {
    hide Settled, Shape, Grows;
    WriteDataShape(s, k, v, alloc);
    forall e | e in s.chunks
      ensures Settled(WriteData(s, k, v, alloc), e)
    {
      WriteDataSettled(s, k, v, alloc, e);
    }
  }

  /** Moving the cursor over a chunk that is not wanted: no read or queue entry concerns it, and the two sides share
      it. */
  lemma SkipSettled(s: State, devs: seq<Dev>, e: Key)
    requires Inv(s) && e in s.chunks && !Passed(s.devs, e) && !Wanted(s.devs[e.d], e.c)
    ensures Agrees(devs, s.aios, s.queue, e, s.dest[e], s.disk[e]) && s.dest[e] == s.disk[e]
  {
    assert Settled(s, e);
    NotQueued(s.queue, e, s.dest[e]);
  }

  lemma BulkSettled(s: State, k: Key, id: nat, e: Key)
    requires Inv(s) && CanBulk(s, k, id) && e in s.chunks
    ensures Settled(BulkSubmit(s, k, id), e)
  {
    hide Cursors, Conserved, Arrived, NoErrors, ChunkAllocated, ReadPending;
    assert Settled(s, e) && IsChunk(s.devs, e);
    ReadAdded(s.aios, id, Read(k, true, None), e, s.disk[e]);
    if e == k {
      assert ReadsFresh(s.aios, k, s.disk[k]);
    } else if !Passed(s.devs, e) && !Wanted(s.devs[e.d], e.c) {
      SkipSettled(s, BulkSubmit(s, k, id).devs, e);
    }
  }

  lemma BulkSubmitKeeps(s: State, k: Key, id: nat)
    requires Inv(s) && CanBulk(s, k, id)
    ensures Inv(BulkSubmit(s, k, id))
  {
    hide Settled, Shape, NextBulk;
    BulkShape(s, k, id);
    forall e | e in s.chunks
      ensures Settled(BulkSubmit(s, k, id), e)
    {
      BulkSettled(s, k, id, e);
    }
  }

  lemma BulkEndSettled(s: State, d: nat, e: Key)
    requires Inv(s) && CanEndBulk(s, d) && e in s.chunks
    ensures Settled(BulkEnd(s, d), e)
  {
    hide Cursors, Conserved, Arrived, NoErrors, ChunkAllocated, ReadPending, ReadsFresh;
    assert Settled(s, e) && IsChunk(s.devs, e);
    if !Passed(s.devs, e) && !Wanted(s.devs[e.d], e.c) {
      SkipSettled(s, BulkEnd(s, d).devs, e);
    }
  }

  lemma BulkEndKeeps(s: State, d: nat)
    requires Inv(s) && CanEndBulk(s, d)
    ensures Inv(BulkEnd(s, d))
  {
    hide Settled, Shape, NoneWanted;
    BulkEndShape(s, d);
    forall e | e in s.chunks
      ensures Settled(BulkEnd(s, d), e)
    {
      BulkEndSettled(s, d, e);
    }
  }

  lemma DirtySubmitSettled(s: State, k: Key, id: nat, e: Key)
    requires Inv(s) && CanSubmit(s, k, id) && e in s.chunks
    ensures e != k || k in s.writers || ReadsFresh(s.aios, k, s.disk[k]) <==> Settled(DirtySubmit(s, k, id), e)
  {
    hide Cursors, Conserved, Known, ReadsFresh, ReadPending, Arrived, NoErrors, Passed, Shared;
    assert Settled(s, e);
    ReadAdded(s.aios, id, Read(k, false, None), e, s.disk[e]);
  }

  /** Submitting a dirty chunk keeps the invariant exactly when no outdated read of it is still to be called back
      (or a write to it is under way, which will make it dirty again). */
  lemma DirtySubmitKeeps(s: State, k: Key, id: nat)
    requires Inv(s) && CanSubmit(s, k, id)
    ensures k in s.disk
    ensures Inv(DirtySubmit(s, k, id)) <==> k in s.writers || ReadsFresh(s.aios, k, s.disk[k])
  {
    hide Settled, Cursors, Known, Conserved, ReadsFresh;
    var s' := DirtySubmit(s, k, id);
    DirtySubmitShape(s, k, id);
    DirtySubmitSettled(s, k, id, k);
    if k in s.writers || ReadsFresh(s.aios, k, s.disk[k]) {
      forall e | e in s.chunks
        ensures Settled(s', e)
      {
        DirtySubmitSettled(s, k, id, e);
      }
    }
  }

  lemma SampleKeeps(s: State, id: nat)
    requires Inv(s) && CanSample(s, id)
    ensures Inv(Sample(s, id))
  {
    hide Shape, Shared, Arrived, NoErrors;
    SampleShape(s, id);
    var s' := Sample(s, id);
    assert s'.aios.Keys == s.aios.Keys;
    forall e | e in s.chunks
      ensures Settled(s', e)
    {
      assert Settled(s, e);
    }
  }

  lemma CompleteSettled(s: State, id: nat, ok: bool, e: Key)
    requires Inv(s) && CanComplete(s, id) && e in s.chunks
    ensures Settled(Complete(s, id, ok), e)
  {
    hide Shape, Shared, Arrived, NoErrors;
    var r := s.aios[id];
    assert Settled(s, e);
    QueueTail(s.queue, Block(r.key, r.sampled.value, ok), e, s.dest[e]);
    assert forall i :: i in s.aios && i != id ==> i in Complete(s, id, ok).aios;
  }

  lemma CompleteKeeps(s: State, id: nat, ok: bool)
    requires Inv(s) && CanComplete(s, id)
    ensures Inv(Complete(s, id, ok))
  {
    hide Settled, Shape;
    CompleteShape(s, id, ok);
    forall e | e in s.chunks
      ensures Settled(Complete(s, id, ok), e)
    {
      CompleteSettled(s, id, ok, e);
    }
  }

  lemma FlushKeeps(s: State)
    requires Inv(s) && CanFlush(s)
    ensures Inv(Flush(s))
  {
    hide Cursors, Conserved, IsChunk, Passed, Arrived, ReadsFresh, ReadPending, Wanted;
    SendShape(s, s.queue[0].key);
    var s' := Flush(s);
    assert NoErrors(s'.queue) ==> NoErrors(s.queue) by {
      assert forall i :: 0 < i < |s.queue| ==> s'.queue[i - 1] == s.queue[i];
    }
    forall e | e in s.chunks
      ensures Settled(s', e)
    {
      assert Settled(s, e);
      DeliverHead(s.queue, e, s.dest[e]);
    }
  }

  lemma SyncSendKeeps(s: State, k: Key)
    requires Inv(s) && CanSyncSend(s, k)
    ensures Inv(SyncSend(s, k))
  {
    hide Shape, Passed, Wanted;
    SendShape(s, k);
    forall e | e in s.chunks
      ensures Settled(SyncSend(s, k), e)
    {
      assert Settled(s, e);
    }
  }
}
