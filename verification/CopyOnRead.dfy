/** block.c: tracked requests and copy-on-read, as a transition system.
    A request is a coroutine; between two of its steps any other request may step. Each driver
    operation acts one sector at a time, so every interleaving of driver I/O is a run. */
module CopyOnRead {
  import opened Basics
  import opened Alignment

  type Val = int

  // ---- the image ----

  /** Top image over a fixed backing view: a sector reads from the top where it is allocated there. */
  datatype Image = Image(alloc: seq<bool>, data: seq<Val>, base: seq<Val>)

  ghost predicate Sized(img: Image, n: nat)
  {
    |img.alloc| == n && |img.data| == n && |img.base| == n
  }

  function ViewAt(img: Image, t: nat): Val
    requires t < |img.alloc| && Sized(img, |img.alloc|)
  {
    if img.alloc[t] then img.data[t] else img.base[t]
  }

  /** What a driver write of `v` to sector `t` may do: that sector reads back `v` and is allocated.
      Other sectors may become allocated with it, but every one of them reads as before. */
  ghost predicate DriverWrites(img: Image, img': Image, t: nat, v: Val)
    requires Sized(img, |img.alloc|) && t < |img.alloc|
  {
    && Sized(img', |img.alloc|)
    && img'.alloc[t] && ViewAt(img', t) == v
    && forall u: nat :: u < |img.alloc| ==>
         && (img.alloc[u] ==> img'.alloc[u])
         && (u != t ==> ViewAt(img', u) == ViewAt(img, u))
  }

  // ---- requests ----

  datatype Phase =
    | Waiting(on: nat)        // queued on a tracked request by wait_for_overlapping_requests
    | Checking                // tracked; about to call bdrv_co_is_allocated
    | Reading(bounce: bool)   // tracked; driver read, of whole clusters when bounce
    | WritingBack             // tracked; the bounce buffer goes back to the image
    | Writing                 // tracked; guest write
    | Done(ok: bool)          // tracked; about to leave through tracked_request_end

  datatype Req = Req(
    write: bool, cor: bool, sector: nat, nb: nat, payload: seq<Val>,
    phase: Phase,
    buf: map<nat, Val>,       // sectors read so far
    done: set<nat>)           // sectors written (or written back) so far

  datatype State = State(
    img: Image,
    reqs: map<nat, Req>,      // every request between entry and exit
    inFlight: int,            // copy_on_read_in_flight
    nextId: nat,
    log: seq<(nat, Val)>)     // guest sector writes, in the order the driver performed them

  /** `n` sectors in clusters of `c`; `zeroes` says the driver implements bdrv_co_write_zeroes. */
  datatype Config = Config(n: nat, c: nat, zeroes: bool)

  ghost predicate ValidConfig(cfg: Config)
  {
    cfg.c > 0 && Aligned(cfg.n, cfg.c)
  }

  predicate Tracked(r: Req)
  {
    !r.phase.Waiting?
  }

  /** `round_to_clusters`: first sector and end of the covering clusters. */
  function RoundDown(c: nat, sector: nat): (x: nat)
    requires c > 0
  {
    AlignDown(sector, c)
  }

  function RoundUp(c: nat, sector: nat, nb: nat): (x: nat)
    requires c > 0
  {
    var lo := AlignDown(sector, c);
    lo + AlignUp(sector - lo + nb, c)
  }

  function Lo(cfg: Config, r: Req): (x: nat)
    requires cfg.c > 0
  {
    RoundDown(cfg.c, r.sector)
  }

  function Hi(cfg: Config, r: Req): (x: nat)
    requires cfg.c > 0
  {
    RoundUp(cfg.c, r.sector, r.nb)
  }

  /** `tracked_request_overlaps` */
  predicate Overlaps(req: Req, sector: nat, nb: int)
  {
    if sector >= req.sector + req.nb then false
    else if req.sector >= sector + nb then false
    else true
  }

  /** The scan of `wait_for_overlapping_requests`: only the newcomer `q` is rounded. */
  predicate Conflicts(cfg: Config, q: Req, r: Req)
    requires cfg.c > 0
  {
    Overlaps(r, Lo(cfg, q), Hi(cfg, q) - Lo(cfg, q))
  }

  ghost predicate ClustersDisjoint(cfg: Config, a: Req, b: Req)
    requires cfg.c > 0
  {
    Hi(cfg, a) <= Lo(cfg, b) || Hi(cfg, b) <= Lo(cfg, a)
  }

  /** The sectors the driver read of `r` covers. */
  predicate InReadRange(cfg: Config, r: Req, t: nat)
    requires cfg.c > 0
  {
    if r.phase == Reading(false) then r.sector <= t < r.sector + r.nb
    else Lo(cfg, r) <= t < Hi(cfg, r)
  }

  /** The value written back: `buffer_is_zero` diverts an all-zero buffer to bdrv_co_do_write_zeroes. */
  function WriteBackValue(cfg: Config, r: Req, t: nat): Val
    requires t in r.buf
  {
    if cfg.zeroes && (forall u :: u in r.buf ==> r.buf[u] == 0) then 0 else r.buf[t]
  }

  // ---- steps ----

  datatype Action =
    | Arrive(q: Req)
    | Retry(id: nat)
    | CheckAlloc(id: nat, bounce: bool)
    | ReadSector(id: nat, t: nat)
    | ReadDone(id: nat)
    | WriteBack(id: nat, t: nat)
    | WriteBackDone(id: nat)
    | GuestWrite(id: nat, t: nat)
    | WriteDone(id: nat)
    | Fail(id: nat)
    | End(id: nat)

  ghost predicate ValidArgs(cfg: Config, q: Req)
  {
    && q.nb > 0 && q.sector + q.nb <= cfg.n
    && (q.write ==> !q.cor && |q.payload| == q.nb)
    && q.buf == map[] && q.done == {}
  }

  /** The phase a request enters once `tracked_request_begin` has run. */
  function FirstPhase(q: Req): Phase
  {
    if q.write then Writing else if q.cor then Checking else Reading(false)
  }

  /** The scan found nothing: begin tracking, with no yield in between. Otherwise wait on a request it hit. */
  ghost predicate ScanAndBegin(cfg: Config, reqs: map<nat, Req>, q: Req, q': Req)
    requires cfg.c > 0
  {
    if q'.phase.Waiting? then
      && q'.phase.on in reqs && Tracked(reqs[q'.phase.on]) && Conflicts(cfg, q, reqs[q'.phase.on])
      && q' == q.(phase := q'.phase)
    else
      && (forall i :: i in reqs && Tracked(reqs[i]) ==> !Conflicts(cfg, q, reqs[i]))
      && q' == q.(phase := FirstPhase(q))
  }

  ghost predicate ArriveStep(cfg: Config, s: State, q: Req, s': State)
    requires cfg.c > 0
  {
    && ValidArgs(cfg, q)
    && s'.inFlight == s.inFlight + (if q.cor then 1 else 0)
    && s.nextId in s'.reqs
    && s' == s.(nextId := s.nextId + 1, inFlight := s'.inFlight, reqs := s.reqs[s.nextId := s'.reqs[s.nextId]])
    && if s'.inFlight != 0 then ScanAndBegin(cfg, s.reqs, q, s'.reqs[s.nextId])
       else s'.reqs[s.nextId] == q.(phase := FirstPhase(q))
  }

  /** A waiter is woken when the request it waits on ends, and scans again. */
  ghost predicate RetryStep(cfg: Config, s: State, id: nat, s': State)
    requires cfg.c > 0
  {
    && id in s.reqs && s.reqs[id].phase.Waiting? && s.reqs[id].phase.on !in s.reqs
    && id in s'.reqs && s' == s.(reqs := s.reqs[id := s'.reqs[id]])
    && ScanAndBegin(cfg, s.reqs - {id}, s.reqs[id], s'.reqs[id])
  }

  /** What a step that concerns only its own request turns the record into. */
  ghost predicate LocalStep(cfg: Config, img: Image, a: Action, r: Req, r': Req)
    requires cfg.c > 0 && Sized(img, cfg.n)
  {
    match a
    case CheckAlloc(_, bounce) =>
      && r.phase == Checking && r' == r.(phase := Reading(bounce))
      && (!bounce ==> forall t: nat :: r.sector <= t < r.sector + r.nb && t < cfg.n ==> img.alloc[t])
    case ReadSector(_, t) =>
      && r.phase.Reading? && InReadRange(cfg, r, t) && t !in r.buf && t < cfg.n
      && r' == r.(buf := r.buf[t := ViewAt(img, t)])
    case ReadDone(_) =>
      && r.phase.Reading? && (forall t: nat :: InReadRange(cfg, r, t) ==> t in r.buf)
      && r' == r.(phase := if r.phase.bounce then WritingBack else Done(true))
    case WriteBackDone(_) =>
      && r.phase == WritingBack && (forall t :: t in r.buf ==> t in r.done)
      && r' == r.(phase := Done(true))
    case WriteDone(_) =>
      && r.phase == Writing && (forall t: nat :: r.sector <= t < r.sector + r.nb ==> t in r.done)
      && r' == r.(phase := Done(true))
    case Fail(_) =>
      && Tracked(r) && !r.phase.Done? && r' == r.(phase := Done(false))
    case _ => false
  }

  ghost predicate WriteBackStep(cfg: Config, s: State, id: nat, t: nat, s': State)
    requires Sized(s.img, cfg.n)
  {
    && id in s.reqs && s.reqs[id].phase == WritingBack && t in s.reqs[id].buf && t < cfg.n
    && DriverWrites(s.img, s'.img, t, WriteBackValue(cfg, s.reqs[id], t))
    && s' == s.(img := s'.img, reqs := s.reqs[id := s.reqs[id].(done := s.reqs[id].done + {t})])
  }

  ghost predicate GuestWriteStep(cfg: Config, s: State, id: nat, t: nat, s': State)
    requires Sized(s.img, cfg.n)
  {
    && id in s.reqs && s.reqs[id].phase == Writing
    && s.reqs[id].sector <= t < s.reqs[id].sector + |s.reqs[id].payload| && t < cfg.n
    && var v := s.reqs[id].payload[t - s.reqs[id].sector];
    && DriverWrites(s.img, s'.img, t, v)
    && s' == s.(img := s'.img, log := s.log + [(t, v)],
                reqs := s.reqs[id := s.reqs[id].(done := s.reqs[id].done + {t})])
  }

  /** `tracked_request_end` and the decrement of copy_on_read_in_flight */
  ghost predicate EndStep(s: State, id: nat, s': State)
  {
    && id in s.reqs && s.reqs[id].phase.Done?
    && s' == s.(reqs := s.reqs - {id}, inFlight := s.inFlight - (if s.reqs[id].cor then 1 else 0))
  }

  ghost predicate Step(cfg: Config, s: State, a: Action, s': State)
    requires cfg.c > 0 && Sized(s.img, cfg.n)
  {
    match a
    case Arrive(q) => ArriveStep(cfg, s, q, s')
    case Retry(id) => RetryStep(cfg, s, id, s')
    case WriteBack(id, t) => WriteBackStep(cfg, s, id, t, s')
    case GuestWrite(id, t) => GuestWriteStep(cfg, s, id, t, s')
    case End(id) => EndStep(s, id, s')
    case _ =>
      && a.id in s.reqs && a.id in s'.reqs
      && LocalStep(cfg, s.img, a, s.reqs[a.id], s'.reqs[a.id])
      && s' == s.(reqs := s.reqs[a.id := s'.reqs[a.id]])
  }

  ghost predicate Init(cfg: Config, s: State)
  {
    Sized(s.img, cfg.n) && s.reqs == map[] && s.inFlight == 0 && s.log == []
  }

  // ---- what every step keeps ----

  function CorIds(reqs: map<nat, Req>): set<nat>
  {
    set i | i in reqs && reqs[i].cor
  }

  ghost predicate WellFormed(cfg: Config, r: Req)
    requires cfg.c > 0
  {
    && r.nb > 0 && r.sector + r.nb <= cfg.n
    && (r.write ==> !r.cor && |r.payload| == r.nb)
    && (r.phase.Writing? ==> r.write)
    && (r.phase.Checking? || r.phase.Reading? || r.phase.WritingBack? ==> !r.write)
    && (r.phase.WritingBack? || r.phase == Reading(true) || r.phase.Checking? ==> r.cor)
    && (r.phase.Waiting? || r.phase.Checking? ==> r.buf == map[] && r.done == {})
    && (forall t :: t in r.buf ==> if r.phase == Reading(false) then r.sector <= t < r.sector + r.nb
                                   else Lo(cfg, r) <= t < Hi(cfg, r))
    && (r.phase.WritingBack? ==> forall t: nat :: Lo(cfg, r) <= t < Hi(cfg, r) ==> t in r.buf)
  }

  /** A copy-on-read request and any other tracked request never share a cluster. */
  ghost predicate Exclusive(cfg: Config, reqs: map<nat, Req>)
    requires cfg.c > 0
  {
    forall i, j :: i in reqs && j in reqs && i != j && reqs[i].cor && Tracked(reqs[i]) && Tracked(reqs[j])
      ==> ClustersDisjoint(cfg, reqs[i], reqs[j])
  }

  /** What a copy-on-read request has buffered is still what the guest would read. */
  ghost predicate Fresh(cfg: Config, img: Image, r: Req)
    requires cfg.c > 0 && Sized(img, cfg.n)
  {
    r.cor && Tracked(r) ==>
      && (forall t :: t in r.buf ==> t < cfg.n && ViewAt(img, t) == r.buf[t])
      && (forall t :: t in r.done ==> t < cfg.n && img.alloc[t])
      && (r.phase == Reading(false) ==>
            forall t: nat :: r.sector <= t < r.sector + r.nb && t < cfg.n ==> img.alloc[t])
      && (r.phase == Done(true) ==>
            forall t: nat :: r.sector <= t < r.sector + r.nb && t < cfg.n ==> t in r.buf && img.alloc[t])
  }

  ghost predicate AllWellFormed(cfg: Config, reqs: map<nat, Req>, nextId: nat)
    requires cfg.c > 0
  {
    forall i :: i in reqs ==> i < nextId && WellFormed(cfg, reqs[i])
  }

  /** Whoever waits, waits on a tracked request (or on one that has just ended): no waiter is tracked itself. */
  ghost predicate WaitsOnTracked(reqs: map<nat, Req>, nextId: nat)
  {
    && (forall i :: i in reqs && reqs[i].phase.Waiting? ==> reqs[i].phase.on < nextId)
    && (forall i, j :: i in reqs && j in reqs && reqs[i].phase == Waiting(j) ==> Tracked(reqs[j]))
  }

  ghost predicate AllFresh(cfg: Config, img: Image, reqs: map<nat, Req>)
    requires cfg.c > 0 && Sized(img, cfg.n)
  {
    forall i :: i in reqs ==> Fresh(cfg, img, reqs[i])
  }

  ghost predicate Inv(cfg: Config, s: State)
    requires cfg.c > 0
  {
    && Sized(s.img, cfg.n)
    && AllWellFormed(cfg, s.reqs, s.nextId)
    && s.inFlight == |CorIds(s.reqs)|
    && WaitsOnTracked(s.reqs, s.nextId)
    && Exclusive(cfg, s.reqs)
    && AllFresh(cfg, s.img, s.reqs)
  }

  // ---- clusters ----

  /** Rounding one side of the overlap test is enough to keep whole clusters apart. */
  lemma OneSidedRounding(cfg: Config, q: Req, r: Req)
    requires cfg.c > 0 && !Conflicts(cfg, q, r)
    ensures ClustersDisjoint(cfg, q, r)
  {
    HiAligned(cfg, q);
    HiAligned(cfg, r);
    if Hi(cfg, q) <= r.sector {
      AlignDownIsGreatest(r.sector, cfg.c, Hi(cfg, q));
    } else {
      HiIsLeast(cfg, r, Lo(cfg, q));
    }
  }

  lemma HiAligned(cfg: Config, r: Req)
    requires cfg.c > 0
    ensures Aligned(Hi(cfg, r), cfg.c) && Lo(cfg, r) <= r.sector && r.sector + r.nb <= Hi(cfg, r)
  {
    var lo := AlignDown(r.sector, cfg.c);
    AlignedSum(lo, AlignUp(r.sector - lo + r.nb, cfg.c), cfg.c);
  }

  /** The covering clusters end at or before any cluster boundary past the request. */
  lemma HiIsLeast(cfg: Config, r: Req, y: nat)
    requires cfg.c > 0 && Aligned(y, cfg.c) && r.sector + r.nb <= y
    ensures Hi(cfg, r) <= y
  {
    var lo := AlignDown(r.sector, cfg.c);
    AlignedDifference(y, lo, cfg.c);
    AlignUpIsLeast(r.sector - lo + r.nb, cfg.c, y - lo);
  }

  /** The covering clusters of a request hold exactly the sectors of the clusters it touches. */
  lemma Covering(cfg: Config, q: Req, t: nat)
    requires cfg.c > 0 && q.nb > 0
    ensures Lo(cfg, q) <= t < Hi(cfg, q) <==> exists u :: q.sector <= u < q.sector + q.nb && u / cfg.c == t / cfg.c
  {
    hide AlignDown, AlignUp;
    HiAligned(cfg, q);
    var end, d := q.sector + q.nb, AlignDown(t, cfg.c);
    if u :| q.sector <= u < end && u / cfg.c == t / cfg.c {
      Touched(cfg, q, u, t);
    }
    if Lo(cfg, q) <= t < Hi(cfg, q) {
      AlignDownIsGreatest(t, cfg.c, Lo(cfg, q));
      if end <= d {
        HiIsLeast(cfg, q, d);
      }
      var u := if t < q.sector then q.sector else if t < end then t else end - 1;
      assert q.sector <= u < end && d <= u < d + cfg.c;
      SameCluster(u, t, d, cfg.c);
    }
  }

  lemma SameCluster(u: nat, t: nat, d: nat, c: nat)
    requires c > 0 && Aligned(d, c) && d <= u < d + c && d <= t < d + c
    ensures u / c == t / c
  {
    var q: nat :| d == q * c;
    QuotientIs(u, c, q);
    QuotientIs(t, c, q);
  }

  lemma Touched(cfg: Config, q: Req, u: nat, t: nat)
    requires cfg.c > 0 && q.sector <= u < q.sector + q.nb && u / cfg.c == t / cfg.c
    ensures Lo(cfg, q) <= t < Hi(cfg, q)
  {
    HiAligned(cfg, q);
    var d := AlignDown(u, cfg.c);
    assert d == AlignDown(t, cfg.c);
    hide AlignDown, AlignUp;
    AlignDownIsGreatest(u, cfg.c, Lo(cfg, q));
    var a: nat, b: nat :| d == a * cfg.c && Hi(cfg, q) == b * cfg.c;
    MultiplesApart(b, a, cfg.c);
  }

  /** The scan hits a tracked request exactly if the two touch a common cluster. */
  lemma ConflictsExactly(cfg: Config, q: Req, r: Req)
    requires cfg.c > 0 && q.nb > 0 && r.nb > 0
    ensures Conflicts(cfg, q, r) <==>
              exists t, u ::
                r.sector <= t < r.sector + r.nb && q.sector <= u < q.sector + q.nb && u / cfg.c == t / cfg.c
  {
    hide RoundDown, RoundUp;
    HiAligned(cfg, q);
    if t, u :| r.sector <= t < r.sector + r.nb && q.sector <= u < q.sector + q.nb && u / cfg.c == t / cfg.c {
      Covering(cfg, q, t);
    }
    if Conflicts(cfg, q, r) {
      var t := if r.sector < Lo(cfg, q) then Lo(cfg, q) else r.sector;
      Covering(cfg, q, t);
    }
  }

  /** A newcomer waits exactly if a copy-on-read is in flight, itself included, and it touches a cluster that some
      tracked request touches. */
  lemma AdmissionExactly(cfg: Config, s: State, q: Req, s': State)
    requires cfg.c > 0 && Inv(cfg, s) && ArriveStep(cfg, s, q, s')
    ensures s'.reqs[s.nextId].phase.Waiting? <==>
              && s'.inFlight != 0
              && exists i ::
                   && i in s.reqs && !s.reqs[i].phase.Waiting?
                   && exists t, u ::
                        && q.sector <= u < q.sector + q.nb
                        && s.reqs[i].sector <= t < s.reqs[i].sector + s.reqs[i].nb && u / cfg.c == t / cfg.c
  {
    hide Conflicts, Fresh, Exclusive, CorIds, WaitsOnTracked, RoundDown, RoundUp;
    forall i | i in s.reqs
      ensures Conflicts(cfg, q, s.reqs[i]) <==>
                exists t, u ::
                  && q.sector <= u < q.sector + q.nb
                  && s.reqs[i].sector <= t < s.reqs[i].sector + s.reqs[i].nb && u / cfg.c == t / cfg.c
    {
      assert WellFormed(cfg, s.reqs[i]);
      ConflictsExactly(cfg, q, s.reqs[i]);
    }
  }

  // ---- preservation ----

  /** Replacing one tracked request by its next self, with the same range, keeps the invariant. */
  lemma ReplaceKeeps(cfg: Config, s: State, id: nat, r: Req)
    requires cfg.c > 0 && Inv(cfg, s) && id in s.reqs && Tracked(s.reqs[id]) && Tracked(r)
    requires r == s.reqs[id].(phase := r.phase, buf := r.buf, done := r.done)
    requires WellFormed(cfg, r) && Fresh(cfg, s.img, r)
    ensures Inv(cfg, s.(reqs := s.reqs[id := r]))
  {
    hide RoundDown, RoundUp, WellFormed, Fresh;
    var reqs := s.reqs[id := r];
    assert CorIds(reqs) == CorIds(s.reqs);
    forall i, j | i in reqs && j in reqs && i != j && reqs[i].cor && Tracked(reqs[i]) && Tracked(reqs[j])
      ensures ClustersDisjoint(cfg, reqs[i], reqs[j])
    {
      assert ClustersDisjoint(cfg, s.reqs[i], s.reqs[j]);
    }
  }

  /** A request that conflicts with no tracked one may join them. */
  lemma BeginKeepsExclusive(cfg: Config, reqs: map<nat, Req>, id: nat, q: Req)
    requires cfg.c > 0 && Exclusive(cfg, reqs - {id}) && q.nb > 0
    requires forall i :: i in reqs && i != id ==> reqs[i].nb > 0
    requires forall i :: i in reqs && i != id && Tracked(reqs[i]) && (q.cor || reqs[i].cor) ==>
               !Conflicts(cfg, q, reqs[i])
    ensures Exclusive(cfg, reqs[id := q])
  {
    hide RoundDown, RoundUp;
    var reqs', rest := reqs[id := q], reqs - {id};
    forall i, j | i in reqs' && j in reqs' && i != j && reqs'[i].cor && Tracked(reqs'[i]) && Tracked(reqs'[j])
      ensures ClustersDisjoint(cfg, reqs'[i], reqs'[j])
    {
      if i == id {
        OneSidedRounding(cfg, q, reqs[j]);
      } else if j == id {
        OneSidedRounding(cfg, q, reqs[i]);
      } else {
        assert i in rest && j in rest;
        assert ClustersDisjoint(cfg, rest[i], rest[j]);
      }
    }
  }

  lemma CorIdsAdd(reqs: map<nat, Req>, id: nat, q: Req)
    requires id !in reqs
    ensures |CorIds(reqs[id := q])| == |CorIds(reqs)| + if q.cor then 1 else 0
  {
    assert CorIds(reqs[id := q]) == CorIds(reqs) + if q.cor then {id} else {};
  }

  lemma CorIdsDrop(reqs: map<nat, Req>, id: nat)
    requires id in reqs
    ensures |CorIds(reqs - {id})| == |CorIds(reqs)| - if reqs[id].cor then 1 else 0
  {
    var rest := reqs - {id};
    assert rest[id := reqs[id]] == reqs;
    CorIdsAdd(rest, id, reqs[id]);
  }

  lemma NoCorWhenIdle(s: State)
    requires s.inFlight == |CorIds(s.reqs)| == 0
    ensures forall i :: i in s.reqs ==> !s.reqs[i].cor
  {
    forall i | i in s.reqs
      ensures !s.reqs[i].cor
    {
      assert i !in CorIds(s.reqs);
    }
  }

  /** A newcomer starts, tracked or waiting, in good order. */
  lemma NewcomerInOrder(cfg: Config, img: Image, q: Req, q': Req)
    requires cfg.c > 0 && Sized(img, cfg.n) && ValidArgs(cfg, q)
    requires q' == q.(phase := FirstPhase(q)) || (q'.phase.Waiting? && q' == q.(phase := q'.phase))
    ensures WellFormed(cfg, q') && Fresh(cfg, img, q')
  {
    hide RoundDown, RoundUp;
  }

  lemma WaiterIsNewcomer(cfg: Config, q: Req)
    requires cfg.c > 0 && WellFormed(cfg, q) && q.phase.Waiting?
    ensures ValidArgs(cfg, q)
  {
    hide RoundDown, RoundUp;
  }

  /** Admitting a newcomer keeps the exclusion of clusters. */
  lemma AdmitKeepsExclusive(cfg: Config, reqs: map<nat, Req>, id: nat, q: Req, q': Req, nextId: nat)
    requires cfg.c > 0 && id !in reqs && AllWellFormed(cfg, reqs, nextId) && Exclusive(cfg, reqs)
    requires q.nb > 0 && q' == q.(phase := q'.phase)
    requires Tracked(q') ==> forall i :: i in reqs && Tracked(reqs[i]) && (q.cor || reqs[i].cor) ==>
               !Conflicts(cfg, q, reqs[i])
    ensures Exclusive(cfg, reqs[id := q'])
  {
    hide RoundDown, RoundUp;
    assert reqs - {id} == reqs;
    if Tracked(q') {
      forall i | i in reqs && Tracked(reqs[i]) && (q.cor || reqs[i].cor)
        ensures !Conflicts(cfg, q', reqs[i])
      {
        assert !Conflicts(cfg, q, reqs[i]);
      }
      BeginKeepsExclusive(cfg, reqs, id, q');
    }
  }

  lemma ArriveKeeps(cfg: Config, s: State, q: Req, s': State)
    requires cfg.c > 0 && Inv(cfg, s) && ArriveStep(cfg, s, q, s')
    ensures Inv(cfg, s')
  {
    hide RoundDown, RoundUp, WellFormed, Fresh, Exclusive, Conflicts, CorIds;
    var id, q' := s.nextId, s'.reqs[s.nextId];
    assert id !in s.reqs;
    CorIdsAdd(s.reqs, id, q');
    if s'.inFlight == 0 {
      NoCorWhenIdle(s);
    }
    NewcomerInOrder(cfg, s.img, q, q');
    AdmitKeepsExclusive(cfg, s.reqs, id, q, q', s.nextId);
  }

  lemma RetryKeeps(cfg: Config, s: State, id: nat, s': State)
    requires cfg.c > 0 && Inv(cfg, s) && RetryStep(cfg, s, id, s')
    ensures Inv(cfg, s')
  {
    hide RoundDown, RoundUp, WellFormed, Fresh, Conflicts, Exclusive, CorIds;
    var q, q', rest := s.reqs[id], s'.reqs[id], s.reqs - {id};
    assert s'.reqs == rest[id := q'];
    CorIdsDrop(s.reqs, id);
    CorIdsAdd(rest, id, q');
    SubsetExclusive(cfg, s.reqs, rest);
    WaiterIsNewcomer(cfg, q);
    NewcomerInOrder(cfg, s.img, q, q');
    AdmitKeepsExclusive(cfg, rest, id, q, q', s.nextId);
  }

  lemma SubsetExclusive(cfg: Config, reqs: map<nat, Req>, rest: map<nat, Req>)
    requires cfg.c > 0 && Exclusive(cfg, reqs)
    requires forall i :: i in rest ==> i in reqs && rest[i] == reqs[i]
    ensures Exclusive(cfg, rest)
  {
    hide RoundDown, RoundUp;
    forall i, j | i in rest && j in rest && i != j && rest[i].cor && Tracked(rest[i]) && Tracked(rest[j])
      ensures ClustersDisjoint(cfg, rest[i], rest[j])
    {
      assert ClustersDisjoint(cfg, reqs[i], reqs[j]);
    }
  }

  /** Writing a sector outside a request's clusters, or writing what already reads there, keeps it fresh. */
  lemma DriverWriteKeepsFresh(cfg: Config, img: Image, img': Image, t: nat, v: Val, r: Req)
    requires cfg.c > 0 && Sized(img, cfg.n) && t < cfg.n && DriverWrites(img, img', t, v)
    requires WellFormed(cfg, r) && Fresh(cfg, img, r)
    requires r.cor && Tracked(r) ==> !(Lo(cfg, r) <= t < Hi(cfg, r)) || v == ViewAt(img, t)
    ensures Fresh(cfg, img', r)
  {
    HiAligned(cfg, r);
    hide RoundDown, RoundUp;
  }

  lemma WriteBackKeeps(cfg: Config, s: State, id: nat, t: nat, s': State)
    requires cfg.c > 0 && Inv(cfg, s) && WriteBackStep(cfg, s, id, t, s')
    ensures Inv(cfg, s')
    ensures forall u: nat :: u < cfg.n ==> ViewAt(s'.img, u) == ViewAt(s.img, u)
  {
    hide RoundDown, RoundUp, Exclusive;
    var r, v := s.reqs[id], WriteBackValue(cfg, s.reqs[id], t);
    assert v == r.buf[t] == ViewAt(s.img, t);
    var mid := s.(img := s'.img);
    forall i | i in s.reqs
      ensures Fresh(cfg, s'.img, s.reqs[i])
    {
      DriverWriteKeepsFresh(cfg, s.img, s'.img, t, v, s.reqs[i]);
    }
    MarkDoneKeeps(cfg, mid, id, t);
  }

  lemma GuestWriteKeeps(cfg: Config, s: State, id: nat, t: nat, s': State)
    requires cfg.c > 0 && Inv(cfg, s) && GuestWriteStep(cfg, s, id, t, s')
    ensures Inv(cfg, s')
  {
    hide RoundDown, RoundUp;
    var r := s.reqs[id];
    var v := r.payload[t - r.sector];
    HiAligned(cfg, r);
    var mid := s.(img := s'.img, log := s'.log);
    forall i | i in s.reqs
      ensures Fresh(cfg, s'.img, s.reqs[i])
    {
      if s.reqs[i].cor && Tracked(s.reqs[i]) {
        assert ClustersDisjoint(cfg, s.reqs[i], r);
        DriverWriteKeepsFresh(cfg, s.img, s'.img, t, v, s.reqs[i]);
      }
    }
    MarkDoneKeeps(cfg, mid, id, t);
  }

  /** Recording that sector `t` has been written. */
  lemma MarkDoneKeeps(cfg: Config, s: State, id: nat, t: nat)
    requires cfg.c > 0 && Inv(cfg, s) && id in s.reqs && t < cfg.n && s.img.alloc[t]
    requires s.reqs[id].phase == WritingBack || s.reqs[id].phase == Writing
    ensures Inv(cfg, s.(reqs := s.reqs[id := s.reqs[id].(done := s.reqs[id].done + {t})]))
  {
    hide RoundDown, RoundUp, Exclusive;
    var r := s.reqs[id].(done := s.reqs[id].done + {t});
    assert WellFormed(cfg, r) && Fresh(cfg, s.img, r);
    ReplaceKeeps(cfg, s, id, r);
  }

  lemma EndKeeps(cfg: Config, s: State, id: nat, s': State)
    requires cfg.c > 0 && Inv(cfg, s) && EndStep(s, id, s')
    ensures Inv(cfg, s')
  {
    hide RoundDown, RoundUp, WellFormed, Fresh, Exclusive, CorIds;
    CorIdsDrop(s.reqs, id);
    SubsetExclusive(cfg, s.reqs, s'.reqs);
  }

  /** A step on one record keeps that record in good order and its buffer fresh. */
  lemma LocalStepKeeps(cfg: Config, img: Image, a: Action, r: Req, r': Req)
    requires cfg.c > 0 && Sized(img, cfg.n) && LocalStep(cfg, img, a, r, r')
    requires WellFormed(cfg, r) && Fresh(cfg, img, r)
    ensures Tracked(r) && Tracked(r') && r' == r.(phase := r'.phase, buf := r'.buf, done := r'.done)
    ensures WellFormed(cfg, r') && Fresh(cfg, img, r')
  {
    HiAligned(cfg, r);
    hide RoundDown, RoundUp;
  }

  /** Every step keeps the invariant. */
  lemma StepKeepsInv(cfg: Config, s: State, a: Action, s': State)
    requires cfg.c > 0 && Inv(cfg, s) && Step(cfg, s, a, s')
    ensures Inv(cfg, s')
  {
    match a
    case Arrive(q) => ArriveKeeps(cfg, s, q, s');
    case Retry(id) => RetryKeeps(cfg, s, id, s');
    case WriteBack(id, t) => WriteBackKeeps(cfg, s, id, t, s');
    case GuestWrite(id, t) => GuestWriteKeeps(cfg, s, id, t, s');
    case End(id) => EndKeeps(cfg, s, id, s');
    case _ =>
      LocalStepKeeps(cfg, s.img, a, s.reqs[a.id], s'.reqs[a.id]);
      ReplaceKeeps(cfg, s, a.id, s'.reqs[a.id]);
  }

  // ---- whole runs ----

  datatype Run = Run(states: seq<State>, actions: seq<Action>)

  ghost predicate IsRun(cfg: Config, run: Run)
  {
    && ValidConfig(cfg)
    && |run.states| == |run.actions| + 1
    && Init(cfg, run.states[0])
    && forall k: nat :: k < |run.actions| ==>
         Sized(run.states[k].img, cfg.n) && Step(cfg, run.states[k], run.actions[k], run.states[k + 1])
  }

  lemma {:induction false} RunKeepsInv(cfg: Config, run: Run, k: nat)
    requires IsRun(cfg, run) && k < |run.states|
    ensures Inv(cfg, run.states[k])
  {
    if k > 0 {
      RunKeepsInv(cfg, run, k - 1);
      StepKeepsInv(cfg, run.states[k - 1], run.actions[k - 1], run.states[k]);
    } else {
      assert CorIds(run.states[0].reqs) == {};
    }
  }

  /** A chain of requests each of which waits on the next, closing on itself. */
  ghost predicate WaitCycle(reqs: map<nat, Req>, cycle: seq<nat>)
  {
    && |cycle| > 0
    && (forall k :: 0 <= k < |cycle| ==> cycle[k] in reqs)
    && (forall k :: 0 <= k < |cycle| ==> reqs[cycle[k]].phase == Waiting(cycle[(k + 1) % |cycle|]))
  }

  /** Serialisation, in every state of every run: a tracked copy-on-read shares no cluster with any other
      tracked request, the counter counts the copy-on-reads between entry and exit, and waits never form a cycle. */
  lemma Serialisation(cfg: Config, run: Run, k: nat)
    requires IsRun(cfg, run) && k < |run.states|
    ensures Exclusive(cfg, run.states[k].reqs)
    ensures run.states[k].inFlight == |CorIds(run.states[k].reqs)|
    ensures forall cycle :: !WaitCycle(run.states[k].reqs, cycle)
  {
    RunKeepsInv(cfg, run, k);
    forall cycle
      ensures !WaitCycle(run.states[k].reqs, cycle)
    {
      NoWaitCycle(run.states[k].reqs, run.states[k].nextId, cycle);
    }
  }

  lemma NoWaitCycle(reqs: map<nat, Req>, nextId: nat, cycle: seq<nat>)
    requires WaitsOnTracked(reqs, nextId)
    ensures !WaitCycle(reqs, cycle)
  {
    if |cycle| > 0 && cycle[0] in reqs && reqs[cycle[0]].phase.Waiting? {
      var j := reqs[cycle[0]].phase.on;
      if j in reqs {
        assert Tracked(reqs[j]);
      }
    }
  }

  /** Sector `t` after the guest writes of `log` in order, starting from `img`. */
  ghost function Replay(img: Image, log: seq<(nat, Val)>, t: nat): Val
    requires Sized(img, |img.alloc|) && t < |img.alloc|
  {
    if log == [] then ViewAt(img, t)
    else if log[|log| - 1].0 == t then log[|log| - 1].1
    else Replay(img, log[..|log| - 1], t)
  }

  /** A step either leaves the guest's view alone or performs the guest sector write it logs. */
  lemma StepView(cfg: Config, s: State, a: Action, s': State)
    requires cfg.c > 0 && Inv(cfg, s) && Step(cfg, s, a, s')
    ensures Sized(s'.img, cfg.n)
    ensures if a.GuestWrite? then |s'.log| > 0 && s.log == s'.log[..|s'.log| - 1] else s'.log == s.log
    ensures forall t: nat :: t < cfg.n ==>
              ViewAt(s'.img, t)
              == if a.GuestWrite? && s'.log[|s.log|].0 == t then s'.log[|s.log|].1 else ViewAt(s.img, t)
  {
    hide RoundDown, RoundUp, WellFormed, Fresh, Exclusive, CorIds, WaitsOnTracked, ScanAndBegin, LocalStep;
    if a.WriteBack? {
      WriteBackKeeps(cfg, s, a.id, a.t, s');
    }
  }

  /** The guest-visible disk always equals the guest writes applied in the order the driver performed them:
      copy-on-read neither loses nor reorders one. */
  lemma {:induction false} ViewIsReplay(cfg: Config, run: Run, k: nat, t: nat)
    requires IsRun(cfg, run) && k < |run.states| && t < cfg.n
    ensures Sized(run.states[k].img, cfg.n)
    ensures ViewAt(run.states[k].img, t) == Replay(run.states[0].img, run.states[k].log, t)
  {
    hide Inv, Step;
    if k > 0 {
      ViewIsReplay(cfg, run, k - 1, t);
      RunKeepsInv(cfg, run, k - 1);
      StepView(cfg, run.states[k - 1], run.actions[k - 1], run.states[k]);
    }
  }

  /** What a write request has written so far is in the log, and all of its range once it has succeeded. */
  ghost predicate Logged(r: Req, log: seq<(nat, Val)>)
  {
    r.write && |r.payload| == r.nb ==>
      && (forall t :: t in r.done ==> r.sector <= t < r.sector + r.nb && (t, r.payload[t - r.sector]) in log)
      && (r.phase == Done(true) ==> forall t: nat :: r.sector <= t < r.sector + r.nb ==> t in r.done)
  }

  lemma ReqKeepsLogged(cfg: Config, s: State, a: Action, s': State, i: nat)
    requires cfg.c > 0 && Inv(cfg, s) && Step(cfg, s, a, s') && i in s'.reqs
    requires i in s.reqs ==> Logged(s.reqs[i], s.log)
    ensures Logged(s'.reqs[i], s'.log)
  {
    hide RoundDown, RoundUp, Fresh, Exclusive, CorIds, WaitsOnTracked, DriverWrites, Conflicts, InReadRange;
    if i in s.reqs {
      assert WellFormed(cfg, s.reqs[i]);
    }
  }

  lemma StepKeepsLogged(cfg: Config, s: State, a: Action, s': State)
    requires cfg.c > 0 && Inv(cfg, s) && Step(cfg, s, a, s')
    requires forall i :: i in s.reqs ==> Logged(s.reqs[i], s.log)
    ensures forall i :: i in s'.reqs ==> Logged(s'.reqs[i], s'.log)
  {
    hide Inv, Step, Logged;
    forall i | i in s'.reqs
      ensures Logged(s'.reqs[i], s'.log)
    {
      ReqKeepsLogged(cfg, s, a, s', i);
    }
  }

  lemma {:induction false} RunKeepsLogged(cfg: Config, run: Run, k: nat)
    requires IsRun(cfg, run) && k < |run.states|
    ensures forall i :: i in run.states[k].reqs ==> Logged(run.states[k].reqs[i], run.states[k].log)
  {
    hide Inv, Step, Logged;
    if k > 0 {
      RunKeepsLogged(cfg, run, k - 1);
      RunKeepsInv(cfg, run, k - 1);
      StepKeepsLogged(cfg, run.states[k - 1], run.actions[k - 1], run.states[k]);
    }
  }

  /** A guest write that has succeeded is in the log in full, whatever copy-on-reads ran meanwhile. */
  lemma GuestWriteNotLost(cfg: Config, run: Run, k: nat, id: nat, t: nat)
    requires IsRun(cfg, run) && k < |run.states| && id in run.states[k].reqs
    requires run.states[k].reqs[id].write && run.states[k].reqs[id].phase == Done(true)
    requires run.states[k].reqs[id].sector <= t < run.states[k].reqs[id].sector + run.states[k].reqs[id].nb
    ensures |run.states[k].reqs[id].payload| == run.states[k].reqs[id].nb
    ensures (t, run.states[k].reqs[id].payload[t - run.states[k].reqs[id].sector]) in run.states[k].log
  {
    RunKeepsInv(cfg, run, k);
    RunKeepsLogged(cfg, run, k);
    assert WellFormed(cfg, run.states[k].reqs[id]) && Logged(run.states[k].reqs[id], run.states[k].log);
    assert t in run.states[k].reqs[id].done;
  }

  /** A successful copy-on-read hands its caller exactly the requested sectors of the guest's view, and
      leaves every one of them allocated in the top image. */
  lemma CopyOnReadResult(cfg: Config, run: Run, k: nat, id: nat, t: nat)
    requires IsRun(cfg, run) && k < |run.states| && id in run.states[k].reqs
    requires run.states[k].reqs[id].cor && run.states[k].reqs[id].phase == Done(true)
    requires run.states[k].reqs[id].sector <= t < run.states[k].reqs[id].sector + run.states[k].reqs[id].nb
    ensures t < cfg.n && Sized(run.states[k].img, cfg.n) && t in run.states[k].reqs[id].buf
    ensures run.states[k].reqs[id].buf[t] == Replay(run.states[0].img, run.states[k].log, t)
    ensures run.states[k].img.alloc[t]
  {
    RunKeepsInv(cfg, run, k);
    assert Fresh(cfg, run.states[k].img, run.states[k].reqs[id]);
    assert WellFormed(cfg, run.states[k].reqs[id]);
    ViewIsReplay(cfg, run, k, t);
  }

  // ---- what a read delivers ----

  /** A read that has succeeded has every sector it was asked for. */
  ghost predicate ReadAll(r: Req)
  {
    !r.write && r.phase == Done(true) ==> forall t: nat :: r.sector <= t < r.sector + r.nb ==> t in r.buf
  }

  lemma StepKeepsReadAll(cfg: Config, s: State, a: Action, s': State, i: nat)
    requires cfg.c > 0 && Inv(cfg, s) && Step(cfg, s, a, s') && i in s'.reqs
    requires i in s.reqs ==> ReadAll(s.reqs[i])
    ensures ReadAll(s'.reqs[i])
  {
    hide Fresh, Exclusive, CorIds, WaitsOnTracked, DriverWrites, Conflicts, RoundDown, RoundUp;
    if i in s.reqs {
      assert WellFormed(cfg, s.reqs[i]);
      HiAligned(cfg, s.reqs[i]);
    }
  }

  lemma {:induction false} RunReadsAll(cfg: Config, run: Run, k: nat, id: nat)
    requires IsRun(cfg, run) && k < |run.states| && id in run.states[k].reqs
    ensures ReadAll(run.states[k].reqs[id])
  {
    hide Inv, Step, ReadAll;
    if k > 0 {
      RunKeepsInv(cfg, run, k - 1);
      if id in run.states[k - 1].reqs {
        RunReadsAll(cfg, run, k - 1, id);
      }
      StepKeepsReadAll(cfg, run.states[k - 1], run.actions[k - 1], run.states[k], id);
    }
  }

  /** A sector gets into the buffer of a tracked request as the guest's view has it at that moment, and stays. */
  lemma StepBuffers(cfg: Config, s: State, a: Action, s': State, id: nat, t: nat)
    requires cfg.c > 0 && Inv(cfg, s) && Step(cfg, s, a, s') && id in s'.reqs && t in s'.reqs[id].buf
    ensures id in s.reqs
    ensures t in s.reqs[id].buf ==> s'.reqs[id].buf[t] == s.reqs[id].buf[t]
    ensures t !in s.reqs[id].buf ==> Tracked(s.reqs[id]) && t < cfg.n && s'.reqs[id].buf[t] == ViewAt(s.img, t)
  {
    hide WellFormed, Fresh, Exclusive, CorIds, WaitsOnTracked, DriverWrites, Conflicts, InReadRange;
  }

  lemma {:induction false} BufferedView(cfg: Config, run: Run, k: nat, id: nat, t: nat) returns (j: nat)
    requires IsRun(cfg, run) && k < |run.states| && id in run.states[k].reqs && t in run.states[k].reqs[id].buf
    ensures j <= k && id in run.states[j].reqs && Tracked(run.states[j].reqs[id])
    ensures t < cfg.n && Sized(run.states[j].img, cfg.n)
    ensures run.states[k].reqs[id].buf[t] == ViewAt(run.states[j].img, t)
  {
    hide Inv, Step, ViewAt;
    if k > 0 {
      RunKeepsInv(cfg, run, k - 1);
      InvSized(cfg, run.states[k - 1]);
      StepBuffers(cfg, run.states[k - 1], run.actions[k - 1], run.states[k], id, t);
      if t in run.states[k - 1].reqs[id].buf {
        j := BufferedView(cfg, run, k - 1, id, t);
      } else {
        j := k - 1;
      }
    }
  }

  lemma InvSized(cfg: Config, s: State)
    requires cfg.c > 0 && Inv(cfg, s)
    ensures Sized(s.img, cfg.n)
  {
  }

  /** A read that has succeeded, copy-on-read or not, has delivered every sector it was asked for, each as it was, all
      guest writes until then applied, at some moment between its admission and now. */
  lemma ReadResult(cfg: Config, run: Run, k: nat, id: nat, t: nat) returns (j: nat)
    requires IsRun(cfg, run) && k < |run.states| && id in run.states[k].reqs
    requires !run.states[k].reqs[id].write && run.states[k].reqs[id].phase == Done(true)
    requires run.states[k].reqs[id].sector <= t < run.states[k].reqs[id].sector + run.states[k].reqs[id].nb
    ensures j <= k && id in run.states[j].reqs && !run.states[j].reqs[id].phase.Waiting?
    ensures t < cfg.n && Sized(run.states[0].img, cfg.n) && t in run.states[k].reqs[id].buf
    ensures run.states[k].reqs[id].buf[t] == Replay(run.states[0].img, run.states[j].log, t)
  {
    RunReadsAll(cfg, run, k, id);
    j := BufferedView(cfg, run, k, id, t);
    ViewIsReplay(cfg, run, j, t);
  }

  /** Requests are numbered once, and one that has been admitted stays so until it leaves. */
  lemma StepKeepsTracked(cfg: Config, s: State, a: Action, s': State, id: nat)
    requires cfg.c > 0 && Inv(cfg, s) && Step(cfg, s, a, s')
    ensures s.nextId <= s'.nextId && (id < s.nextId && id in s'.reqs ==> id in s.reqs)
    ensures id in s.reqs && Tracked(s.reqs[id]) ==> id < s.nextId && (id in s'.reqs ==> Tracked(s'.reqs[id]))
  {
    hide Fresh, Exclusive, CorIds, WaitsOnTracked, DriverWrites, Conflicts, InReadRange;
  }

  lemma {:induction false} StaysTracked(cfg: Config, run: Run, j: nat, a: nat, k: nat, id: nat)
    requires IsRun(cfg, run) && j <= a <= k < |run.states|
    requires id in run.states[j].reqs && Tracked(run.states[j].reqs[id]) && id in run.states[k].reqs
    ensures id in run.states[a].reqs && Tracked(run.states[a].reqs[id])
    decreases k - j
  {
    hide Inv, Step;
    RunKeepsInv(cfg, run, j);
    if j < a {
      StepKeepsTracked(cfg, run.states[j], run.actions[j], run.states[j + 1], id);
      StaysNumbered(cfg, run, j + 1, k, id);
      StaysTracked(cfg, run, j + 1, a, k, id);
    }
  }

  lemma {:induction false} StaysNumbered(cfg: Config, run: Run, j: nat, k: nat, id: nat)
    requires IsRun(cfg, run) && j <= k < |run.states| && id < run.states[j].nextId && id in run.states[k].reqs
    ensures id in run.states[j].reqs
    decreases k - j
  {
    hide Inv, Step;
    if j < k {
      RunKeepsInv(cfg, run, j);
      StepKeepsTracked(cfg, run.states[j], run.actions[j], run.states[j + 1], id);
      StaysNumbered(cfg, run, j + 1, k, id);
    }
  }

  lemma {:induction false} LogGrows(cfg: Config, run: Run, j: nat, k: nat)
    requires IsRun(cfg, run) && j <= k < |run.states|
    ensures run.states[j].log <= run.states[k].log
  {
    hide Inv, Step;
    if j < k {
      LogGrows(cfg, run, j, k - 1);
      RunKeepsInv(cfg, run, k - 1);
      StepView(cfg, run.states[k - 1], run.actions[k - 1], run.states[k]);
    }
  }

  lemma {:induction false} ReplaySame(img: Image, log: seq<(nat, Val)>, n: nat, t: nat)
    requires Sized(img, |img.alloc|) && t < |img.alloc| && n <= |log|
    requires forall m :: n <= m < |log| ==> log[m].0 != t
    ensures Replay(img, log, t) == Replay(img, log[..n], t)
  {
    if n < |log| {
      ReplaySame(img, log[..|log| - 1], n, t);
      assert log[..|log| - 1][..n] == log[..n];
    } else {
      assert log[..n] == log;
    }
  }

  /** Hence the current contents, if nothing was written there since a state in which it had not been admitted yet. */
  lemma ReadCurrent(cfg: Config, run: Run, a: nat, k: nat, id: nat, t: nat)
    requires IsRun(cfg, run) && a <= k < |run.states| && id in run.states[k].reqs
    requires !run.states[k].reqs[id].write && run.states[k].reqs[id].phase == Done(true)
    requires run.states[k].reqs[id].sector <= t < run.states[k].reqs[id].sector + run.states[k].reqs[id].nb
    requires id !in run.states[a].reqs || run.states[a].reqs[id].phase.Waiting?
    requires forall m :: |run.states[a].log| <= m < |run.states[k].log| ==> run.states[k].log[m].0 != t
    ensures t < cfg.n && Sized(run.states[k].img, cfg.n) && t in run.states[k].reqs[id].buf
    ensures run.states[k].reqs[id].buf[t] == ViewAt(run.states[k].img, t)
  {
    var j := ReadResult(cfg, run, k, id, t);
    if j <= a {
      StaysTracked(cfg, run, j, a, k, id);
    }
    LogGrows(cfg, run, a, j);
    LogGrows(cfg, run, j, k);
    var log := run.states[k].log;
    assert log[..|run.states[j].log|] == run.states[j].log;
    ReplaySame(run.states[0].img, log, |run.states[j].log|, t);
    ViewIsReplay(cfg, run, k, t);
  }

  /** Once allocated, a sector stays allocated. */
  lemma {:induction false} AllocationGrows(cfg: Config, run: Run, j: nat, k: nat, t: nat)
    requires IsRun(cfg, run) && j <= k < |run.states| && t < cfg.n
    ensures Sized(run.states[j].img, cfg.n) && Sized(run.states[k].img, cfg.n)
    ensures run.states[j].img.alloc[t] ==> run.states[k].img.alloc[t]
  {
    RunKeepsInv(cfg, run, j);
    if j < k {
      AllocationGrows(cfg, run, j, k - 1, t);
      RunKeepsInv(cfg, run, k - 1);
      StepGrows(cfg, run.states[k - 1], run.actions[k - 1], run.states[k], t);
    }
  }

  lemma StepGrows(cfg: Config, s: State, a: Action, s': State, t: nat)
    requires cfg.c > 0 && Sized(s.img, cfg.n) && Step(cfg, s, a, s') && t < cfg.n
    ensures Sized(s'.img, cfg.n) && (s.img.alloc[t] ==> s'.img.alloc[t])
  {
    hide RoundDown, RoundUp, ScanAndBegin, LocalStep;
  }

  /** No deadlock: while any request is inside, some request can move on without failing. */
  lemma Progress(cfg: Config, s: State) returns (a: Action, s': State)
    requires ValidConfig(cfg) && Inv(cfg, s) && s.reqs != map[]
    ensures !a.Arrive? && !a.Fail? && Step(cfg, s, a, s')
  {
    if id :| id in s.reqs && Tracked(s.reqs[id]) {
      a, s' := TrackedProgress(cfg, s, id);
    } else {
      assert forall i :: i in s.reqs ==> s.reqs[i].phase.Waiting?;
      var id :| id in s.reqs;
      var q := s.reqs[id];
      assert q.phase == Waiting(q.phase.on);
      assert q.phase.on !in s.reqs;
      a := Retry(id);
      s' := s.(reqs := s.reqs[id := q.(phase := FirstPhase(q))]);
      assert ScanAndBegin(cfg, s.reqs - {id}, q, s'.reqs[id]);
    }
  }

  /** Writing sector `t` the plain way is one thing the driver may do. */
  lemma DriverCanWrite(img: Image, t: nat, v: Val) returns (img': Image)
    requires Sized(img, |img.alloc|) && t < |img.alloc|
    ensures DriverWrites(img, img', t, v)
  {
    img' := img.(alloc := img.alloc[t := true], data := img.data[t := v]);
  }

  /** Outside the two writing phases a tracked record can take a step of its own until it is done. */
  lemma LocalProgress(cfg: Config, img: Image, id: nat, r: Req) returns (a: Action, r': Req)
    requires ValidConfig(cfg) && Sized(img, cfg.n) && WellFormed(cfg, r)
    requires r.phase.Checking? || r.phase.Reading?
    ensures (a.CheckAlloc? || a.ReadSector? || a.ReadDone?) && a.id == id && LocalStep(cfg, img, a, r, r')
  {
    HiIsLeast(cfg, r, cfg.n);
    hide RoundDown, RoundUp;
    if r.phase.Checking? {
      a, r' := CheckAlloc(id, true), r.(phase := Reading(true));
    } else if t: nat :| InReadRange(cfg, r, t) && t !in r.buf {
      a, r' := ReadSector(id, t), r.(buf := r.buf[t := ViewAt(img, t)]);
    } else {
      a, r' := ReadDone(id), r.(phase := if r.phase.bounce then WritingBack else Done(true));
    }
  }

  lemma WritingProgress(cfg: Config, s: State, id: nat) returns (a: Action, s': State)
    requires ValidConfig(cfg) && Sized(s.img, cfg.n) && id in s.reqs
    requires WellFormed(cfg, s.reqs[id]) && s.reqs[id].phase == Writing
    ensures !a.Arrive? && !a.Fail? && Step(cfg, s, a, s')
  {
    hide RoundDown, RoundUp, DriverWrites;
    var r := s.reqs[id];
    if t: nat :| r.sector <= t < r.sector + r.nb && t !in r.done {
      var v := r.payload[t - r.sector];
      var img := DriverCanWrite(s.img, t, v);
      a, s' := GuestWrite(id, t),
        s.(img := img, log := s.log + [(t, v)], reqs := s.reqs[id := r.(done := r.done + {t})]);
    } else {
      a, s' := WriteDone(id), s.(reqs := s.reqs[id := r.(phase := Done(true))]);
    }
  }

  lemma WriteBackProgress(cfg: Config, s: State, id: nat) returns (a: Action, s': State)
    requires ValidConfig(cfg) && Sized(s.img, cfg.n) && id in s.reqs && s.reqs[id].phase == WritingBack
    requires forall t :: t in s.reqs[id].buf ==> t < cfg.n
    ensures !a.Arrive? && !a.Fail? && Step(cfg, s, a, s')
  {
    hide RoundDown, RoundUp, DriverWrites;
    var r := s.reqs[id];
    if t :| t in r.buf && t !in r.done {
      var img := DriverCanWrite(s.img, t, WriteBackValue(cfg, r, t));
      a, s' := WriteBack(id, t), s.(img := img, reqs := s.reqs[id := r.(done := r.done + {t})]);
    } else {
      a, s' := WriteBackDone(id), s.(reqs := s.reqs[id := r.(phase := Done(true))]);
    }
  }

  lemma TrackedProgress(cfg: Config, s: State, id: nat) returns (a: Action, s': State)
    requires ValidConfig(cfg) && Inv(cfg, s) && id in s.reqs && Tracked(s.reqs[id])
    ensures !a.Arrive? && !a.Fail? && Step(cfg, s, a, s')
  {
    var r := s.reqs[id];
    assert WellFormed(cfg, r) && Fresh(cfg, s.img, r);
    match r.phase
    case WritingBack => a, s' := WriteBackProgress(cfg, s, id);
    case Writing => a, s' := WritingProgress(cfg, s, id);
    case Done(_) =>
      a, s' := End(id), s.(reqs := s.reqs - {id}, inFlight := s.inFlight - (if r.cor then 1 else 0));
    case _ =>
      var r';
      a, r' := LocalProgress(cfg, s.img, id, r);
      s' := s.(reqs := s.reqs[id := r']);
  }
}
