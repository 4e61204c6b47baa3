/** aio-posix.c: the file descriptor handlers of an `AioContext`. Walks call back into code that edits the list and
    polls again; a handler removed meanwhile is only marked, and unlinked once no walk stands on a node. */
module FdHandlers {
  import opened WalkTrace

  datatype Event = In | Out | Hup | Err

  /** What a callback does: register or remove a handler, have events arrive on registered descriptors, or poll again
      with the given callbacks. */
  datatype Op =
    | SetHandler(fd: int, read: bool, write: bool, flush: bool)
    | Arrive(fd: int, revents: set<Event>)
    | Poll(callbacks: Scripts, ready: Pass, after: Scripts)
  datatype Script = End | Do(op: Op, rest: Script)
  datatype Scripts = Nil | Cons(head: Script, tail: Scripts)

  /** A callback that removes the handler of `fd` and does nothing else. */
  predicate Removes(s: Script, fd: int) {
    s.Do? && s.rest.End? && s.op.SetHandler? && s.op.fd == fd && !s.op.read && !s.op.write
  }

  /** The two walks of `aio_poll`: over events queued in `revents`, and over what `select` found ready. */
  datatype Pass = Queued | Ready(readable: set<int>, writable: set<int>)

  /** `AioHandler`; the callbacks themselves are whatever the scripts say, only their presence is kept. `readCalls` and
      `writeCalls` count their invocations, `changes` what was done to the handler or its events from outside the
      walks. */
  class AioHandler {
    const fd: int
    var ioRead: bool
    var ioWrite: bool
    var ioFlush: bool
    var events: set<Event>
    var revents: set<Event>
    var deleted: bool
    ghost var readCalls: nat
    ghost var writeCalls: nat
    ghost var changes: nat

    constructor (fd: int)
      ensures this.fd == fd && !deleted && revents == {} && !ioRead && !ioWrite && !ioFlush && events == {}
    {
      this.fd := fd;
      ioRead, ioWrite, ioFlush, deleted := false, false, false, false;
      events, revents := {}, {};
      readCalls, writeCalls, changes := 0, 0, 0;
    }
  }

  /** QLIST_NEXT. */
  function NextOf(l: seq<AioHandler>, x: AioHandler): AioHandler?
  {
    if l == [] then null
    else if l[0] == x then (if |l| > 1 then l[1] else null)
    else NextOf(l[1..], x)
  }

  /** QLIST_REMOVE. */
  function Minus(l: seq<AioHandler>, x: AioHandler): (r: seq<AioHandler>)
    ensures forall h :: h in r ==> h in l
    ensures forall h :: h in l && h != x ==> h in r
  {
    if l == [] then []
    else if l[0] == x then l[1..]
    else [l[0]] + Minus(l[1..], x)
  }

  lemma {:induction false} At(pre: seq<AioHandler>, x: AioHandler, post: seq<AioHandler>)
    requires x !in pre
    ensures NextOf(pre + [x] + post, x) == if post == [] then null else post[0]
    ensures Minus(pre + [x] + post, x) == pre + post
  {
    var l := pre + [x] + post;
    if pre == [] {
      assert l[1..] == post;
    } else {
      assert l[1..] == pre[1..] + [x] + post;
      At(pre[1..], x, post);
    }
  }

  ghost predicate Distinct(l: seq<AioHandler>) {
    forall i, j :: 0 <= i < j < |l| ==> l[i] != l[j]
  }

  lemma {:induction false} MinusDistinct(l: seq<AioHandler>, x: AioHandler)
    requires Distinct(l)
    ensures Distinct(Minus(l, x)) && x !in Minus(l, x)
  {
    hide Distinct;
    if l != [] {
      DistinctTail(l);
      if l[0] != x {
        MinusDistinct(l[1..], x);
        DistinctCons(l[0], Minus(l[1..], x));
      }
    }
  }

  lemma DistinctTail(l: seq<AioHandler>)
    requires Distinct(l) && l != []
    ensures Distinct(l[1..]) && l[0] !in l[1..]
  {
  }

  lemma DistinctCons(x: AioHandler, l: seq<AioHandler>)
    requires Distinct(l) && x !in l
    ensures Distinct([x] + l)
  {
  }

  /** A handler at one moment: its state, whether an event waits for either callback, and how often what happened. */
  datatype Snap = Snap(deleted: bool, canRead: bool, canWrite: bool, readQueued: bool, outQueued: bool,
                       writeQueued: bool, readCount: nat, writeCount: nat, changes: nat)

  ghost function SnapOf(h: AioHandler): Snap
    reads h
  {
    Snap(h.deleted, h.ioRead, h.ioWrite,
         h.ioRead && h.revents * h.events * {In, Hup, Err} != {}, h.revents * h.events * {Out, Err} != {},
         h.ioWrite && h.revents * h.events * {Out, Err} != {},
         h.readCalls, h.writeCalls, h.changes)
  }

  /** A deleted handler stays deleted; a queued event waits until its callback has been invoked, or somebody has changed
      the handler or its events. */
  predicate Kept(a: Snap, b: Snap) {
    && (a.deleted ==> b.deleted)
    && (b.changes == a.changes ==> b.deleted == a.deleted && b.canRead == a.canRead && b.canWrite == a.canWrite)
    && a.readCount <= b.readCount && a.writeCount <= b.writeCount && a.changes <= b.changes
    && (a.readQueued ==> ReadServed(a, b) || b.readQueued)
    && (a.writeQueued ==> WriteServed(a, b) || b.writeQueued)
  }

  predicate ReadServed(a: Snap, b: Snap) {
    a.readCount < b.readCount || a.changes < b.changes
  }

  predicate WriteServed(a: Snap, b: Snap) {
    a.writeCount < b.writeCount || a.changes < b.changes
  }

  /** Every event queued at `a` has been served by `b`. */
  predicate Served(a: Snap, b: Snap) {
    (a.readQueued ==> ReadServed(a, b)) && (a.writeQueued ==> WriteServed(a, b))
  }

  predicate Called(a: Snap, b: Snap) {
    a.readCount < b.readCount || a.writeCount < b.writeCount
  }

  /** That callback has been invoked. */
  predicate Rises(a: Snap, b: Snap, read: bool) {
    if read then a.readCount < b.readCount else a.writeCount < b.writeCount
  }

  predicate Uncalled(a: Snap, b: Snap) {
    a.readCount == b.readCount && a.writeCount == b.writeCount && a.changes == b.changes
  }

  lemma KeptTrans(a: Snap, b: Snap, c: Snap)
    requires Kept(a, b) && Kept(b, c)
    ensures Kept(a, c)
    ensures a == b && b == c ==> Uncalled(a, c)
    ensures Served(a, b) || Served(b, c) ==> Served(a, c)
    ensures a.deleted ==> b.deleted && c.deleted
    ensures b.deleted ==> c.deleted
    ensures Called(a, b) || Called(b, c) ==> Called(a, c)
    ensures Uncalled(a, b) && Uncalled(b, c) ==> Uncalled(a, c)
  {
  }

  /** The same with its events taken. */
  function Emptied(a: Snap): Snap {
    a.(readQueued := false, outQueued := false, writeQueued := false)
  }

  /** What the fields of a snapshot mean. */
  lemma SnapSane(h: AioHandler)
    ensures var a := SnapOf(h); a.writeQueued == (a.canWrite && a.outQueued) && (a.readQueued ==> a.canRead)
    ensures SnapOf(h).deleted == h.deleted && SnapOf(h).canRead == h.ioRead && SnapOf(h).canWrite == h.ioWrite
    ensures var ev := h.revents * h.events;
            && SnapOf(h).readQueued == (h.ioRead && (In in ev || Hup in ev || Err in ev))
            && SnapOf(h).outQueued == (Out in ev || Err in ev)
    ensures h.revents == {} ==> !SnapOf(h).readQueued && !SnapOf(h).outQueued
  {
    var ev := h.revents * h.events;
    Meets(ev, {In, Hup, Err});
    Meets(ev, {Out, Err});
  }

  lemma Meets(a: set<Event>, b: set<Event>)
    ensures a * b != {} <==> exists e :: e in a && e in b
  {
    if e :| e in a && e in b {
      assert e in a * b;
    }
  }

  // ---- what a walk does, as its trace has it ----

  /** A walk reaches a handler and sees its state; it calls one of its callbacks, the handler being deleted or not; it
      has finished with the read side, which leaves the handler in the state given. */
  datatype Act =
    | Reach(h: AioHandler, now: Snap)
    | Call(h: AioHandler, read: bool, deleted: bool)
    | Between(h: AioHandler, now: Snap)

  type Trace = seq<Entry<Act>>

  /** How often the trace has one of the callbacks of `h` called, at whatever depth. */
  ghost function Calls(t: Trace, h: AioHandler, read: bool): nat {
    if t == [] then 0
    else Calls(t[..|t| - 1], h, read) + One(t[|t| - 1].what, h, read)
  }

  ghost function One(e: Act, h: AioHandler, read: bool): nat {
    if e.Call? && e.h == h && e.read == read then 1 else 0
  }

  /** From `a` to `b`: queued events are kept or served, and the callbacks of `h` were invoked exactly as often as the
      trace says. */
  ghost predicate Follows(a: Snap, b: Snap, t: Trace, h: AioHandler) {
    && Kept(a, b)
    && b.readCount == a.readCount + Calls(t, h, true) && b.writeCount == a.writeCount + Calls(t, h, false)
  }

  lemma {:induction false} CallsConcat(s: Trace, t: Trace, h: AioHandler, read: bool)
    ensures Calls(s + t, h, read) == Calls(s, h, read) + Calls(t, h, read)
  {
    if t == [] {
      assert s + t == s;
    } else {
      var u := t[..|t| - 1];
      CallsConcat(s, u, h, read);
      assert (s + t)[..|s + t| - 1] == s + u;
    }
  }

  lemma CallsSingle(e: Entry<Act>, h: AioHandler, read: bool)
    ensures Calls([e], h, read) == One(e.what, h, read)
  {
    assert [e][..0] == [];
  }

  lemma FollowsOn(a: Snap, b: Snap, c: Snap, s: Trace, t: Trace, h: AioHandler)
    requires Follows(a, b, s, h) && Follows(b, c, t, h)
    ensures Follows(a, c, s + t, h)
    ensures Uncalled(a, b) && Uncalled(b, c) ==> Uncalled(a, c)
  {
    hide Calls;
    KeptTrans(a, b, c);
    CallsConcat(s, t, h, true);
    CallsConcat(s, t, h, false);
  }

  lemma FollowsSame(a: Snap, h: AioHandler)
    ensures Follows(a, a, [], h) && Uncalled(a, a)
  {
  }

  lemma FollowsKept(a: Snap, b: Snap, t: Trace, h: AioHandler)
    requires Follows(a, b, t, h)
    ensures Kept(a, b)
  {
  }

  /** The calls of a visit: its other entries do not count. */
  lemma VisitCalls(e: Entry<Act>, r: Trace, f: Entry<Act>, w: Trace, h: AioHandler, read: bool)
    requires !e.what.Call? && !f.what.Call?
    ensures Calls([e] + r + [f] + w, h, read) == Calls(r, h, read) + Calls(w, h, read)
  {
    hide Calls;
    CallsSingle(e, h, read);
    CallsSingle(f, h, read);
    CallsConcat([e], r, h, read);
    CallsConcat([e] + r, [f], h, read);
    CallsConcat([e] + r + [f], w, h, read);
  }

  /** A visit, which may have taken the events off the handler first. */
  lemma FollowsVisit(a: Snap, a': Snap, b: Snap, c: Snap, e: Entry<Act>, r: Trace, f: Entry<Act>, w: Trace,
                     h: AioHandler)
    requires !e.what.Call? && !f.what.Call? && Follows(a', b, r, h) && Follows(b, c, w, h)
    requires a' == a || (a' == Emptied(a) && Kept(a, c))
    ensures Follows(a, c, [e] + r + [f] + w, h)
    ensures a' == a && a == b && b == c ==> Uncalled(a, c)
  {
    hide Calls;
    KeptTrans(a', b, c);
    VisitCalls(e, r, f, w, h, true);
    VisitCalls(e, r, f, w, h, false);
  }

  /** A callback is invoked, and then does what `t` has. */
  lemma FollowsCall(a: Snap, c: Snap, e: Entry<Act>, t: Trace, h: AioHandler)
    requires e.what.Call?
    requires Follows(Invoked(a, e.what, h), c, t, h)
    ensures Follows(a, c, [e] + t, h)
    ensures e.what.h == h ==> Rises(a, c, e.what.read)
  {
    hide Calls;
    forall read: bool
      ensures Calls([e] + t, h, read) == One(e.what, h, read) + Calls(t, h, read)
    {
      CallsSingle(e, h, read);
      CallsConcat([e], t, h, read);
    }
  }

  /** A handler in state `a` once `e` has been counted. */
  ghost function Invoked(a: Snap, e: Act, h: AioHandler): Snap {
    a.(readCount := a.readCount + One(e, h, true), writeCount := a.writeCount + One(e, h, false))
  }

  /** Whether the read callback is due on a handler reached in state `a`. */
  predicate ReadDue(pass: Pass, h: AioHandler, a: Snap) {
    match pass
    case Queued => a.readQueued
    case Ready(readable, _) => !a.deleted && h.fd in readable && a.canRead
  }

  /** Whether the write callback is due, `b` being the state after the read side. The first pass does not look at
      `deleted` again. */
  predicate WriteDue(pass: Pass, h: AioHandler, a: Snap, b: Snap) {
    match pass
    case Queued => a.outQueued && b.canWrite
    case Ready(_, writable) => !b.deleted && h.fd in writable && b.canWrite
  }

  lemma Due(pass: Pass, h: AioHandler, a: Snap, b: Snap)
    ensures pass.Queued? ==>
              ReadDue(pass, h, a) == a.readQueued && WriteDue(pass, h, a, b) == (a.outQueued && b.canWrite)
    ensures pass.Ready? ==> ReadDue(pass, h, a) == (!a.deleted && h.fd in pass.readable && a.canRead)
    ensures pass.Ready? ==> WriteDue(pass, h, a, b) == (!b.deleted && h.fd in pass.writable && b.canWrite)
  {
  }

  /** All that a walk does on one handler, callbacks aside. */
  ghost function TurnOf(pass: Pass, h: AioHandler, a: Snap, b: Snap): seq<Act> {
    [Reach(h, a)] + (if ReadDue(pass, h, a) then [Call(h, true, a.deleted)] else [])
    + [Between(h, b)] + (if WriteDue(pass, h, a, b) then [Call(h, false, b.deleted)] else [])
  }

  /** The first pass takes the events off a handler before anything else. */
  function Taken(pass: Pass, a: Snap): Snap {
    if pass.Queued? then Emptied(a) else a
  }

  /** A visit of a handler reached in state `a`, which the read side leaves in state `b` and the write side in state
      `c`: a side on which no callback is due leaves the handler as it is, and a deleted handler has no events. */
  predicate Through(pass: Pass, h: AioHandler, a: Snap, b: Snap, c: Snap) {
    && (a.deleted ==> !a.readQueued && !a.outQueued)
    && Kept(Taken(pass, a), b) && Kept(b, c)
    && (if ReadDue(pass, h, a) then a.readCount < b.readCount else b == Taken(pass, a))
    && (if WriteDue(pass, h, a, b) then b.writeCount < c.writeCount else c == b)
  }

  /** The first pass calls the write callback of a deleted handler if and only if both kinds of event were queued, the
      handler is deleted when its read callback returns, and its write callback is still set. */
  lemma DeletedHandlerCalled(h: AioHandler, a: Snap, b: Snap, c: Snap)
    requires Through(Queued, h, a, b, c)
    ensures Call(h, false, true) in TurnOf(Queued, h, a, b) <==> a.readQueued && a.outQueued && b.deleted && b.canWrite
    ensures Call(h, true, true) !in TurnOf(Queued, h, a, b)
  {
    var t := TurnOf(Queued, h, a, b);
    if WriteDue(Queued, h, a, b) {
      assert t[|t| - 1] == Call(h, false, b.deleted);
    }
  }

  /** The second pass never calls a deleted handler, and it calls whatever is ready and live when it gets there; so a
      handler it leaves live and with a write callback has been written to if it was ready. */
  lemma ReadyCallsLive(pass: Pass, h: AioHandler, a: Snap, b: Snap, c: Snap)
    requires pass.Ready? && Through(pass, h, a, b, c)
    ensures forall c :: c in TurnOf(pass, h, a, b) && c.Call? ==> !c.deleted
    ensures !a.deleted && a.canRead && h.fd in pass.readable <==> Call(h, true, false) in TurnOf(pass, h, a, b)
    ensures !b.deleted && b.canWrite && h.fd in pass.writable <==> Call(h, false, false) in TurnOf(pass, h, a, b)
    ensures !c.deleted && c.canWrite && h.fd in pass.writable ==> Call(h, false, false) in TurnOf(pass, h, a, b)
  {
    var t := TurnOf(pass, h, a, b);
    if ReadDue(pass, h, a) {
      assert t[1] == Call(h, true, false);
    }
    if WriteDue(pass, h, a, b) {
      assert t[|t| - 1] == Call(h, false, false);
    }
  }

  /** A visit of the first pass, from `a` over `b` after the read side to `c`. */
  lemma QueuedSnaps(h: AioHandler, a: Snap, b: Snap, c: Snap)
    requires a.writeQueued == (a.canWrite && a.outQueued) && (a.deleted ==> !a.readQueued && !a.outQueued)
    requires Kept(Emptied(a), b) && Kept(b, c)
    requires if a.readQueued then a.readCount < b.readCount else b == Emptied(a)
    requires if a.outQueued && b.canWrite then b.writeCount < c.writeCount else c == b
    ensures Kept(a, c) && Served(a, c) && Through(Queued, h, a, b, c)
    ensures if a.readQueued || (a.outQueued && b.canWrite) then Called(a, c) else Uncalled(a, c)
  {
  }

  /** A visit of the second pass. */
  lemma ReadySnaps(h: AioHandler, pass: Pass, a: Snap, b: Snap, c: Snap)
    requires pass.Ready? && (a.deleted ==> !a.readQueued && !a.outQueued)
    requires Kept(a, b) && Kept(b, c)
    requires if ReadDue(pass, h, a) then a.readCount < b.readCount else b == a
    requires if WriteDue(pass, h, a, b) then b.writeCount < c.writeCount else c == b
    ensures Kept(a, c) && Through(pass, h, a, b, c)
    ensures if ReadDue(pass, h, a) || WriteDue(pass, h, a, b) then Called(a, c) else Uncalled(a, c)
  {
  }

  /** The turns over a list, handler by handler. */
  ghost function Turns(pass: Pass, l: seq<AioHandler>, reached: seq<Snap>, between: seq<Snap>): seq<Act>
    requires |l| == |reached| == |between|
  {
    if l == [] then []
    else
      var n := |l| - 1;
      Turns(pass, l[..n], reached[..n], between[..n]) + TurnOf(pass, l[n], reached[n], between[n])
  }

  /** The record of a walk over `l`: the states in which it reached the handlers, in which their read sides left them,
      and in which it left them. */
  ghost predicate Recorded(pass: Pass, l: seq<AioHandler>, reached: seq<Snap>, between: seq<Snap>, left: seq<Snap>,
                           own: seq<Act>)
  {
    && |l| == |reached| == |between| == |left| && own == Turns(pass, l, reached, between)
    && forall i :: 0 <= i < |l| ==> Through(pass, l[i], reached[i], between[i], left[i])
  }

  /** A handler in state `a` when a walk began, reached in state `b`, left in state `c` and in state `d` now. */
  predicate Passed(a: Snap, b: Snap, c: Snap, d: Snap) {
    Kept(a, b) && Kept(c, d)
  }

  /** The handlers a walk reaches, in order. */
  ghost function ReachedIn(t: seq<Act>): seq<AioHandler>
  {
    if t == [] then [] else ReachedIn(t[..|t| - 1]) + if t[|t| - 1].Reach? then [t[|t| - 1].h] else []
  }

  lemma {:induction false} ReachedConcat(s: seq<Act>, t: seq<Act>)
    ensures ReachedIn(s + t) == ReachedIn(s) + ReachedIn(t)
  {
    if t == [] {
      assert s + t == s;
    } else {
      ReachedConcat(s, t[..|t| - 1]);
      assert (s + t)[..|s + t| - 1] == s + t[..|t| - 1];
    }
  }

  lemma ReachedOnce(pass: Pass, h: AioHandler, a: Snap, b: Snap)
    ensures ReachedIn(TurnOf(pass, h, a, b)) == [h]
  {
    var r: seq<Act> := if ReadDue(pass, h, a) then [Call(h, true, a.deleted)] else [];
    var w: seq<Act> := if WriteDue(pass, h, a, b) then [Call(h, false, b.deleted)] else [];
    assert TurnOf(pass, h, a, b) == [Reach(h, a)] + r + [Between(h, b)] + w;
    ReachedConcat([Reach(h, a)] + r + [Between(h, b)], w);
    ReachedConcat([Reach(h, a)] + r, [Between(h, b)]);
    ReachedConcat([Reach(h, a)], r);
    assert [Reach(h, a)][..0] == [] && [Between(h, b)][..0] == [];
    assert r == [] || r[..0] == [];
    assert w == [] || w[..0] == [];
  }

  /** A walk takes the handlers of its list one after the other. */
  lemma {:induction false} WalkInOrder(pass: Pass, l: seq<AioHandler>, reached: seq<Snap>, between: seq<Snap>)
    requires |l| == |reached| == |between|
    ensures ReachedIn(Turns(pass, l, reached, between)) == l
  {
    hide TurnOf;
    if l != [] {
      var n := |l| - 1;
      WalkInOrder(pass, l[..n], reached[..n], between[..n]);
      ReachedOnce(pass, l[n], reached[n], between[n]);
      ReachedConcat(Turns(pass, l[..n], reached[..n], between[..n]), TurnOf(pass, l[n], reached[n], between[n]));
    }
  }

  /** A walk does what its turns do, and nothing else. */
  lemma {:induction false} ActsOfTurns(pass: Pass, l: seq<AioHandler>, reached: seq<Snap>, between: seq<Snap>, c: Act)
    requires |l| == |reached| == |between|
    ensures c in Turns(pass, l, reached, between)
            <==> exists i :: 0 <= i < |l| && c in TurnOf(pass, l[i], reached[i], between[i])
  {
    hide TurnOf;
    if l != [] {
      var n := |l| - 1;
      ActsOfTurns(pass, l[..n], reached[..n], between[..n], c);
      if i :| 0 <= i < n && c in TurnOf(pass, l[..n][i], reached[..n][i], between[..n][i]) {
        assert c in TurnOf(pass, l[i], reached[i], between[i]);
      }
      if i :| 0 <= i < |l| && c in TurnOf(pass, l[i], reached[i], between[i]) {
        assert i < n ==> c in TurnOf(pass, l[..n][i], reached[..n][i], between[..n][i]);
      }
    }
  }

  /** A walk of the first pass calls the write callback of a deleted handler if and only if it reached it with both
      kinds of event queued and the read callback left it deleted with its write callback still set. */
  lemma QueuedWalkCallsDeleted(l: seq<AioHandler>, reached: seq<Snap>, between: seq<Snap>, left: seq<Snap>,
                               own: seq<Act>, h: AioHandler)
    requires Recorded(Queued, l, reached, between, left, own)
    ensures Call(h, true, true) !in own
    ensures Call(h, false, true) in own <==>
              exists i :: 0 <= i < |l| && l[i] == h && reached[i].readQueued && reached[i].outQueued
                       && between[i].deleted && between[i].canWrite
  {
    hide TurnOf, Turns, Through;
    ActsOfTurns(Queued, l, reached, between, Call(h, true, true));
    ActsOfTurns(Queued, l, reached, between, Call(h, false, true));
    forall i | 0 <= i < |l|
      ensures Call(h, true, true) !in TurnOf(Queued, l[i], reached[i], between[i])
      ensures Call(h, false, true) in TurnOf(Queued, l[i], reached[i], between[i]) <==>
                l[i] == h && reached[i].readQueued && reached[i].outQueued && between[i].deleted && between[i].canWrite
    {
      OwnHandler(Queued, l[i], reached[i], between[i]);
      DeletedHandlerCalled(l[i], reached[i], between[i], left[i]);
    }
  }

  /** A walk of the second pass never calls a deleted handler, and calls every handler that is ready and live when it is
      reached: for reading on arrival, for writing after the read side. Any that it leaves live, ready for writing and
      with a write callback has been written to. */
  lemma ReadyWalkServes(pass: Pass, l: seq<AioHandler>, reached: seq<Snap>, between: seq<Snap>, left: seq<Snap>,
                        own: seq<Act>)
    requires pass.Ready? && Recorded(pass, l, reached, between, left, own)
    ensures forall c :: c in own && c.Call? ==> !c.deleted
    ensures forall i :: 0 <= i < |l| && !reached[i].deleted && reached[i].canRead && l[i].fd in pass.readable ==>
              Call(l[i], true, false) in own
    ensures forall i :: 0 <= i < |l| && !between[i].deleted && between[i].canWrite && l[i].fd in pass.writable ==>
              Call(l[i], false, false) in own
    ensures forall i :: 0 <= i < |l| && !left[i].deleted && left[i].canWrite && l[i].fd in pass.writable ==>
              Call(l[i], false, false) in own
  {
    hide TurnOf, Turns, Through;
    forall i | 0 <= i < |l|
      ensures !reached[i].deleted && reached[i].canRead && l[i].fd in pass.readable ==> Call(l[i], true, false) in own
      ensures !between[i].deleted && between[i].canWrite && l[i].fd in pass.writable ==> Call(l[i], false, false) in own
      ensures !left[i].deleted && left[i].canWrite && l[i].fd in pass.writable ==> Call(l[i], false, false) in own
    {
      ReadyCallsLive(pass, l[i], reached[i], between[i], left[i]);
      ActsOfTurns(pass, l, reached, between, Call(l[i], true, false));
      ActsOfTurns(pass, l, reached, between, Call(l[i], false, false));
    }
    forall c | c in own && c.Call?
      ensures !c.deleted
    {
      ActsOfTurns(pass, l, reached, between, c);
      var i :| 0 <= i < |l| && c in TurnOf(pass, l[i], reached[i], between[i]);
      ReadyCallsLive(pass, l[i], reached[i], between[i], left[i]);
    }
  }

  lemma OwnHandler(pass: Pass, h: AioHandler, a: Snap, b: Snap)
    ensures forall c :: c in TurnOf(pass, h, a, b) ==> c.h == h
  {
  }

  lemma RecordNext(pass: Pass, l: seq<AioHandler>, reached: seq<Snap>, between: seq<Snap>, left: seq<Snap>,
                   own: seq<Act>, h: AioHandler, a: Snap, b: Snap, c: Snap)
    requires Recorded(pass, l, reached, between, left, own) && Through(pass, h, a, b, c)
    ensures Recorded(pass, l + [h], reached + [a], between + [b], left + [c], own + TurnOf(pass, h, a, b))
  {
    hide Through, TurnOf;
    var n := |l|;
    assert (l + [h])[..n] == l && (reached + [a])[..n] == reached && (between + [b])[..n] == between;
    assert (l + [h])[n] == h && (reached + [a])[n] == a && (between + [b])[n] == b && (left + [c])[n] == c;
    forall i | 0 <= i < n
      ensures Through(pass, (l + [h])[i], (reached + [a])[i], (between + [b])[i], (left + [c])[i])
    {
    }
  }

  /** The entries of one turn in the trace, with what the callbacks did in between. */
  lemma TurnTraced(pass: Pass, h: AioHandler, a: Snap, b: Snap, d: nat, r: Trace, w: Trace)
    requires AtDepth(r, d) == if ReadDue(pass, h, a) then [Call(h, true, a.deleted)] else []
    requires AtDepth(w, d) == if WriteDue(pass, h, a, b) then [Call(h, false, b.deleted)] else []
    ensures AtDepth([Entry(d, Reach(h, a))] + r + [Entry(d, Between(h, b))] + w, d) == TurnOf(pass, h, a, b)
  {
    hide AtDepth, ReadDue, WriteDue;
    var e, f := Entry(d, Reach(h, a)), Entry(d, Between(h, b));
    AtDepthSingle(e, d);
    AtDepthSingle(f, d);
    AtDepthConcat([e], r, d);
    AtDepthConcat([e] + r, [f], d);
    AtDepthConcat([e] + r + [f], w, d);
  }

  lemma TurnDeeper(e: Entry<Act>, r: Trace, f: Entry<Act>, w: Trace, d: nat)
    requires e.depth == f.depth == d > 0 && Deeper(r, d - 1) && Deeper(w, d - 1)
    ensures Deeper([e] + r + [f] + w, d - 1)
  {
    DeeperConcat([e], r, d - 1);
    DeeperConcat([e] + r, [f], d - 1);
    DeeperConcat([e] + r + [f], w, d - 1);
  }

  lemma Append(t: Trace, s: Trace, d: Trace)
    ensures t + s + d == t + (s + d)
  {
  }

  lemma Appended(t: Trace, e: Entry<Act>, r: Trace, f: Entry<Act>, w: Trace)
    ensures t + [e] + r + [f] + w == t + ([e] + r + [f] + w)
  {
  }

  /** The trace of a visit, and its own acts spelled out. */
  lemma VisitTraced(pass: Pass, h: AioHandler, a: Snap, b: Snap, d: nat, r: Trace, w: Trace, t: Trace,
                    read: bool, write: bool)
    requires d > 0 && read == ReadDue(pass, h, a) && write == WriteDue(pass, h, a, b)
    requires AtDepth(r, d) == (if read then [Call(h, true, a.deleted)] else []) && Deeper(r, d - 1)
    requires AtDepth(w, d) == (if write then [Call(h, false, b.deleted)] else []) && Deeper(w, d - 1)
    ensures var e, f := Entry(d, Reach(h, a)), Entry(d, Between(h, b));
            var seg := [e] + r + [f] + w;
            && t + [e] + r + [f] + w == t + seg && Deeper(seg, d - 1) && AtDepth(seg, d) == TurnOf(pass, h, a, b)
            && AtDepth(seg, d) == [Reach(h, a)] + (if read then [Call(h, true, a.deleted)] else [])
                                  + [Between(h, b)] + (if write then [Call(h, false, b.deleted)] else [])
  {
    hide AtDepth, Deeper, ReadDue, WriteDue;
    Appended(t, Entry(d, Reach(h, a)), r, Entry(d, Between(h, b)), w);
    TurnDeeper(Entry(d, Reach(h, a)), r, Entry(d, Between(h, b)), w, d);
    TurnTraced(pass, h, a, b, d, r, w);
  }

  lemma CallTraced(e: Entry<Act>, t: Trace)
    requires e.depth > 0 && Deeper(t, e.depth)
    ensures Deeper([e] + t, e.depth - 1) && AtDepth([e] + t, e.depth) == [e.what]
  {
    OwnThenDeeper(e, t);
  }

  lemma NoActs(d: nat)
    ensures Deeper<Act>([], d) && AtDepth<Act>([], d) == []
  {
  }

  /** A walk under way: it began on the list `orig`, with `repr` the handlers there were; `front` is behind it, `tail`
      ahead; of the `done` nodes those in `gone` have been unlinked; `added` have come in front. */
  datatype Course = Course(orig: seq<AioHandler>, repr: set<AioHandler>, front: seq<AioHandler>, tail: seq<AioHandler>,
                           done: set<AioHandler>, gone: set<AioHandler>, added: seq<AioHandler>)

  /** Its records: the handlers behind it, the states of its visits to them, and the trace so far. */
  datatype Record = Record(past: seq<AioHandler>, reached: seq<Snap>, between: seq<Snap>, left: seq<Snap>, seg: Trace)

  ghost predicate OnCourse(w: Course, nested: bool) {
    && Covered(w)
    && Parted(w)
    && (nested ==> w.front + w.tail == w.added + w.orig && w.gone == {})
    && (forall h :: h in w.added ==> h !in w.repr)
  }

  ghost predicate Covered(w: Course) {
    && (forall h :: h in w.orig ==> h in w.repr && (h in w.done || h in w.tail))
    && (forall h :: h in w.tail ==> h in w.orig)
  }

  ghost predicate Parted(w: Course) {
    && w.gone <= w.done <= w.repr
    && (forall h :: h in w.done ==> h in w.gone || h in w.front)
    && (forall h :: h in w.gone ==> h !in w.front && h !in w.tail)
    && Distinct(w.front + w.tail)
  }

  ghost function Onward(w: Course, more: seq<AioHandler>, removed: bool): Course
    requires w.tail != []
  {
    w.(front := more + w.front + (if removed then [] else [w.tail[0]]), tail := w.tail[1..],
       done := w.done + {w.tail[0]}, gone := if removed then w.gone + {w.tail[0]} else w.gone, added := more + w.added)
  }

  lemma StaysCovered(w: Course, more: seq<AioHandler>, removed: bool)
    requires Covered(w) && w.tail != []
    ensures Covered(Onward(w, more, removed)) && w.tail[0] in w.repr
  {
    assert w.tail[0] in w.tail;
    assert forall h :: h in w.tail ==> h == w.tail[0] || h in w.tail[1..];
  }

  lemma HeadOnce(front: seq<AioHandler>, tail: seq<AioHandler>)
    requires Distinct(front + tail) && tail != []
    ensures tail[0] !in front && tail[0] !in tail[1..]
  {
    var l := front + tail;
    assert l[|front|] == tail[0];
    assert forall i :: 0 <= i < |front| ==> l[i] == front[i];
    assert forall i :: 1 <= i < |tail| ==> l[|front| + i] == tail[i];
  }

  lemma StaysParted(w: Course, more: seq<AioHandler>, removed: bool)
    requires Parted(w) && w.tail != [] && w.tail[0] in w.repr
    requires forall h :: h in more ==> h !in w.repr
    requires Distinct(more + w.front + (if removed then [] else [w.tail[0]]) + w.tail[1..])
    ensures Parted(Onward(w, more, removed))
  {
    HeadOnce(w.front, w.tail);
    hide Distinct;
    assert forall h :: h in w.tail[1..] ==> h in w.tail;
  }

  lemma StaysOnCourse(w: Course, nested: bool, more: seq<AioHandler>, removed: bool)
    requires OnCourse(w, nested) && w.tail != [] && (removed ==> !nested)
    requires forall h :: h in more ==> h !in w.repr
    requires Distinct(more + w.front + (if removed then [] else [w.tail[0]]) + w.tail[1..])
    ensures OnCourse(Onward(w, more, removed), nested)
  {
    StaysCovered(w, more, removed);
    StaysParted(w, more, removed);
    hide Covered, Parted, Distinct;
    if nested {
      assert more + w.front + [w.tail[0]] + w.tail[1..] == more + (w.front + w.tail);
      assert more + w.added + w.orig == more + (w.added + w.orig);
    }
  }

  lemma StartsCourse(orig: seq<AioHandler>, repr: set<AioHandler>, nested: bool)
    requires Distinct(orig) && forall h :: h in orig ==> h in repr
    ensures OnCourse(Course(orig, repr, [], orig, {}, {}, []), nested)
  {
    assert [] + orig == orig;
  }

  class AioContext {
    var handlers: seq<AioHandler>
    var walking: nat
    var polls: set<AioHandler>
    ghost var trace: Trace
    ghost var Repr: set<AioHandler>

    /** No descriptor has two live handlers; the live handlers are the ones the main loop polls; a deleted one has no
        event left. */
    ghost predicate Valid()
      reads `handlers, `polls, `Repr, Repr`deleted, Repr`revents
    {
      && Distinct(handlers)
      && (forall h :: h in handlers ==> h in Repr)
      && (forall g, h :: g in polls && h in polls && g.fd == h.fd ==> g == h)
      && (forall h :: h in handlers && !h.deleted ==> h in polls)
      && (forall h :: h in polls ==> h in handlers && !h.deleted)
      && (forall h :: h in handlers && h.deleted ==> h.revents == {})
    }

    constructor ()
      ensures Valid() && handlers == [] && walking == 0 && trace == [] && Repr == {}
    {
      handlers, walking, polls, trace, Repr := [], 0, {}, [], {};
    }

    /** `find_aio_handler`: the live handler of the descriptor, if there is one. */
    method FindHandler(fd: int) returns (node: AioHandler?)
      requires Valid()
      ensures node == null ==> forall h :: h in handlers && h.fd == fd ==> h.deleted
      ensures node != null ==> node in handlers && node in Repr && node.fd == fd && !node.deleted
    {
      for i := 0 to |handlers|
        invariant forall j :: 0 <= j < i && handlers[j].fd == fd ==> handlers[j].deleted
      {
        if handlers[i].fd == fd && !handlers[i].deleted {
          return handlers[i];
        }
      }
      return null;
    }

    /** `aio_set_fd_handler`. */
    method SetFdHandler(fd: int, read: bool, write: bool, flush: bool) returns (ghost added: seq<AioHandler>)
      requires Valid()
      modifies this, Repr
      ensures Valid() && walking == old(walking) && old(Repr) <= Repr && fresh(Repr - old(Repr))
      ensures walking > 0 ==> handlers == added + old(handlers) && forall h :: h in added ==> h !in old(Repr)
      ensures trace == old(trace)
      ensures forall h :: h in old(Repr) && h.fd != fd ==> unchanged(h) && (h in handlers <==> h in old(handlers))
      ensures forall h :: h in old(Repr) && old(h.deleted) ==> h in old(handlers) ==> h in handlers
      ensures forall h :: h in old(Repr) ==> Follows(old(SnapOf(h)), SnapOf(h), [], h)
      ensures !read && !write ==> forall h :: h in handlers && h.fd == fd ==> h.deleted
      ensures !read && !write && walking == 0 ==>
                forall h :: h in old(handlers) && h.fd == fd && !old(h.deleted) ==> h !in handlers
      ensures !read && !write ==> forall h :: h in old(Repr) ==> h.ioWrite == old(h.ioWrite)
      ensures read || write ==>
                exists h :: h in handlers && h.fd == fd && !h.deleted && h.ioRead == read && h.ioWrite == write
                  && h.ioFlush == flush
                         && h.events == (if read then {In, Hup} else {}) + (if write then {Out} else {})
    {
      hide Valid, Follows, SnapOf;
      added := [];
      Unmoved();
      var node := FindHandler(fd);
      if !read && !write {
        if node != null {
          RemoveHandler(node);
        }
      } else {
        if node == null {
          node := AddHandler(fd);
          added := [node];
        }
        UpdateHandler(node, read, write, flush);
      }
    }

    /** Deferred while a walk is under way, immediate otherwise. */
    method RemoveHandler(node: AioHandler)
      requires Valid() && node in handlers && !node.deleted
      modifies this, node
      ensures Valid() && walking == old(walking) && Repr == old(Repr)
      ensures trace == old(trace)
      ensures walking > 0 ==> handlers == old(handlers) && node.deleted
      ensures Follows(old(SnapOf(node)), SnapOf(node), [], node)
      ensures walking == 0 ==> node !in handlers
      ensures forall h :: h in handlers && h.fd == node.fd ==> h.deleted
      ensures node.ioWrite == old(node.ioWrite)
      ensures forall h :: h in old(handlers) && h != node ==> h in handlers
      ensures forall h :: h in handlers ==> h in old(handlers)
    {
      polls := polls - {node};
      if walking > 0 {
        node.deleted := true;
        node.revents := {};
        node.changes := node.changes + 1;
      } else {
        MinusDistinct(handlers, node);
        handlers := Minus(handlers, node);
      }
    }

    method AddHandler(fd: int) returns (node: AioHandler)
      requires Valid() && forall h :: h in handlers && h.fd == fd ==> h.deleted
      modifies this
      ensures Valid() && walking == old(walking) && fresh(node) && node.fd == fd && !node.deleted
      ensures handlers == [node] + old(handlers) && Repr == old(Repr) + {node} && trace == old(trace)
    {
      node := new AioHandler(fd);
      handlers, polls := [node] + handlers, polls + {node};
      Repr := Repr + {node};
    }

    method UpdateHandler(node: AioHandler, read: bool, write: bool, flush: bool)
      requires Valid() && node in handlers
      modifies node`ioRead, node`ioWrite, node`ioFlush, node`events, node`changes
      ensures Valid() && Follows(old(SnapOf(node)), SnapOf(node), [], node)
      ensures node.ioRead == read && node.ioWrite == write && node.ioFlush == flush
      ensures node.events == (if read then {In, Hup} else {}) + (if write then {Out} else {})
    {
      node.ioRead, node.ioWrite, node.ioFlush := read, write, flush;
      node.events := (if read then {In, Hup} else {}) + (if write then {Out} else {});
      node.changes := node.changes + 1;
    }

    /** The main loop has polled: events on a registered descriptor are stored with its handler. */
    method Arrive(fd: int, revents: set<Event>)
      requires Valid()
      modifies Repr`revents, Repr`changes
      ensures Valid() && forall h :: h in Repr ==> Follows(old(SnapOf(h)), SnapOf(h), [], h)
      ensures forall h :: h in handlers && h.fd == fd && !h.deleted ==> h.revents == revents
      ensures forall h :: h in Repr && (h.fd != fd || h.deleted) ==>
                h.revents == old(h.revents) && h.changes == old(h.changes)
    {
      var node := FindHandler(fd);
      if node != null {
        node.revents := revents;
        node.changes := node.changes + 1;
      }
    }

    /** The body of a callback: any sequence of calls, which may poll again. Inside a walk nothing is unlinked, and what
        is done is done at greater depth. */
    method RunCallback(s: Script) returns (ghost added: seq<AioHandler>, ghost seg: Trace)
      requires Valid()
      modifies this, Repr
      ensures Valid() && walking == old(walking) && old(Repr) <= Repr && fresh(Repr - old(Repr))
      ensures walking > 0 ==> handlers == added + old(handlers) && forall h :: h in added ==> h !in old(Repr)
      ensures trace == old(trace) + seg && Deeper(seg, walking)
      ensures forall h :: h in old(Repr) ==> Follows(old(SnapOf(h)), SnapOf(h), seg, h)
      ensures forall h :: h in old(Repr) && h in handlers && Removes(s, h.fd) ==>
                h.deleted && h.ioWrite == old(h.ioWrite)
      decreases s
    {
      hide Valid, Deeper, Follows, SnapOf;
      added, seg := [], [];
      NoActs(walking);
      if s.Do? {
        added, seg := Perform(s.op);
        if s.rest.Do? {
          ghost var mid := map h | h in Repr :: SnapOf(h);
          ghost var more, then' := RunCallback(s.rest);
          DeeperConcat(seg, then', walking);
          forall h | h in old(Repr)
            ensures Follows(old(SnapOf(h)), SnapOf(h), seg + then', h)
          {
            FollowsOn(old(SnapOf(h)), mid[h], SnapOf(h), seg, then', h);
          }
          added, seg := more + added, seg + then';
        }
      } else {
        Unmoved();
      }
    }

    lemma Unmoved()
      ensures forall h :: h in Repr ==> Follows(SnapOf(h), SnapOf(h), [], h)
    {
      forall h | h in Repr
        ensures Follows(SnapOf(h), SnapOf(h), [], h)
      {
        FollowsSame(SnapOf(h), h);
      }
    }

    method Perform(op: Op) returns (ghost added: seq<AioHandler>, ghost seg: Trace)
      requires Valid()
      modifies this, Repr
      ensures Valid() && walking == old(walking) && old(Repr) <= Repr && fresh(Repr - old(Repr))
      ensures walking > 0 ==> handlers == added + old(handlers) && forall h :: h in added ==> h !in old(Repr)
      ensures trace == old(trace) + seg && Deeper(seg, walking)
      ensures forall h :: h in old(Repr) ==> Follows(old(SnapOf(h)), SnapOf(h), seg, h)
      ensures forall h :: h in old(Repr) && h in handlers && Removes(Do(op, End), h.fd) ==>
                h.deleted && h.ioWrite == old(h.ioWrite)
      decreases op
    {
      hide Valid, Deeper, Recorded, Follows, SnapOf, Passed;
      added, seg := [], [];
      NoActs(walking);
      match op {
        case SetHandler(fd, read, write, flush) =>
          added := SetFdHandler(fd, read, write, flush);
        case Arrive(fd, revents) =>
          Arrive(fd, revents);
        case Poll(callbacks, ready, after) =>
          var progress;
          ghost var more, then', reached, between, left;
          progress, added, seg, reached, between, left := Walk(Queued, callbacks);
          ghost var mid := map h | h in Repr :: SnapOf(h);
          progress, more, then', reached, between, left := Walk(ready, after);
          DeeperConcat(seg, then', walking);
          forall h | h in old(Repr)
            ensures Follows(old(SnapOf(h)), SnapOf(h), seg + then', h)
          {
            FollowsOn(old(SnapOf(h)), mid[h], SnapOf(h), seg, then', h);
          }
          added, seg := more + added, seg + then';
      }
    }

    /** One side of a visit: the callback is invoked if it is due. */
    method Side(node: AioHandler, read: bool, due: bool, callbacks: Scripts)
      returns (rest: Scripts, ghost added: seq<AioHandler>, ghost seg: Trace)
      requires Valid() && node in Repr && walking > 0
      modifies this, Repr
      ensures Valid() && walking == old(walking) && old(Repr) <= Repr && fresh(Repr - old(Repr))
      ensures handlers == added + old(handlers) && forall h :: h in added ==> h !in old(Repr)
      ensures trace == old(trace) + seg && Deeper(seg, walking - 1)
      ensures AtDepth(seg, walking) == if due then [Call(node, read, old(node.deleted))] else []
      ensures forall h :: h in old(Repr) ==> Follows(old(SnapOf(h)), SnapOf(h), seg, h)
      ensures !due ==> forall h :: h in old(Repr) ==> SnapOf(h) == old(SnapOf(h))
      ensures due ==> Rises(old(SnapOf(node)), SnapOf(node), read)
      ensures due && callbacks.Cons? && Removes(callbacks.head, node.fd) && node in handlers ==>
                SnapOf(node).deleted && SnapOf(node).canWrite == old(SnapOf(node)).canWrite
      ensures rest == callbacks || rest < callbacks
      decreases callbacks, 1
    {
      hide Valid, Deeper, AtDepth, Follows;
      rest, added, seg := callbacks, [], [];
      NoActs(walking);
      NoActs(walking - 1);
      if due {
        rest, added, seg := Invoke(node, read, rest);
      } else {
        Unmoved();
      }
    }

    /** What a walk does on a node of the first pass. The events are taken once, before the callbacks, and `deleted` is
        not looked at. */
    method VisitQueued(node: AioHandler, callbacks: Scripts)
      returns (progress: bool, rest: Scripts, ghost added: seq<AioHandler>, ghost seg: Trace, ghost between: Snap)
      requires Valid() && node in handlers && node in Repr && walking > 0 && (node.deleted ==> node.revents == {})
      modifies this, Repr
      ensures Valid() && walking == old(walking) && old(Repr) <= Repr && fresh(Repr - old(Repr))
      ensures handlers == added + old(handlers) && forall h :: h in added ==> h !in old(Repr)
      ensures trace == old(trace) + seg && Deeper(seg, walking - 1)
      ensures AtDepth(seg, walking) == TurnOf(Queued, node, old(SnapOf(node)), between)
      ensures var ev := old(node.revents * node.events);
              var read := old(node.ioRead) && (In in ev || Hup in ev || Err in ev);
              var write := (Out in ev || Err in ev) && between.canWrite;
              AtDepth(seg, walking)
              == [Reach(node, old(SnapOf(node)))] + (if read then [Call(node, true, old(node.deleted))] else [])
                 + [Between(node, between)] + (if write then [Call(node, false, between.deleted)] else [])
      ensures Through(Queued, node, old(SnapOf(node)), between, SnapOf(node))
      ensures forall h :: h in old(Repr) ==> Follows(old(SnapOf(h)), SnapOf(h), seg, h)
      ensures Served(old(SnapOf(node)), SnapOf(node))
      ensures progress ==> Called(old(SnapOf(node)), SnapOf(node))
      ensures !progress ==> forall h :: h in old(Repr) ==> Uncalled(old(SnapOf(h)), SnapOf(h))
      ensures rest == callbacks || rest < callbacks
      ensures old(SnapOf(node)).readQueued ==>
                callbacks.Cons? && Removes(callbacks.head, node.fd) ==>
                    between.deleted && between.canWrite == old(SnapOf(node)).canWrite
      decreases callbacks, 2
    {
      hide Valid, Deeper, AtDepth, TurnOf, SnapOf, Follows, Kept, Served, Called, Uncalled, Through, ReadDue, WriteDue,
        Removes;
      ghost var a, d := SnapOf(node), walking;
      SnapSane(node);
      trace := trace + [Entry(d, Reach(node, a))];
      var inEvent, outEvent := TakeEvents(node);
      var read := inEvent && node.ioRead;
      ghost var r, w, more;
      rest, added, r := Side(node, true, read, callbacks);
      label middle:
      between := SnapOf(node);
      SnapSane(node);
      trace := trace + [Entry(d, Between(node, between))];
      var write := outEvent && node.ioWrite;
      rest, more, w := Side(node, false, write, rest);
      progress := read || write;
      added := more + added;
      seg := [Entry(d, Reach(node, a))] + r + [Entry(d, Between(node, between))] + w;
      Due(Queued, node, a, between);
      VisitTraced(Queued, node, a, between, d, r, w, old(trace), read, write);
      FollowsKept(Emptied(a), between, r, node);
      FollowsKept(between, SnapOf(node), w, node);
      QueuedSnaps(node, a, between, SnapOf(node));
      forall h | h in old(Repr)
        ensures Follows(old(SnapOf(h)), SnapOf(h), seg, h)
        ensures !progress ==> Uncalled(old(SnapOf(h)), SnapOf(h))
      {
        FollowsVisit(old(SnapOf(h)), if h == node then Emptied(a) else old(SnapOf(h)), old@middle(SnapOf(h)), SnapOf(h),
                     Entry(d, Reach(node, a)), r, Entry(d, Between(node, between)), w, h);
      }
    }

    /** The events of a handler, masked by what it asks for, are taken off it. */
    method TakeEvents(node: AioHandler) returns (inEvent: bool, outEvent: bool)
      requires Valid() && node in Repr
      modifies node`revents
      ensures Valid() && SnapOf(node) == Emptied(old(SnapOf(node)))
      ensures old(SnapOf(node)).readQueued == (inEvent && node.ioRead) && old(SnapOf(node)).outQueued == outEvent
    {
      var revents := node.revents * node.events;
      node.revents := {};
      inEvent, outEvent := revents * {In, Hup, Err} != {}, revents * {Out, Err} != {};
    }

    /** Invoking one callback of a handler. */
    method Invoke(node: AioHandler, read: bool, callbacks: Scripts)
      returns (rest: Scripts, ghost added: seq<AioHandler>, ghost seg: Trace)
      requires Valid() && node in Repr && walking > 0
      modifies this, Repr
      ensures Valid() && walking == old(walking) && old(Repr) <= Repr && fresh(Repr - old(Repr))
      ensures handlers == added + old(handlers) && forall h :: h in added ==> h !in old(Repr)
      ensures trace == old(trace) + seg && Deeper(seg, walking - 1)
      ensures AtDepth(seg, walking) == [Call(node, read, old(node.deleted))]
      ensures forall h :: h in old(Repr) ==> Follows(old(SnapOf(h)), SnapOf(h), seg, h)
      ensures callbacks.Cons? && Removes(callbacks.head, node.fd) && node in handlers ==>
                node.deleted && node.ioWrite == old(node.ioWrite)
      ensures Rises(old(SnapOf(node)), SnapOf(node), read)
      ensures rest == callbacks || rest < callbacks
      decreases callbacks, 0
    {
      hide Valid, Deeper, AtDepth, Follows, SnapOf, Invoked;
      ghost var e := Entry(walking, Call(node, read, node.deleted));
      trace := trace + [e];
      Count(node, read, e.what);
      rest, added := callbacks, [];
      ghost var t: Trace := [];
      NoActs(walking);
      if callbacks.Cons? {
        rest := callbacks.tail;
        added, t := RunCallback(callbacks.head);
      } else {
        Unmoved();
      }
      seg := [e] + t;
      CallTraced(e, t);
      forall h | h in old(Repr)
        ensures Follows(old(SnapOf(h)), SnapOf(h), seg, h)
        ensures h == node ==> Rises(old(SnapOf(h)), SnapOf(h), read)
      {
        FollowsCall(old(SnapOf(h)), SnapOf(h), e, t, h);
      }
    }

    ghost method Count(node: AioHandler, read: bool, e: Act)
      requires Valid() && node in Repr && e == Call(node, read, node.deleted)
      modifies node`readCalls, node`writeCalls
      ensures Valid() && forall h :: h in Repr ==> SnapOf(h) == Invoked(old(SnapOf(h)), e, h)
    {
      if read {
        node.readCalls := node.readCalls + 1;
      } else {
        node.writeCalls := node.writeCalls + 1;
      }
    }

    /** What a walk does on a node of the second pass; both callbacks are held back once the handler is deleted. */
    method VisitReady(node: AioHandler, pass: Pass, callbacks: Scripts)
      returns (progress: bool, rest: Scripts, ghost added: seq<AioHandler>, ghost seg: Trace, ghost between: Snap)
      requires Valid() && node in Repr && walking > 0 && pass.Ready? && (node.deleted ==> node.revents == {})
      modifies this, Repr
      ensures Valid() && walking == old(walking) && old(Repr) <= Repr && fresh(Repr - old(Repr))
      ensures handlers == added + old(handlers) && forall h :: h in added ==> h !in old(Repr)
      ensures trace == old(trace) + seg && Deeper(seg, walking - 1)
      ensures AtDepth(seg, walking) == TurnOf(pass, node, old(SnapOf(node)), between)
      ensures var read := old(!node.deleted && node.ioRead) && node.fd in pass.readable;
              var write := !between.deleted && between.canWrite && node.fd in pass.writable;
              AtDepth(seg, walking)
              == [Reach(node, old(SnapOf(node)))] + (if read then [Call(node, true, false)] else [])
                 + [Between(node, between)] + (if write then [Call(node, false, false)] else [])
      ensures Through(pass, node, old(SnapOf(node)), between, SnapOf(node))
      ensures forall h :: h in old(Repr) ==> Follows(old(SnapOf(h)), SnapOf(h), seg, h)
      ensures progress ==> Called(old(SnapOf(node)), SnapOf(node))
      ensures !progress ==> forall h :: h in old(Repr) ==> Uncalled(old(SnapOf(h)), SnapOf(h))
      ensures rest == callbacks || rest < callbacks
      decreases callbacks, 2
    {
      hide Valid, Deeper, AtDepth, TurnOf, SnapOf, Follows, Kept, Served, Called, Uncalled, Through, ReadDue, WriteDue,
        Removes;
      ghost var a, d := SnapOf(node), walking;
      SnapSane(node);
      trace := trace + [Entry(d, Reach(node, a))];
      var read := !node.deleted && node.fd in pass.readable && node.ioRead;
      ghost var r, w, more;
      rest, added, r := Side(node, true, read, callbacks);
      label middle:
      between := SnapOf(node);
      SnapSane(node);
      trace := trace + [Entry(d, Between(node, between))];
      var write := !node.deleted && node.fd in pass.writable && node.ioWrite;
      rest, more, w := Side(node, false, write, rest);
      progress := read || write;
      added := more + added;
      seg := [Entry(d, Reach(node, a))] + r + [Entry(d, Between(node, between))] + w;
      Due(pass, node, a, between);
      VisitTraced(pass, node, a, between, d, r, w, old(trace), read, write);
      FollowsKept(a, between, r, node);
      FollowsKept(between, SnapOf(node), w, node);
      ReadySnaps(node, pass, a, between, SnapOf(node));
      forall h | h in old(Repr)
        ensures Follows(old(SnapOf(h)), SnapOf(h), seg, h)
        ensures !progress ==> Uncalled(old(SnapOf(h)), SnapOf(h))
      {
        FollowsVisit(old(SnapOf(h)), old(SnapOf(h)), old@middle(SnapOf(h)), SnapOf(h),
                     Entry(d, Reach(node, a)), r, Entry(d, Between(node, between)), w, h);
      }
    }

    method Visit(pass: Pass, node: AioHandler, callbacks: Scripts)
      returns (progress: bool, rest: Scripts, ghost added: seq<AioHandler>, ghost seg: Trace, ghost between: Snap)
      requires Valid() && node in handlers && node in Repr && walking > 0 && (node.deleted ==> node.revents == {})
      modifies this, Repr
      ensures Valid() && walking == old(walking) && old(Repr) <= Repr && fresh(Repr - old(Repr))
      ensures handlers == added + old(handlers) && forall h :: h in added ==> h !in old(Repr)
      ensures trace == old(trace) + seg && Deeper(seg, walking - 1)
      ensures AtDepth(seg, walking) == TurnOf(pass, node, old(SnapOf(node)), between)
      ensures Through(pass, node, old(SnapOf(node)), between, SnapOf(node))
      ensures forall h :: h in old(Repr) ==> Follows(old(SnapOf(h)), SnapOf(h), seg, h)
      ensures pass.Queued? ==> Served(old(SnapOf(node)), SnapOf(node))
      ensures progress ==> Called(old(SnapOf(node)), SnapOf(node))
      ensures !progress ==> forall h :: h in old(Repr) ==> Uncalled(old(SnapOf(h)), SnapOf(h))
      ensures rest == callbacks || rest < callbacks
      ensures pass.Queued? && old(SnapOf(node)).readQueued ==>
                callbacks.Cons? && Removes(callbacks.head, node.fd) ==>
                    between.deleted && between.canWrite == old(SnapOf(node)).canWrite
      decreases callbacks, 3
    {
      hide Valid, Deeper, AtDepth, TurnOf, Through, SnapOf, Follows, Served, Called, Uncalled;
      if pass.Queued? {
        progress, rest, added, seg, between := VisitQueued(node, callbacks);
      } else {
        progress, rest, added, seg, between := VisitReady(node, pass, callbacks);
      }
    }

    /** One node of a walk: while its callbacks run nothing is unlinked, so its successor can be read afterwards; the
        node itself goes if it is deleted and this walk is the outermost. */
    method Step(pass: Pass, node: AioHandler, callbacks: Scripts, ghost front: seq<AioHandler>,
                ghost tail: seq<AioHandler>)
      returns (progress: bool, next: AioHandler?, rest: Scripts, ghost added: seq<AioHandler>, ghost seg: Trace,
               ghost between: Snap)
      requires Valid() && handlers == front + tail && tail != [] && tail[0] == node
      modifies this, Repr
      ensures Valid() && walking == old(walking) && old(Repr) <= Repr && fresh(Repr - old(Repr))
      ensures handlers == added + front + (if walking == 0 && node.deleted then [] else [node]) + tail[1..]
      ensures forall h :: h in added ==> h !in old(Repr)
      ensures next == if |tail| == 1 then null else tail[1]
      ensures trace == old(trace) + seg && Deeper(seg, walking)
      ensures AtDepth(seg, walking + 1) == TurnOf(pass, node, old(SnapOf(node)), between)
      ensures Through(pass, node, old(SnapOf(node)), between, SnapOf(node))
      ensures forall h :: h in old(Repr) ==> Follows(old(SnapOf(h)), SnapOf(h), seg, h)
      ensures pass.Queued? ==> Served(old(SnapOf(node)), SnapOf(node))
      ensures progress ==> Called(old(SnapOf(node)), SnapOf(node))
      ensures !progress ==> forall h :: h in old(Repr) ==> Uncalled(old(SnapOf(h)), SnapOf(h))
      ensures rest == callbacks || rest < callbacks
      ensures pass.Queued? && old(SnapOf(node)).readQueued ==>
                callbacks.Cons? && Removes(callbacks.head, node.fd) ==>
                    between.deleted && between.canWrite == old(SnapOf(node)).canWrite
      decreases callbacks, 4
    {
      hide Valid, Distinct, SnapOf, Follows, Served, Called, Uncalled, Deeper, AtDepth, TurnOf, Through;
      ValidNode(node);
      ValidAll();
      walking := walking + 1;
      progress, rest, added, seg, between := Visit(pass, node, callbacks);
      assert handlers == added + front + [node] + tail[1..];
      NotBefore(added + front, node, tail[1..]);
      At(added + front, node, tail[1..]);
      next := NextOf(handlers, node);
      walking := walking - 1;
      if walking == 0 && node.deleted {
        Reclaim(node);
      }
    }

    lemma ValidAll()
      requires Valid()
      ensures Distinct(handlers) && forall h :: h in handlers ==> h in Repr
    {
    }

    lemma ValidNode(node: AioHandler)
      requires Valid() && node in handlers
      ensures node in Repr && (node.deleted ==> node.revents == {})
    {
    }

    lemma NotBefore(pre: seq<AioHandler>, node: AioHandler, post: seq<AioHandler>)
      requires Valid() && handlers == pre + [node] + post
      ensures node !in pre
    {
      assert handlers[|pre|] == node;
      assert forall i :: 0 <= i < |pre| ==> handlers[i] == pre[i];
    }

    method Reclaim(node: AioHandler)
      requires Valid() && node in handlers && node.deleted
      modifies `handlers
      ensures Valid() && handlers == Minus(old(handlers), node)
    {
      MinusDistinct(handlers, node);
      handlers := Minus(handlers, node);
    }

    /** A walk of `aio_poll`. Whatever the callbacks do, it takes exactly the handlers of the list it started on, in
        order, and does on each what the pass demands of the states `reached` and `between` that its trace records.
        These, and the states in which it has `left` the handlers, lie between those at its start and those at its end.
        Nested walks unlink nothing; the outermost one unlinks the handlers that were deleted before it began, and never
        a live one. */
    method Walk(pass: Pass, callbacks: Scripts)
      returns (progress: bool, ghost added: seq<AioHandler>, ghost seg: Trace,
               ghost reached: seq<Snap>, ghost between: seq<Snap>, ghost left: seq<Snap>)
      requires Valid()
      modifies this, Repr
      ensures Valid() && walking == old(walking) && old(Repr) <= Repr && fresh(Repr - old(Repr))
      ensures walking > 0 ==> handlers == added + old(handlers) && forall h :: h in added ==> h !in old(Repr)
      ensures trace == old(trace) + seg && Deeper(seg, walking)
      ensures Recorded(pass, old(handlers), reached, between, left, AtDepth(seg, walking + 1))
      ensures |reached| == |left| == old(|handlers|) && forall i :: 0 <= i < |left| ==>
                Passed(old(SnapOf(handlers[i])), reached[i], left[i], SnapOf(old(handlers)[i]))
      ensures forall h :: h in old(Repr) ==> Follows(old(SnapOf(h)), SnapOf(h), seg, h)
      ensures forall h :: h in old(handlers) && !SnapOf(h).deleted ==> h in handlers
      ensures walking == 0 ==> forall h :: h in old(handlers) && old(SnapOf(h)).deleted ==> h !in handlers
      ensures pass.Queued? ==> forall h :: h in old(handlers) ==> Served(old(SnapOf(h)), SnapOf(h))
      ensures progress ==> exists h :: h in old(Repr) && Called(old(SnapOf(h)), SnapOf(h))
      ensures !progress ==> forall h :: h in old(Repr) ==> Uncalled(old(SnapOf(h)), SnapOf(h))
      decreases callbacks, 6
    {
      hide Valid, SnapOf, Follows, Served, Called, Uncalled, Deeper, AtDepth, Recorded, UnderWay, Passed;
      progress := false;
      ghost var w := Course(handlers, Repr, [], handlers, {}, {}, []);
      ghost var r, start := Record([], [], [], [], []), SnapsOf(Repr);
      Begins(pass, start);
      var cbs := callbacks;
      var node: AioHandler? := if handlers == [] then null else handlers[0];
      while node != null
        invariant UnderWay(pass, w, r, start, progress)
        invariant walking == old(walking) && old(Repr) <= Repr && fresh(Repr - old(Repr)) && trace == old(trace) + r.seg
        invariant w.orig == old(handlers) && w.repr == old(Repr)
        invariant node == if w.tail == [] then null else w.tail[0]
        invariant cbs == callbacks || cbs < callbacks
        decreases |w.tail|
      {
        progress, node, cbs, w, r := Turn(pass, node, cbs, progress, start, w, r, old(trace));
      }
      added, seg, reached, between, left := w.added, r.seg, r.reached, r.between, r.left;
      Ends(pass, w, r, start, progress);
    }

    /** A walk between two of its iterations: on course, recorded, and right about every handler there was at its
        start. */
    ghost predicate UnderWay(pass: Pass, w: Course, r: Record, start: map<AioHandler, Snap>, progress: bool)
      reads this, w.repr, Repr
    {
      && Valid() && w.repr <= Repr && handlers == w.front + w.tail
      && On(pass, w, r, start, progress, SnapsOf(w.repr), walking)
    }

    lemma Begins(pass: Pass, start: map<AioHandler, Snap>)
      requires Valid() && start == SnapsOf(Repr)
      ensures UnderWay(pass, Course(handlers, Repr, [], handlers, {}, {}, []), Record([], [], [], [], []), start, false)
    {
      hide Valid, SnapOf, Distinct, Follows, Served, Called, Uncalled, OnCourse, Recorded, Fine;
      ValidAll();
      StartsCourse(handlers, Repr, walking > 0);
      StartsRecord(pass, walking);
      StartsFine(Course(handlers, Repr, [], handlers, {}, {}, []), pass, walking == 0);
    }

    lemma Ends(pass: Pass, w: Course, r: Record, start: map<AioHandler, Snap>, progress: bool)
      requires UnderWay(pass, w, r, start, progress) && w.tail == []
      ensures Valid() && Deeper(r.seg, walking)
      ensures Recorded(pass, w.orig, r.reached, r.between, r.left, AtDepth(r.seg, walking + 1))
      ensures forall h :: h in w.repr ==> h in start && Follows(start[h], SnapOf(h), r.seg, h)
      ensures !progress ==> forall h :: h in w.repr ==> Uncalled(start[h], SnapOf(h))
      ensures progress ==> exists h :: h in w.repr && Called(start[h], SnapOf(h))
      ensures pass.Queued? ==> forall h :: h in w.orig ==> h in start && Served(start[h], SnapOf(h))
      ensures forall h :: h in w.orig && !SnapOf(h).deleted ==> h in handlers
      ensures walking == 0 ==> forall h :: h in w.orig ==> h in start && (start[h].deleted ==> h !in handlers)
      ensures walking > 0 ==> handlers == w.added + w.orig && forall h :: h in w.added ==> h !in w.repr
      ensures |w.orig| == |r.reached| == |r.left|
      ensures forall i :: 0 <= i < |w.orig| ==>
                w.orig[i] in start && Passed(start[w.orig[i]], r.reached[i], r.left[i], SnapOf(w.orig[i]))
    {
      hide Passed, Valid, SnapOf, Follows, Served, Called, Uncalled, Deeper, AtDepth, Recorded, OnCourse, Fine;
      assert r.past + [] == r.past && w.front + [] == w.front;
      CourseRun(w, pass, walking == 0, progress, start, SnapsOf(w.repr), r.seg);
      assert forall i :: 0 <= i < |w.orig| ==> w.orig[i] == r.past[i];
    }

    /** One iteration of a walk, with its records. */
    method Turn(pass: Pass, node: AioHandler, callbacks: Scripts, had: bool, ghost start: map<AioHandler, Snap>,
                ghost w: Course, ghost r: Record, ghost before: Trace)
      returns (progress: bool, next: AioHandler?, rest: Scripts, ghost w': Course, ghost r': Record)
      requires UnderWay(pass, w, r, start, had) && w.tail != [] && w.tail[0] == node && trace == before + r.seg
      modifies this, Repr
      ensures UnderWay(pass, w', r', start, progress)
      ensures walking == old(walking) && old(Repr) <= Repr && fresh(Repr - old(Repr)) && trace == before + r'.seg
      ensures w'.orig == w.orig && w'.repr == w.repr && |w'.tail| < |w.tail|
      ensures next == if w'.tail == [] then null else w'.tail[0]
      ensures rest == callbacks || rest < callbacks
      decreases callbacks, 5
    {
      hide Valid, Distinct, Follows, Served, Called, Uncalled, Deeper, AtDepth, TurnOf, Through, SnapOf, Onward, On;
      HeadOn(pass, w, r, start, had, SnapsOf(w.repr), walking);
      ghost var was := SnapsOf(w.repr);
      ghost var more, b, did;
      var busy;
      busy, next, rest, more, did, b := Step(pass, node, callbacks, w.front, w.tail);
      progress := had || busy;
      ValidAll();
      SnapSane(node);
      ghost var removed := walking == 0 && node.deleted;
      OnNext(pass, w, r, start, had, was, SnapsOf(w.repr), walking, busy, more, removed, b, did);
      w', r' := Onward(w, more, removed), Extended(r, node, was[node], b, SnapOf(node), did);
      OnwardIs(w, more, removed);
      Append(before, r.seg, did);
    }
  }

  /** A descriptor with both callbacks, on which events of both kinds have arrived. */
  method BothArrived(fd: int) returns (ctx: AioContext, node: AioHandler)
    ensures fresh(ctx) && fresh(ctx.Repr) && ctx.Valid() && ctx.walking == 0 && ctx.trace == []
    ensures node in ctx.handlers && node.fd == fd
    ensures SnapOf(node).readQueued && SnapOf(node).outQueued && SnapOf(node).canWrite
  {
    ctx := new AioContext();
    ghost var added := ctx.SetFdHandler(fd, true, true, false);
    var found := ctx.FindHandler(fd);
    node := found;
    ctx.Arrive(fd, {In, Out});
    assert In in node.revents * node.events * {In, Hup, Err} && Out in node.revents * node.events * {Out, Err};
  }

  /** An input on which the first pass calls a deleted handler: events of both kinds on one descriptor, whose read
      callback removes the handler. */
  method FailingInput(fd: int) returns (ctx: AioContext, node: AioHandler, ghost own: seq<Act>)
    ensures ctx.Valid() && ctx.walking == 0
    ensures own == AtDepth(ctx.trace, 1) && Call(node, false, true) in own
  {
    hide SnapOf, AtDepth, TurnOf, Deeper, Follows, Served, Called, Uncalled;
    ctx, node := BothArrived(fd);
    ghost var p :| 0 <= p < |ctx.handlers| && ctx.handlers[p] == node;
    var callbacks := Cons(Do(SetHandler(fd, false, false, false), End), Nil);
    var progress, next, rest;
    ghost var added, seg, b;
    ghost var a := SnapOf(node);
    progress, next, rest, added, seg, b := ctx.Step(Queued, node, callbacks, ctx.handlers[..p], ctx.handlers[p..]);
    own := AtDepth(seg, 1);
    DeletedHandlerCalled(node, a, b, SnapOf(node));
    assert ctx.trace == seg;
  }

  /** The handlers of a set, each in the state it is in. */
  ghost function SnapsOf(repr: set<AioHandler>): (now: map<AioHandler, Snap>)
    reads repr
    ensures now.Keys == repr && forall h :: h in repr ==> now[h] == SnapOf(h)
  {
    map h | h in repr :: SnapOf(h)
  }

  /** A walk at depth `d`: it began with the handlers in the states `start`, and they are in the states `now`. */
  ghost predicate On(pass: Pass, w: Course, r: Record, start: map<AioHandler, Snap>, progress: bool,
                     now: map<AioHandler, Snap>, d: nat)
  {
    && OnCourse(w, d > 0) && w.repr == start.Keys == now.Keys && w.gone <= w.repr && r.past + w.tail == w.orig
    && Deeper(r.seg, d) && Recorded(pass, r.past, r.reached, r.between, r.left, AtDepth(r.seg, d + 1))
    && Tied(r, start, now)
    && (forall h :: h in w.repr ==> Fine(w, pass, d == 0, progress, h, start[h], now[h], r.seg))
    && (progress ==> exists h :: h in w.repr && Called(start[h], now[h]))
  }

  lemma HeadOn(pass: Pass, w: Course, r: Record, start: map<AioHandler, Snap>, progress: bool,
               now: map<AioHandler, Snap>, d: nat)
    requires On(pass, w, r, start, progress, now, d) && w.tail != []
    ensures w.tail[0] in w.repr
  {
    HeadKnown(w, d > 0);
  }

  /** One turn on `w.tail[0]`, which comes by the handlers `more` in front and may unlink the node itself. */
  lemma OnNext(pass: Pass, w: Course, r: Record, start: map<AioHandler, Snap>, had: bool, was: map<AioHandler, Snap>,
               now: map<AioHandler, Snap>, d: nat, busy: bool, more: seq<AioHandler>, removed: bool, b: Snap,
               did: Trace)
    requires On(pass, w, r, start, had, was, d) && w.tail != [] && now.Keys == w.repr && w.tail[0] in w.repr
    requires forall h :: h in w.repr ==> Follows(was[h], now[h], did, h) && (busy || Uncalled(was[h], now[h]))
    requires var h := w.tail[0];
      && (busy ==> Called(was[h], now[h])) && (pass.Queued? ==> Served(was[h], now[h]))
      && Through(pass, h, was[h], b, now[h])
      && Deeper(did, d) && AtDepth(did, d + 1) == TurnOf(pass, h, was[h], b) && removed == (d == 0 && now[h].deleted)
    requires forall h :: h in more ==> h !in w.repr
    requires Distinct(more + w.front + (if removed then [] else [w.tail[0]]) + w.tail[1..])
    ensures var h := w.tail[0];
      On(pass, Onward(w, more, removed), Extended(r, h, was[h], b, now[h], did), start, had || busy, now, d)
  {
    hide OnCourse, Kept, Served, Called, Uncalled, Deeper, AtDepth, Recorded, TurnOf, Through, Fine, Distinct, Follows,
      Passed;
    var node := w.tail[0];
    var w', r' := Onward(w, more, removed), Extended(r, node, was[node], b, now[node], did);
    StaysOnCourse(w, d > 0, more, removed);
    ExtendsRecord(pass, r, node, was[node], b, now[node], did, d, w.tail);
    TiedNext(pass, w, r, start, had, was, now, d, b, did);
    var caller: AioHandler :| caller in w.repr && (had ==> Called(start[caller], was[caller]));
    caller := if had then caller else node;
    forall h | h in w.repr
      ensures Fine(w', pass, d == 0, had || busy, h, start[h], now[h], r'.seg)
      ensures h == caller && (had || busy) ==> Called(start[h], now[h])
    {
      FineNext(w, w', pass, d == 0, had, busy, node, h, start[h], was[h], now[h], r.seg, did);
    }
  }

  /** The states in the records lie between those at the start of the walk and those now. */
  ghost predicate Tied(r: Record, start: map<AioHandler, Snap>, now: map<AioHandler, Snap>) {
    && |r.past| == |r.reached| == |r.left|
    && forall i :: 0 <= i < |r.past| ==>
         var h := r.past[i];
         h in start && h in now && Passed(start[h], r.reached[i], r.left[i], now[h])
  }

  lemma TiedNext(pass: Pass, w: Course, r: Record, start: map<AioHandler, Snap>, had: bool, was: map<AioHandler, Snap>,
                 now: map<AioHandler, Snap>, d: nat, b: Snap, did: Trace)
    requires On(pass, w, r, start, had, was, d) && w.tail != [] && now.Keys == w.repr && w.tail[0] in w.repr
    requires forall h :: h in w.repr ==> Follows(was[h], now[h], did, h)
    ensures var h := w.tail[0]; Tied(Extended(r, h, was[h], b, now[h], did), start, now)
  {
    hide OnCourse, Deeper, AtDepth, Recorded, Fine, Follows, Passed;
    var h := w.tail[0];
    var r' := Extended(r, h, was[h], b, now[h], did);
    PassedNow(w, pass, d == 0, had, h, start[h], was[h], now[h], r.seg);
    forall i | 0 <= i < |r'.past|
      ensures r'.past[i] in start && r'.past[i] in now
      ensures Passed(start[r'.past[i]], r'.reached[i], r'.left[i], now[r'.past[i]])
    {
      if i < |r.past| {
        assert r'.past[i] == r.past[i] && r'.reached[i] == r.reached[i] && r'.left[i] == r.left[i];
        PassedOn(start[r.past[i]], r.reached[i], r.left[i], was[r.past[i]], now[r.past[i]], did, r.past[i]);
      }
    }
  }

  lemma PassedOn(a: Snap, b: Snap, c: Snap, d: Snap, e: Snap, t: Trace, h: AioHandler)
    requires Passed(a, b, c, d) && Follows(d, e, t, h)
    ensures Passed(a, b, c, e)
  {
    KeptTrans(c, d, e);
  }

  lemma PassedNow(w: Course, pass: Pass, outermost: bool, progress: bool, h: AioHandler, a: Snap, b: Snap, c: Snap,
                  t: Trace)
    requires Fine(w, pass, outermost, progress, h, a, b, t)
    ensures Passed(a, b, c, c)
  {
  }

  lemma OnwardIs(w: Course, more: seq<AioHandler>, removed: bool)
    requires w.tail != []
    ensures var w' := Onward(w, more, removed);
      && w'.orig == w.orig && w'.repr == w.repr && w'.tail == w.tail[1..]
      && w'.front == more + w.front + if removed then [] else [w.tail[0]]
  {
  }

  ghost function Extended(r: Record, h: AioHandler, a: Snap, b: Snap, c: Snap, did: Trace): Record {
    Record(r.past + [h], r.reached + [a], r.between + [b], r.left + [c], r.seg + did)
  }

  lemma ExtendsRecord(pass: Pass, r: Record, h: AioHandler, a: Snap, b: Snap, c: Snap, did: Trace, d: nat,
                      tail: seq<AioHandler>)
    requires Deeper(r.seg, d) && Recorded(pass, r.past, r.reached, r.between, r.left, AtDepth(r.seg, d + 1))
    requires Deeper(did, d) && AtDepth(did, d + 1) == TurnOf(pass, h, a, b) && Through(pass, h, a, b, c)
    requires tail != [] && tail[0] == h
    ensures var r' := Extended(r, h, a, b, c, did);
      && r'.seg == r.seg + did
      && Deeper(r'.seg, d) && Recorded(pass, r'.past, r'.reached, r'.between, r'.left, AtDepth(r'.seg, d + 1))
      && r'.past + tail[1..] == r.past + tail
  {
    hide Recorded, AtDepth, TurnOf, Through, Deeper;
    DeeperConcat(r.seg, did, d);
    AtDepthConcat(r.seg, did, d + 1);
    RecordNext(pass, r.past, r.reached, r.between, r.left, AtDepth(r.seg, d + 1), h, a, b, c);
  }

  lemma StartsRecord(pass: Pass, d: nat)
    ensures Recorded(pass, [], [], [], [], AtDepth<Act>([], d + 1)) && Deeper<Act>([], d)
  {
  }

  /** What a walk on course `w` has done to handler `h`, in state `a` when it began and `b` now. */
  ghost predicate Fine(w: Course, pass: Pass, outermost: bool, progress: bool, h: AioHandler, a: Snap, b: Snap,
                       t: Trace)
  {
    && Follows(a, b, t, h) && (!progress ==> Uncalled(a, b))
    && (pass.Queued? && h in w.done ==> Served(a, b))
    && (h in w.gone ==> b.deleted)
    && (outermost && h in w.done && a.deleted ==> h in w.gone)
  }

  lemma StartsFine(w: Course, pass: Pass, outermost: bool)
    requires w.done == {} && w.gone == {}
    ensures forall h :: h in w.repr ==> Fine(w, pass, outermost, false, h, SnapOf(h), SnapOf(h), [])
  {
  }

  lemma FineNext(w: Course, w': Course, pass: Pass, outermost: bool, had: bool, busy: bool, node: AioHandler,
                 h: AioHandler, a: Snap, b: Snap, c: Snap, s: Trace, t: Trace)
    requires Fine(w, pass, outermost, had, h, a, b, s) && Follows(b, c, t, h)
    requires w'.done == w.done + {node}
    requires h != node ==> (h in w'.gone <==> h in w.gone)
    requires h == node ==> (h in w'.gone <==> h in w.gone || (outermost && c.deleted))
    requires h == node && pass.Queued? ==> Served(b, c)
    requires if busy then h == node ==> Called(b, c) else Uncalled(b, c)
    ensures Fine(w', pass, outermost, had || busy, h, a, c, s + t)
    ensures Called(a, b) || Called(b, c) ==> Called(a, c)
    ensures Kept(b, c)
  {
    KeptTrans(a, b, c);
    FollowsOn(a, b, c, s, t, h);
  }

  lemma HeadKnown(w: Course, nested: bool)
    requires OnCourse(w, nested) && w.tail != []
    ensures w.tail[0] in w.repr
  {
    assert w.tail[0] in w.tail;
  }

  /** What holds of the handlers once a walk is through. */
  lemma CourseRun(w: Course, pass: Pass, outermost: bool, progress: bool, start: map<AioHandler, Snap>,
                  now: map<AioHandler, Snap>, t: Trace)
    requires OnCourse(w, !outermost) && w.tail == [] && w.repr == start.Keys == now.Keys
    requires forall h :: h in w.repr ==> Fine(w, pass, outermost, progress, h, start[h], now[h], t)
    ensures forall h :: h in w.repr ==> Follows(start[h], now[h], t, h)
    ensures !progress ==> forall h :: h in w.repr ==> Uncalled(start[h], now[h])
    ensures pass.Queued? ==> forall h :: h in w.orig ==> h in w.repr && Served(start[h], now[h])
    ensures forall h :: h in w.orig ==> h in w.repr && (!now[h].deleted ==> h in w.front)
    ensures outermost ==> forall h :: h in w.orig ==> h in w.repr && (start[h].deleted ==> h !in w.front)
    ensures !outermost ==> w.front == w.added + w.orig
    ensures forall h :: h in w.added ==> h !in w.repr
  {
    hide Follows, Served, Uncalled, Distinct;
    assert w.front + w.tail == w.front;
  }
}
