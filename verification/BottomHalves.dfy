/** async.c: bottom halves. The list is walked while callbacks edit it and poll again; nodes are unlinked and freed only
    when no walk is left. */
module BottomHalves {
  import opened WalkTrace

  /** What a callback does, one call after the other; a bottom half is named by its position in the list. A nested poll
      comes with the behaviour of the callbacks it will invoke, in order. */
  datatype Op =
    | New
    | Schedule(i: nat)
    | ScheduleIdle(i: nat)
    | Cancel(i: nat)
    | Delete(i: nat)
    | Poll(callbacks: Scripts)
  datatype Script = End | Do(op: Op, rest: Script)
  datatype Scripts = Nil | Cons(head: Script, tail: Scripts)

  /** `QEMUBH`. `runs` counts its invocations. */
  class QEMUBH {
    var next: QEMUBH?
    var scheduled: bool
    var idle: bool
    var deleted: bool
    ghost var runs: nat

    constructor (first: QEMUBH?)
      ensures next == first && !scheduled && !idle && !deleted && runs == 0
    {
      next, scheduled, idle, deleted := first, false, false, false;
      runs := 0;
    }
  }

  datatype Flags = Flags(scheduled: bool, idle: bool, deleted: bool)

  function FlagsOf(b: QEMUBH): Flags
    reads b
  {
    Flags(b.scheduled, b.idle, b.deleted)
  }

  predicate Pending(f: Flags) {
    f.scheduled && !f.deleted
  }

  /** A bottom half at one moment: its flags, and how often it has been invoked. */
  datatype Snap = Snap(flags: Flags, runs: nat)

  ghost function SnapOf(b: QEMUBH): Snap
    reads b
  {
    Snap(FlagsOf(b), b.runs)
  }

  lemma SnapFields(b: QEMUBH)
    ensures SnapOf(b) == Snap(Flags(b.scheduled, b.idle, b.deleted), b.runs)
  {
  }

  /** In `t` somebody cancelled or deleted the bottom half. */
  ghost predicate Stopped(t: Trace, bh: QEMUBH) {
    exists e :: e in t && e.what.Asked? && e.what.bh == bh && (e.what.op.Cancel? || e.what.op.Delete?)
  }

  /** In `t` somebody scheduled it. */
  ghost predicate Roused(t: Trace, bh: QEMUBH) {
    exists e :: e in t && e.what.Asked? && e.what.bh == bh && (e.what.op.Schedule? || e.what.op.ScheduleIdle?)
  }

  /** In `t` the bottom half has run, or was cancelled or deleted. */
  ghost predicate Served(t: Trace, bh: QEMUBH) {
    Invocations(t, bh) > 0 || Stopped(t, bh)
  }

  /** From `a` to `b` with what `t` has: what is scheduled stays so until it runs or is cancelled, what is not scheduled
      does not run until it is, and what is deleted stays so and does not run. */
  ghost predicate Follows(a: Snap, b: Snap, t: Trace, bh: QEMUBH) {
    && b.runs == a.runs + Invocations(t, bh)
    && (a.flags.deleted ==> b.flags.deleted && Invocations(t, bh) == 0)
    && (Pending(a.flags) ==> Served(t, bh) || Pending(b.flags))
    && (!Pending(a.flags) && !Roused(t, bh) ==> !Pending(b.flags) && Invocations(t, bh) == 0)
  }

  lemma FollowsRuns(a: Snap, b: Snap, t: Trace, bh: QEMUBH)
    requires Follows(a, b, t, bh)
    ensures Served(t, bh) ==> b.runs > a.runs || Stopped(t, bh)
    ensures (!a.flags.scheduled || a.flags.deleted) && !Roused(t, bh) ==> b.runs == a.runs
  {
  }

  lemma AskedConcat(s: Trace, t: Trace, bh: QEMUBH)
    ensures Stopped(s + t, bh) <==> Stopped(s, bh) || Stopped(t, bh)
    ensures Roused(s + t, bh) <==> Roused(s, bh) || Roused(t, bh)
  {
    assert forall e :: e in s + t <==> e in s || e in t;
  }

  lemma FollowsOn(a: Snap, b: Snap, c: Snap, s: Trace, t: Trace, bh: QEMUBH)
    requires Follows(a, b, s, bh) && Follows(b, c, t, bh)
    ensures Follows(a, c, s + t, bh)
    ensures Served(s, bh) || Served(t, bh) ==> Served(s + t, bh)
    ensures (Pending(b.flags) ==> Served(t, bh)) ==> Pending(a.flags) ==> Served(s + t, bh)
  {
    hide Stopped, Roused, Invocations;
    InvocationsConcat(s, t, bh);
    AskedConcat(s, t, bh);
  }

  /** One entry and what follows it, the entry having taken the bottom half from `a` to `b`. */
  lemma FollowsEntry(a: Snap, b: Snap, c: Snap, e: Entry<Event>, t: Trace, bh: QEMUBH)
    requires Follows(a, b, [e], bh) && Follows(b, c, t, bh)
    ensures Follows(a, c, [e] + t, bh) && (Pending(a.flags) && e.what == Invoke(bh) ==> Served([e] + t, bh))
  {
    hide Stopped, Roused;
    FollowsOn(a, b, c, [e], t, bh);
    InvocationsSingle(e, bh);
  }

  lemma AskedOnce(e: Entry<Event>, bh: QEMUBH)
    requires e.what.Asked? && e.what.bh == bh
    ensures Invocations([e], bh) == 0
    ensures Stopped([e], bh) <==> e.what.op.Cancel? || e.what.op.Delete?
    ensures Roused([e], bh) <==> e.what.op.Schedule? || e.what.op.ScheduleIdle?
  {
    InvocationsSingle(e, bh);
    assert e in [e];
  }

  /** What is not about a bottom half leaves it as it is. */
  lemma FollowsOther(a: Snap, e: Entry<Event>, bh: QEMUBH)
    requires e.what.bh != bh || e.what.Visit?
    ensures Follows(a, a, [e], bh)
  {
    InvocationsSingle(e, bh);
  }

  lemma FollowsNothing(Repr: set<QEMUBH>)
    ensures forall b :: b in Repr ==> Follows(SnapOf(b), SnapOf(b), [], b)
  {
  }

  /** A bottom half in state `a`, or in that state with its flags still as they were. */
  ghost function Before(a: Snap, it: bool, f: Flags): Snap {
    if it then a.(flags := f) else a
  }

  lemma FollowsInvoke(b: Snap, f: Flags, e: Entry<Event>, bh: QEMUBH)
    requires e.what == Invoke(bh) && Pending(f) && b.flags == Flags(false, false, false) && b.runs > 0
    ensures Follows(Snap(f, b.runs - 1), b, [e], bh)
  {
    InvocationsSingle(e, bh);
  }

  /** A walk reaches a node and sees its flags; it invokes its callback; somebody asks for a change of its flags. */
  datatype Event = Visit(bh: QEMUBH, found: Flags) | Invoke(bh: QEMUBH) | Asked(bh: QEMUBH, op: Op)

  type Trace = seq<Entry<Event>>

  /** What a walk over `l` does that finds the flags `found`: it visits each node in order, and invokes it, once,
      exactly if it is scheduled and not deleted at that moment. */
  ghost function Visits(l: seq<QEMUBH>, found: seq<Flags>): seq<Event>
    requires |l| == |found|
  {
    if l == [] then []
    else Visits(l[..|l| - 1], found[..|l| - 1]) + VisitOf(l[|l| - 1], found[|l| - 1])
  }

  ghost function VisitOf(bh: QEMUBH, f: Flags): seq<Event>
  {
    [Visit(bh, f)] + if Pending(f) then [Invoke(bh)] else []
  }

  lemma VisitIs(bh: QEMUBH, f: Flags)
    ensures VisitOf(bh, f)
         == [Visit(bh, Flags(f.scheduled, f.idle, f.deleted))] + if f.scheduled && !f.deleted then [Invoke(bh)] else []
  {
  }

  lemma VisitsNext(l: seq<QEMUBH>, found: seq<Flags>, bh: QEMUBH, f: Flags)
    requires |l| == |found|
    ensures Visits(l + [bh], found + [f]) == Visits(l, found) + VisitOf(bh, f)
  {
    assert (l + [bh])[..|l|] == l && (found + [f])[..|l|] == found;
  }

  /** The nodes a walk visits, in order. */
  ghost function Visited(t: seq<Event>): seq<QEMUBH>
  {
    if t == [] then [] else Visited(t[..|t| - 1]) + if t[|t| - 1].Visit? then [t[|t| - 1].bh] else []
  }

  /** How often a walk itself invokes `b`. */
  ghost function Invoked(t: seq<Event>, b: QEMUBH): nat
  {
    if t == [] then 0 else Invoked(t[..|t| - 1], b) + if t[|t| - 1] == Invoke(b) then 1 else 0
  }

  lemma VisitAdds(t: seq<Event>, bh: QEMUBH, f: Flags, b: QEMUBH)
    ensures Visited(t + VisitOf(bh, f)) == Visited(t) + [bh]
    ensures Invoked(t + VisitOf(bh, f), b) == Invoked(t, b) + if b == bh && Pending(f) then 1 else 0
  {
    var u := t + [Visit(bh, f)];
    assert u[..|t|] == t && u[|t|] == Visit(bh, f);
    if Pending(f) {
      var v := u + [Invoke(bh)];
      assert v[..|u|] == u && v[|u|] == Invoke(bh) && t + VisitOf(bh, f) == v;
    } else {
      assert t + VisitOf(bh, f) == u;
    }
  }

  /** Such a walk visits the list in order. */
  lemma {:induction false} InOrder(l: seq<QEMUBH>, found: seq<Flags>)
    requires |l| == |found|
    ensures Visited(Visits(l, found)) == l
  {
    if l != [] {
      var n := |l| - 1;
      InOrder(l[..n], found[..n]);
      VisitAdds(Visits(l[..n], found[..n]), l[n], found[n], l[n]);
    }
  }

  lemma {:induction false} NotInvoked(l: seq<QEMUBH>, found: seq<Flags>, b: QEMUBH)
    requires |l| == |found| && b !in l
    ensures Invoked(Visits(l, found), b) == 0
  {
    if l != [] {
      var n := |l| - 1;
      NotInvoked(l[..n], found[..n], b);
      VisitAdds(Visits(l[..n], found[..n]), l[n], found[n], b);
    }
  }

  /** Over distinct nodes, it invokes each once if it was found scheduled and not deleted, and never otherwise. */
  lemma {:induction false} OncePerWalk(l: seq<QEMUBH>, found: seq<Flags>, i: nat)
    requires i < |l| == |found| && forall j, k :: 0 <= j < k < |l| ==> l[j] != l[k]
    ensures Invoked(Visits(l, found), l[i]) == if found[i].scheduled && !found[i].deleted then 1 else 0
  {
    hide Visited, Invoked, VisitOf;
    var n := |l| - 1;
    VisitAdds(Visits(l[..n], found[..n]), l[n], found[n], l[i]);
    if i == n {
      NotInvoked(l[..n], found[..n], l[n]);
    } else {
      OncePerWalk(l[..n], found[..n], i);
    }
  }

  /** How often `b` is invoked in `t`, at any depth. */
  ghost function Invocations(t: Trace, b: QEMUBH): nat
  {
    if t == [] then 0 else Invocations(t[..|t| - 1], b) + if t[|t| - 1].what == Invoke(b) then 1 else 0
  }

  lemma {:induction false} InvocationsConcat(s: Trace, t: Trace, b: QEMUBH)
    ensures Invocations(s + t, b) == Invocations(s, b) + Invocations(t, b)
  {
    if t == [] {
      assert s + t == s;
    } else {
      InvocationsConcat(s, t[..|t| - 1], b);
      assert (s + t)[..|s + t| - 1] == s + t[..|t| - 1];
    }
  }

  lemma InvocationsSingle(e: Entry<Event>, b: QEMUBH)
    ensures Invocations([e], b) == if e.what == Invoke(b) then 1 else 0
  {
    assert [e][..0] == [];
  }

  /** Leaving out nodes keeps the order of the others. */
  lemma {:induction false} WithoutConcat(l: seq<QEMUBH>, m: seq<QEMUBH>, dead: set<QEMUBH>)
    ensures Without(l + m, dead) == Without(l, dead) + Without(m, dead)
    ensures forall b :: Without([b], dead) == if b in dead then [] else [b]
  {
    if l == [] {
      assert l + m == m;
    } else {
      assert (l + m)[0] == l[0] && (l + m)[1..] == l[1..] + m;
      WithoutConcat(l[1..], m, dead);
    }
  }

  /** The list without the nodes of `dead`. */
  ghost function Without(l: seq<QEMUBH>, dead: set<QEMUBH>): (r: seq<QEMUBH>)
    ensures forall b :: b in r ==> b in l && b !in dead
    ensures forall b :: b in l && b !in dead ==> b in r
  {
    if l == [] then []
    else if l[0] in dead then Without(l[1..], dead)
    else [l[0]] + Without(l[1..], dead)
  }

  ghost function Dead(l: seq<QEMUBH>): set<QEMUBH>
    reads l`deleted
  {
    set b | b in l && b.deleted
  }

  class AioContext {
    var firstBh: QEMUBH?
    var walkingBh: nat
    ghost var list: seq<QEMUBH>
    ghost var trace: Trace
    ghost var Repr: set<QEMUBH>

    /** `list` is what the `next` pointers thread from `firstBh`; `Repr` holds every node there ever was. */
    ghost predicate Valid()
      reads `firstBh, `list, `Repr, Repr`next
    {
      && (forall b :: b in list ==> b in Repr)
      && (forall i, j :: 0 <= i < j < |list| ==> list[i] != list[j])
      && firstBh == (if list == [] then null else list[0])
      && (list != [] ==> list[|list| - 1].next == null)
      && (forall i, j :: 0 <= i && j == i + 1 < |list| ==> list[i].next == list[j])
    }

    constructor ()
      ensures Valid() && list == [] && walkingBh == 0
    {
      firstBh, walkingBh, list, trace, Repr := null, 0, [], [], {};
    }

    /** `aio_bh_new`: the new bottom half goes to the front. */
    method BhNew() returns (bh: QEMUBH)
      requires Valid()
      modifies this
      ensures Valid() && fresh(bh) && list == [bh] + old(list) && walkingBh == old(walkingBh)
              && Repr == old(Repr) + {bh}
      ensures FlagsOf(bh) == Flags(false, false, false) && trace == old(trace)
    {
      ghost var l := list;
      bh := new QEMUBH(firstBh);
      firstBh := bh;
      list, Repr := [bh] + l, Repr + {bh};
      assert forall i :: 0 < i < |list| ==> list[i] == l[i - 1];
    }

    /** Taking the node at position `p` out through the link before it. */
    method Unlink(prev: QEMUBH?, ghost p: nat)
      requires Valid() && p < |list| && prev == if p == 0 then null else list[p - 1]
      modifies `firstBh, `list, (if prev == null then {} else {prev})`next
      ensures Valid() && list == old(list[..p] + list[p + 1..]) && walkingBh == old(walkingBh) && Repr == old(Repr)
    {
      ghost var l, victim := list, list[p];
      assert p + 1 < |l| ==> victim.next == l[p + 1];
      if prev == null {
        firstBh := firstBh.next;
      } else {
        prev.next := prev.next.next;
      }
      list := l[..p] + l[p + 1..];
      assert forall i :: 0 <= i < |list| ==> list[i] == if i < p then l[i] else l[i + 1];
    }

    /** One iteration of the sweep: the link `prev` stands on (`null` for `first_bh`) moves on, or skips a deleted
        node. */
    method SweepStep(prev: QEMUBH?, bh: QEMUBH, ghost kept: seq<QEMUBH>, ghost rest: seq<QEMUBH>)
      returns (last: QEMUBH?, next: QEMUBH?, ghost kept': seq<QEMUBH>)
      requires Valid() && list == kept + rest && rest != [] && rest[0] == bh
      requires prev == if kept == [] then null else kept[|kept| - 1]
      modifies `firstBh, `list, (if prev == null then {} else {prev})`next
      ensures Valid() && walkingBh == old(walkingBh) && Repr == old(Repr)
      ensures kept' == (if old(bh.deleted) then kept else kept + [bh]) && list == kept' + rest[1..]
      ensures last == if kept' == [] then null else kept'[|kept'| - 1]
      ensures next == if |rest| == 1 then null else rest[1]
    {
      ghost var p := |kept|;
      assert list[p] == bh && (|rest| > 1 ==> list[p + 1] == rest[1]);
      next := bh.next;
      if bh.deleted {
        Unlink(prev, p);
        last, kept' := prev, kept;
      } else {
        last, kept' := bh, kept + [bh];
      }
    }

    /** The sweep at the end of the outermost `aio_bh_poll`: exactly the deleted nodes go, the others keep their
        order. */
    method Sweep()
      requires Valid()
      modifies `firstBh, `list, Repr`next
      ensures Valid() && list == Without(old(list), old(Dead(list))) && walkingBh == old(walkingBh) && Repr == old(Repr)
      ensures forall b :: b in list <==> b in old(list) && !b.deleted
    {
      hide Without, Valid;
      ValidFirst();
      ghost var dead := Dead(list);
      ghost var kept: seq<QEMUBH>, rest: seq<QEMUBH> := [], list;
      var prev: QEMUBH?, bh: QEMUBH? := null, firstBh;
      while bh != null
        invariant Valid() && walkingBh == old(walkingBh) && Repr == old(Repr)
        invariant list == kept + rest && kept + Without(rest, dead) == Without(old(list), dead)
        invariant bh == if rest == [] then null else rest[0]
        invariant prev == if kept == [] then null else kept[|kept| - 1]
        decreases |rest|
      {
        WithoutHead(kept, rest, dead);
        ValidFirst();
        var node: QEMUBH := bh;
        assert node in list && (prev != null ==> prev in list);
        prev, bh, kept := SweepStep(prev, node, kept, rest);
        rest := rest[1..];
      }
      WithoutNone(dead);
    }

    lemma ValidFirst()
      requires Valid()
      ensures firstBh == if list == [] then null else list[0]
      ensures forall b :: b in list ==> b in Repr
    {
    }

    lemma ValidDistinct()
      requires Valid()
      ensures forall i, j :: 0 <= i < j < |list| ==> list[i] != list[j]
    {
    }

    lemma ValidNext(front: seq<QEMUBH>, l: seq<QEMUBH>, k: nat)
      requires Valid() && list == front + l && k < |l|
      ensures l[k] in Repr && l[k].next == if k + 1 < |l| then l[k + 1] else null
    {
      assert list[|front| + k] == l[k];
      assert k + 1 < |l| ==> list[|front| + k + 1] == l[k + 1];
    }

    method Nth(i: nat) returns (bh: QEMUBH?)
      requires Valid()
      ensures bh == if i < |list| then list[i] else null
    {
      bh := firstBh;
      var n := 0;
      while n < i && bh != null
        invariant n <= i && bh == if n < |list| then list[n] else null
      {
        assert n + 1 < |list| ==> list[n].next == list[n + 1];
        bh := bh.next;
        n := n + 1;
      }
    }

    /** `qemu_bh_schedule`, `qemu_bh_schedule_idle`, `qemu_bh_cancel` and `qemu_bh_delete`, asked for in the trace.
        Scheduling does nothing to what is scheduled already. */
    method Mark(op: Op) returns (ghost seg: Trace)
      requires Valid() && !op.New? && !op.Poll?
      modifies `trace, Repr`scheduled, Repr`idle, Repr`deleted
      ensures Valid() && trace == old(trace) + seg && Deeper(seg, walkingBh)
      ensures seg == if op.i < |list| then [Entry(walkingBh + 1, Asked(list[op.i], op))] else []
      ensures forall j :: 0 <= j < |list| && j != op.i ==> FlagsOf(list[j]) == old(FlagsOf(list[j]))
      ensures op.i < |list| ==>
                var b := list[op.i];
                && (op.Schedule? ==> b.scheduled && b.idle == old(b.scheduled && b.idle) && b.deleted == old(b.deleted))
                && (op.ScheduleIdle? ==>
                      b.scheduled && b.idle == old(!b.scheduled || b.idle) && b.deleted == old(b.deleted))
                && (op.Cancel? ==> !b.scheduled && b.idle == old(b.idle) && b.deleted == old(b.deleted))
                && (op.Delete? ==> !b.scheduled && b.idle == old(b.idle) && b.deleted)
      ensures forall b :: b in Repr ==> Follows(old(SnapOf(b)), SnapOf(b), seg, b)
    {
      ValidFirst();
      ValidDistinct();
      hide Valid, Follows, SnapOf;
      FollowsNothing(Repr);
      var bh := Nth(op.i);
      seg := [];
      if bh != null {
        seg := SetFlags(bh, op, walkingBh + 1);
        trace := trace + seg;
        forall b | b in Repr
          ensures Follows(old(SnapOf(b)), SnapOf(b), seg, b)
        {
          if b != bh {
            FollowsOther(SnapOf(b), seg[0], b);
          }
        }
      }
    }

    static method SetFlags(bh: QEMUBH, op: Op, ghost depth: nat) returns (ghost seg: Trace)
      requires !op.New? && !op.Poll?
      modifies bh`scheduled, bh`idle, bh`deleted
      ensures seg == [Entry(depth, Asked(bh, op))]
      ensures op.Schedule? ==> bh.scheduled && bh.idle == old(bh.scheduled && bh.idle) && bh.deleted == old(bh.deleted)
      ensures op.ScheduleIdle? ==>
                bh.scheduled && bh.idle == old(!bh.scheduled || bh.idle) && bh.deleted == old(bh.deleted)
      ensures op.Cancel? ==> !bh.scheduled && bh.idle == old(bh.idle) && bh.deleted == old(bh.deleted)
      ensures op.Delete? ==> !bh.scheduled && bh.idle == old(bh.idle) && bh.deleted
      ensures Follows(old(SnapOf(bh)), SnapOf(bh), seg, bh)
    {
      match op {
        case Schedule(_) =>
          if !bh.scheduled {
            bh.scheduled, bh.idle := true, false;
          }
        case ScheduleIdle(_) =>
          if !bh.scheduled {
            bh.scheduled, bh.idle := true, true;
          }
        case Cancel(_) =>
          bh.scheduled := false;
        case Delete(_) =>
          bh.scheduled, bh.deleted := false, true;
      }
      seg := [Entry(depth, Asked(bh, op))];
      AskedOnce(seg[0], bh);
    }

    /** The body of a callback: any sequence of calls, which may poll again. Inside a walk nothing is unlinked, and what
        is done is done at greater depth. */
    method RunCallback(s: Script) returns (ghost added: seq<QEMUBH>, ghost seg: Trace)
      requires Valid()
      modifies this, Repr
      ensures Valid() && walkingBh == old(walkingBh) && old(Repr) <= Repr && fresh(Repr - old(Repr))
      ensures walkingBh > 0 ==> list == added + old(list)
      ensures trace == old(trace) + seg && Deeper(seg, walkingBh)
      ensures forall b :: b in old(Repr) ==> Follows(old(SnapOf(b)), SnapOf(b), seg, b)
      decreases s
    {
      hide Valid, Follows, SnapOf, Deeper;
      added, seg := [], [];
      NoEvents(walkingBh);
      FollowsNothing(Repr);
      if s.Do? {
        ghost var first, did := Perform(s.op);
        label done:
        ghost var rest, more := RunCallback(s.rest);
        added, seg := rest + first, did + more;
        DeeperConcat(did, more, walkingBh);
        forall b | b in old(Repr)
          ensures Follows(old(SnapOf(b)), SnapOf(b), seg, b)
        {
          FollowsOn(old(SnapOf(b)), old@done(SnapOf(b)), SnapOf(b), did, more, b);
        }
      }
    }

    /** One call made by a callback. */
    method Perform(op: Op) returns (ghost added: seq<QEMUBH>, ghost seg: Trace)
      requires Valid()
      modifies this, Repr
      ensures Valid() && walkingBh == old(walkingBh) && old(Repr) <= Repr && fresh(Repr - old(Repr))
      ensures walkingBh > 0 ==> list == added + old(list)
      ensures trace == old(trace) + seg && Deeper(seg, walkingBh)
      ensures forall b :: b in old(Repr) ==> Follows(old(SnapOf(b)), SnapOf(b), seg, b)
      decreases op
    {
      hide Valid, Without, Deeper, Visits, Follows;
      added, seg := [], [];
      NoEvents(walkingBh);
      FollowsNothing(Repr);
      match op {
        case New =>
          var bh := BhNew();
          added := [bh];
        case Poll(callbacks) =>
          var ret;
          ghost var found;
          ret, added, found, seg := BhPoll(callbacks);
        case _ =>
          seg := Mark(op);
      }
    }

    /** One node of a walk: if it is scheduled and live it is unscheduled, then invoked, once. */
    method VisitNode(bh: QEMUBH, callbacks: Scripts)
      returns (progress: bool, ghost added: seq<QEMUBH>, ghost seg: Trace)
      requires Valid() && bh in Repr && walkingBh > 0
      modifies this, Repr
      ensures Valid() && walkingBh == old(walkingBh) && old(Repr) <= Repr && fresh(Repr - old(Repr))
      ensures list == added + old(list)
      ensures trace == old(trace) + seg && Deeper(seg, walkingBh - 1)
      ensures AtDepth(seg, walkingBh)
           == [Visit(bh, Flags(old(bh.scheduled), old(bh.idle), old(bh.deleted)))]
              + if old(bh.scheduled && !bh.deleted) then [Invoke(bh)] else []
      ensures forall b :: b in old(Repr) ==> Follows(old(SnapOf(b)), SnapOf(b), seg, b)
      ensures old(bh.scheduled && !bh.deleted) ==> Served(seg, bh)
      ensures progress <==> old(bh.scheduled && !bh.deleted && !bh.idle)
      decreases callbacks, 2
    {
      hide Valid, Invocations, Deeper, AtDepth, Follows, Served;
      ghost var f, d := FlagsOf(bh), walkingBh;
      ghost var e := Entry(d, Visit(bh, f));
      trace := trace + [e];
      progress, added := false, [];
      ghost var calls: Trace := [];
      NoEvents(d);
      FollowsNothing(Repr);
      if !bh.deleted && bh.scheduled {
        bh.scheduled := false;
        progress := !bh.idle;
        bh.idle := false;
        added, calls := Call(bh, callbacks, f);
      }
      seg := [e] + calls;
      VisitTraced(d, bh, f, calls);
      forall b | b in old(Repr)
        ensures Follows(old(SnapOf(b)), SnapOf(b), seg, b)
        ensures b == bh && Pending(f) ==> Served(seg, b)
      {
        FollowsOther(old(SnapOf(b)), e, b);
        FollowsOn(old(SnapOf(b)), old(SnapOf(b)), SnapOf(b), [e], calls, b);
      }
    }

    /** The call of `bh->cb`, on a bottom half whose flags were `f` before it was unscheduled for it. */
    method Call(bh: QEMUBH, callbacks: Scripts, ghost f: Flags) returns (ghost added: seq<QEMUBH>, ghost seg: Trace)
      requires Valid() && bh in Repr && walkingBh > 0
      requires Pending(f) && FlagsOf(bh) == Flags(false, false, false)
      modifies this, Repr
      ensures Valid() && walkingBh == old(walkingBh) && old(Repr) <= Repr && fresh(Repr - old(Repr))
      ensures list == added + old(list)
      ensures trace == old(trace) + seg && Deeper(seg, walkingBh - 1) && AtDepth(seg, walkingBh) == [Invoke(bh)]
      ensures forall b :: b in old(Repr) ==> Follows(Before(old(SnapOf(b)), b == bh, f), SnapOf(b), seg, b)
      ensures Served(seg, bh)
      decreases callbacks, 1
    {
      hide Valid, Invocations, Deeper, AtDepth, Follows, Served;
      ghost var e := Entry(walkingBh, Invoke(bh));
      trace := trace + [e];
      bh.runs := bh.runs + 1;
      ghost var mid := map b | b in Repr :: SnapOf(b);
      added := [];
      ghost var more: Trace := [];
      NoEvents(walkingBh);
      FollowsNothing(Repr);
      if callbacks.Cons? {
        added, more := RunCallback(callbacks.head);
      }
      seg := [e] + more;
      OwnThenDeeper(e, more);
      AtOrDeeper(e, more);
      forall b | b in old(Repr)
        ensures Follows(Before(old(SnapOf(b)), b == bh, f), SnapOf(b), seg, b)
        ensures b == bh ==> Served(seg, b)
      {
        if b == bh {
          FollowsInvoke(mid[b], f, e, b);
        } else {
          FollowsOther(mid[b], e, b);
        }
        FollowsEntry(Before(old(SnapOf(b)), b == bh, f), mid[b], SnapOf(b), e, more, b);
      }
    }

    /** The loop of `aio_bh_poll`: whatever the callbacks do, it visits exactly the nodes of the list it started on, in
        order, and invokes each exactly once if it is scheduled and live when reached, and not otherwise. `found` is how
        it found them, as the trace records. */
    method Walk(callbacks: Scripts)
      returns (ret: bool, ghost added: seq<QEMUBH>, ghost found: seq<Flags>, ghost seg: Trace)
      requires Valid() && walkingBh > 0
      modifies this, Repr
      ensures Valid() && walkingBh == old(walkingBh) && old(Repr) <= Repr && fresh(Repr - old(Repr))
      ensures list == added + old(list)
      ensures |found| == old(|list|) && trace == old(trace) + seg && Deeper(seg, walkingBh - 1)
      ensures AtDepth(seg, walkingBh) == Visits(old(list), found)
      ensures forall b :: b in old(Repr) ==> Follows(old(SnapOf(b)), SnapOf(b), seg, b)
      ensures forall b :: b in old(list) && Pending(old(SnapOf(b)).flags) ==> Served(seg, b)
      ensures ret <==> Progressed(found)
      decreases callbacks, 3
    {
      hide Valid, Progressed, Follows, SnapOf, Served, Deeper, AtDepth, Visits, VisitOf, Among;
      ghost var l0 := list;
      ValidFirst();
      ret, added, found, seg := false, [], [], [];
      NoVisits(walkingBh);
      FollowsNothing(Repr);
      AmongNone();
      ghost var done: seq<QEMUBH>, seen: set<QEMUBH> := [], {};
      var cbs := callbacks;
      var bh: QEMUBH? := firstBh;
      while bh != null
        invariant Valid() && walkingBh == old(walkingBh) && old(Repr) <= Repr && fresh(Repr - old(Repr))
        invariant list == added + l0
        invariant |found| == |done| <= |l0| && done <= l0
        invariant bh == if |done| < |l0| then l0[|done|] else null
        invariant cbs == callbacks || cbs < callbacks
        invariant trace == old(trace) + seg && Deeper(seg, walkingBh - 1)
                  && AtDepth(seg, walkingBh) == Visits(done, found)
        invariant forall b :: b in old(Repr) ==> Follows(old(SnapOf(b)), SnapOf(b), seg, b)
        invariant Among(done, seen) && seen <= old(Repr)
        invariant forall b :: b in seen && Pending(old(SnapOf(b)).flags) ==> Served(seg, b)
        invariant ret <==> Progressed(found)
        decreases |l0| - |done|
      {
        ValidNext(added, l0, |done|);
        label before:
        var node: QEMUBH, next: QEMUBH? := bh, bh.next;
        ghost var f, was := FlagsOf(node), seg;
        SnapFields(node);
        var progress;
        ghost var fresher, did;
        progress, fresher, did := VisitNode(node, cbs);
        cbs := if cbs.Nil? then cbs else cbs.tail;
        ret := ret || progress;
        VisitIs(node, f);
        NextVisit(walkingBh, done, found, node, f, seg, did);
        AmongNext(l0, done, seen, node);
        Regroup(fresher, added, l0);
        added, seg, done, found := fresher + added, seg + did, done + [node], found + [f];
        seen := seen + {node};
        forall b | b in old(Repr)
          ensures Follows(old(SnapOf(b)), SnapOf(b), seg, b)
          ensures b in seen && Pending(old(SnapOf(b)).flags) ==> Served(seg, b)
        {
          FollowsOn(old(SnapOf(b)), old@before(SnapOf(b)), SnapOf(b), was, did, b);
        }
        bh := next;
      }
      AllVisited(l0, done, seen);
    }

    /** `aio_bh_poll`: its walk is as above; everything scheduled and not deleted at the start has run or been cancelled
        at the end, and nothing else has run that nobody scheduled meanwhile; nodes are unlinked only by the outermost
        poll, after which no deleted one is left. */
    method BhPoll(callbacks: Scripts)
      returns (ret: bool, ghost added: seq<QEMUBH>, ghost found: seq<Flags>, ghost seg: Trace)
      requires Valid()
      modifies this, Repr
      ensures Valid() && walkingBh == old(walkingBh) && old(Repr) <= Repr && fresh(Repr - old(Repr))
      ensures walkingBh > 0 ==> list == added + old(list)
      ensures walkingBh == 0 ==>
                && list == Without(added + old(list), Dead(added + old(list)))
                && forall b :: b in list <==> b in added + old(list) && !b.deleted
      ensures |found| == old(|list|) && trace == old(trace) + seg && Deeper(seg, walkingBh)
      ensures AtDepth(seg, walkingBh + 1) == Visits(old(list), found)
      ensures forall b :: b in old(Repr) ==> Follows(old(SnapOf(b)), SnapOf(b), seg, b)
      ensures forall b :: b in old(list) && old(b.scheduled && !b.deleted) ==> b.runs > old(b.runs) || Stopped(seg, b)
      ensures forall b :: b in old(Repr) && old(!b.scheduled || b.deleted) && !Roused(seg, b) ==> b.runs == old(b.runs)
      ensures ret <==> exists f :: f in found && f.scheduled && !f.deleted && !f.idle
      decreases callbacks, 4
    {
      hide Valid, Without, Follows, Deeper, AtDepth, Visits, Progressed;
      ValidFirst();
      walkingBh := walkingBh + 1;
      ret, added, found, seg := Walk(callbacks);
      ProgressedIs(found);
      walkingBh := walkingBh - 1;
      forall b | b in old(Repr)
        ensures b in old(list) && old(b.scheduled && !b.deleted) ==> b.runs > old(b.runs) || Stopped(seg, b)
        ensures old(!b.scheduled || b.deleted) && !Roused(seg, b) ==> b.runs == old(b.runs)
      {
        FollowsRuns(old(SnapOf(b)), SnapOf(b), seg, b);
      }
      if walkingBh == 0 {
        Sweep();
      }
    }
  }

  /** Some node found pending was not idle. */
  ghost predicate Progressed(found: seq<Flags>) {
    exists f :: f in found && Pending(f) && !f.idle
  }

  lemma ProgressedIs(found: seq<Flags>)
    ensures Progressed(found) <==> exists f :: f in found && f.scheduled && !f.deleted && !f.idle
  {
  }

  lemma NoEvents(d: nat)
    ensures Deeper<Event>([], d) && AtDepth<Event>([], d) == []
    ensures forall b :: Invocations([], b) == 0
  {
  }

  lemma NoVisits(d: nat)
    ensures Deeper<Event>([], d) && Deeper<Event>([], d - 1) && AtDepth<Event>([], d) == [] && Visits([], []) == []
    ensures !Progressed([])
    ensures forall b :: Invocations([], b) == 0
    requires d > 0
  {
  }

  ghost predicate Among(done: seq<QEMUBH>, seen: set<QEMUBH>) {
    forall b :: b in done ==> b in seen
  }

  lemma AmongNone()
    ensures Among([], {})
  {
  }

  lemma AmongNext(l: seq<QEMUBH>, done: seq<QEMUBH>, seen: set<QEMUBH>, b: QEMUBH)
    requires Among(done, seen) && done <= l && |done| < |l| && l[|done|] == b
    ensures Among(done + [b], seen + {b}) && done + [b] <= l
  {
  }

  lemma AllVisited(l: seq<QEMUBH>, done: seq<QEMUBH>, seen: set<QEMUBH>)
    requires Among(done, seen) && done <= l && |done| == |l|
    ensures done == l && forall b :: b in l ==> b in seen
  {
  }

  lemma Regroup(a: seq<QEMUBH>, b: seq<QEMUBH>, c: seq<QEMUBH>)
    ensures a + (b + c) == (a + b) + c
  {
  }

  lemma AtOrDeeper(e: Entry<Event>, t: Trace)
    requires e.depth > 0 && Deeper(t, e.depth)
    ensures Deeper([e] + t, e.depth - 1)
  {
  }

  /** The visit of a node and the call it may lead to, as the trace has them. */
  lemma VisitTraced(d: nat, bh: QEMUBH, f: Flags, calls: Trace)
    requires d > 0 && (if Pending(f) then Deeper(calls, d - 1) && AtDepth(calls, d) == [Invoke(bh)] else calls == [])
    ensures var seg := [Entry(d, Visit(bh, f))] + calls;
      Deeper(seg, d - 1) && AtDepth(seg, d) == VisitOf(bh, f)
  {
    var e := Entry(d, Visit(bh, f));
    AtDepthConcat([e], calls, d);
    AtDepthSingle(e, d);
  }

  /** One more node visited. */
  lemma NextVisit(d: nat, done: seq<QEMUBH>, found: seq<Flags>, bh: QEMUBH, f: Flags, seg: Trace, did: Trace)
    requires d > 0 && |done| == |found| && Deeper(seg, d - 1) && Deeper(did, d - 1)
    requires AtDepth(seg, d) == Visits(done, found) && AtDepth(did, d) == VisitOf(bh, f)
    ensures Deeper(seg + did, d - 1) && AtDepth(seg + did, d) == Visits(done + [bh], found + [f])
    ensures Progressed(found + [f]) <==> Progressed(found) || (Pending(f) && !f.idle)
  {
    AtDepthConcat(seg, did, d);
    VisitsNext(done, found, bh, f);
    assert (found + [f])[|found|] == f;
  }

  lemma WithoutHead(kept: seq<QEMUBH>, l: seq<QEMUBH>, dead: set<QEMUBH>)
    requires l != []
    ensures kept + Without(l, dead) == (if l[0] in dead then kept else kept + [l[0]]) + Without(l[1..], dead)
  {
  }

  lemma WithoutNone(dead: set<QEMUBH>)
    ensures Without([], dead) == []
  {
  }
}
