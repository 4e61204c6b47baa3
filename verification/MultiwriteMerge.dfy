/** block.c: merging adjacent and overlapping writes (`multiwrite_merge`). */
module MultiwriteMerge {

  /** The content of one byte. */
  type Val = int

  const IOV_MAX: nat := 1024

  type Iov = seq<seq<Val>>

  datatype Req = Req(sector: nat, nb: nat, qiov: Iov)

  // ---- scatter-gather lists ----

  function Data(iov: Iov): seq<Val>
  {
    if iov == [] then [] else iov[0] + Data(iov[1..])
  }

  /** `qemu_iovec_concat(dst, iov, 0, n)`: what is added to dst. Empty segments are skipped. */
  function Prefix(iov: Iov, n: nat): (r: Iov)
    ensures |r| <= |iov|
  {
    if n == 0 || iov == [] then []
    else if iov[0] == [] then Prefix(iov[1..], n)
    else if |iov[0]| <= n then [iov[0]] + Prefix(iov[1..], n - |iov[0]|)
    else [iov[0][..n]]
  }

  lemma TakeSum(x: seq<Val>, y: seq<Val>, n: nat)
    requires n <= |x| + |y|
    ensures (x + y)[..n] == if n <= |x| then x[..n] else x + y[..n - |x|]
  {
  }

  lemma {:induction false} PrefixData(iov: Iov, n: nat)
    requires n <= |Data(iov)|
    ensures Data(Prefix(iov, n)) == Data(iov)[..n]
  {
    if iov != [] {
      TakeSum(iov[0], Data(iov[1..]), n);
    }
    if n == 0 || iov == [] {
    } else if iov[0] == [] {
      PrefixData(iov[1..], n);
    } else if |iov[0]| <= n {
      PrefixData(iov[1..], n - |iov[0]|);
      assert Prefix(iov, n)[1..] == Prefix(iov[1..], n - |iov[0]|);
    } else {
      assert Prefix(iov, n)[1..] == [];
    }
  }

  lemma Associate(x: seq<Val>, y: seq<Val>, z: seq<Val>)
    ensures x + (y + z) == (x + y) + z
  {
  }

  lemma {:induction false} DataConcat(a: Iov, b: Iov)
    ensures Data(a + b) == Data(a) + Data(b)
  {
    if a == [] {
      assert a + b == b;
    } else {
      DataConcat(a[1..], b);
      assert (a + b)[1..] == a[1..] + b;
      Associate(a[0], Data(a[1..]), Data(b));
    }
  }

  lemma DataSingle(x: seq<Val>)
    ensures Data([x]) == x
  {
    assert [x][1..] == [];
  }

  // ---- requests ----

  function Start(r: Req): nat
  {
    512 * r.sector
  }

  function End(r: Req): nat
  {
    512 * (r.sector + r.nb)
  }

  ghost predicate Valid(r: Req)
  {
    |Data(r.qiov)| == 512 * r.nb
  }

  predicate Covers(r: Req, t: nat)
  {
    Start(r) <= t < End(r)
  }

  function At(r: Req, t: nat): Val
    requires Covers(r, t) && |Data(r.qiov)| == 512 * r.nb
  {
    Data(r.qiov)[t - Start(r)]
  }

  ghost predicate AllValid(rs: seq<Req>)
  {
    forall i :: 0 <= i < |rs| ==> Valid(rs[i])
  }

  /** The order `qsort` establishes with `multiwrite_req_compare`. */
  ghost predicate Sorted(rs: seq<Req>)
  {
    forall i, j :: 0 <= i < j < |rs| ==> rs[i].sector <= rs[j].sector
  }

  /** Byte `t`, so far `d`, after `r`. */
  ghost function Over(d: Val, r: Req, t: nat): Val
    requires Valid(r)
  {
    if Covers(r, t) then At(r, t) else d
  }

  /** Byte `t` of a disk on which it was `d`, after the requests have been applied in order. */
  ghost function ValueAt(d: Val, rs: seq<Req>, t: nat): Val
    requires AllValid(rs)
    decreases |rs|
  {
    if rs == [] then d else ValueAt(Over(d, rs[0], t), rs[1..], t)
  }

  /** The last request that covers a byte decides it. */
  lemma {:induction false} LastWriterWins(d: Val, rs: seq<Req>, i: nat, t: nat)
    requires AllValid(rs) && i < |rs| && 512 * rs[i].sector <= t < 512 * (rs[i].sector + rs[i].nb)
    requires forall j :: i < j < |rs| ==> !(512 * rs[j].sector <= t < 512 * (rs[j].sector + rs[j].nb))
    ensures ValueAt(d, rs, t) == Data(rs[i].qiov)[t - 512 * rs[i].sector]
    decreases |rs|
  {
    hide Data;
    if i > 0 {
      LastWriterWins(Over(d, rs[0], t), rs[1..], i - 1, t);
    } else {
      assert forall j :: 0 <= j < |rs[1..]| ==> rs[1..][j] == rs[j + 1];
      NotCovered(Over(d, rs[0], t), rs[1..], t);
    }
  }

  // ---- merging ----

  /** The two tests of the loop. */
  predicate Mergeable(a: Req, b: Req)
  {
    b.sector <= a.sector + a.nb && |a.qiov| + |b.qiov| + 1 <= IOV_MAX
  }

  /** The merged request: the first one up to where the second starts, then the second. */
  function MergeTwo(a: Req, b: Req): Req
    requires a.sector <= b.sector
  {
    var qiov := Prefix(a.qiov, 512 * (b.sector - a.sector)) + Prefix(b.qiov, |Data(b.qiov)|);
    Req(a.sector, |Data(qiov)| / 512, qiov)
  }

  /** `acc` does not start after any of `rest`, which is sorted. */
  ghost predicate InOrder(acc: Req, rest: seq<Req>)
  {
    Sorted(rest) && forall i :: 0 <= i < |rest| ==> acc.sector <= rest[i].sector
  }

  /** What the loop makes of `acc`, the request at outidx, and the requests still to come. */
  ghost function Merge(acc: Req, rest: seq<Req>): seq<Req>
    requires InOrder(acc, rest)
    decreases |rest|
  {
    if rest == [] then [acc]
    else if Mergeable(acc, rest[0]) then Merge(MergeTwo(acc, rest[0]), rest[1..])
    else [acc] + Merge(rest[0], rest[1..])
  }

  ghost predicate Covered(rs: seq<Req>, t: nat)
  {
    exists i :: 0 <= i < |rs| && Covers(rs[i], t)
  }

  /** Byte `t` is never dropped for good: whenever a merge cuts it off the tail of the earlier request,
      some request still to come writes it. Decided by the sectors, lengths and segment counts alone. */
  ghost predicate TailKept(acc: Req, rest: seq<Req>, t: nat)
    requires InOrder(acc, rest)
    decreases |rest|
  {
    rest == [] ||
    if Mergeable(acc, rest[0]) then
      && (End(rest[0]) <= t < End(acc) ==> Covered(rest[1..], t))
      && TailKept(MergeTwo(acc, rest[0]), rest[1..], t)
    else
      TailKept(rest[0], rest[1..], t)
  }

  lemma MergeTwoData(a: Req, b: Req)
    requires Valid(a) && Valid(b) && a.sector <= b.sector <= a.sector + a.nb
    ensures var m := MergeTwo(a, b);
            && Valid(m) && m.sector == a.sector && End(m) == End(b)
            && Data(m.qiov) == Data(a.qiov)[..512 * (b.sector - a.sector)] + Data(b.qiov)
  {
    var n := 512 * (b.sector - a.sector);
    PrefixData(a.qiov, n);
    PrefixData(b.qiov, |Data(b.qiov)|);
    DataConcat(Prefix(a.qiov, n), Prefix(b.qiov, |Data(b.qiov)|));
    assert Data(b.qiov)[..|Data(b.qiov)|] == Data(b.qiov);
  }

  /** Where the merged request writes, and what, in terms of the two. */
  lemma MergeTwoAt(a: Req, b: Req, t: nat)
    requires Valid(a) && Valid(b) && a.sector <= b.sector <= a.sector + a.nb
    ensures var m := MergeTwo(a, b);
            && Valid(m)
            && (Covers(m, t) <==> Covers(b, t) || (Covers(a, t) && t < Start(b)))
            && (Covers(m, t) ==> At(m, t) == if Covers(b, t) then At(b, t) else At(a, t))
  {
    hide Data, MergeTwo;
    MergeTwoData(a, b);
    var n, x, y := 512 * (b.sector - a.sector), Data(a.qiov), Data(b.qiov);
    if Covers(b, t) {
      assert (x[..n] + y)[t - Start(a)] == y[t - Start(b)];
    } else if Covers(a, t) && t < Start(b) {
      assert (x[..n] + y)[t - Start(a)] == x[t - Start(a)];
    }
  }

  /** A request still to come that covers `t` makes what was there before irrelevant. */
  lemma {:induction false} CoveredOverrides(x: Val, y: Val, rs: seq<Req>, t: nat)
    requires AllValid(rs) && Covered(rs, t)
    ensures ValueAt(x, rs, t) == ValueAt(y, rs, t)
    decreases |rs|
  {
    if !Covers(rs[0], t) {
      var i :| 0 <= i < |rs| && Covers(rs[i], t);
      assert Covers(rs[1..][i - 1], t);
      CoveredOverrides(x, y, rs[1..], t);
    }
  }

  lemma {:induction false} MergeKeepsValid(acc: Req, rest: seq<Req>)
    requires InOrder(acc, rest) && Valid(acc) && AllValid(rest)
    ensures AllValid(Merge(acc, rest))
    decreases |rest|
  {
    hide Data, Prefix;
    if rest != [] {
      if Mergeable(acc, rest[0]) {
        MergeTwoData(acc, rest[0]);
        MergeKeepsValid(MergeTwo(acc, rest[0]), rest[1..]);
      } else {
        MergeKeepsValid(rest[0], rest[1..]);
      }
    }
  }

  /** One merge step, for a byte it does not drop for good. */
  lemma StepKeeps(d: Val, acc: Req, b: Req, rest: seq<Req>, t: nat)
    requires Valid(acc) && Valid(b) && AllValid(rest) && acc.sector <= b.sector <= acc.sector + acc.nb
    requires End(b) <= t < End(acc) ==> Covered(rest, t)
    ensures Valid(MergeTwo(acc, b))
    ensures ValueAt(Over(d, MergeTwo(acc, b), t), rest, t) == ValueAt(Over(Over(d, acc, t), b, t), rest, t)
  {
    hide MergeTwo, Data;
    MergeTwoAt(acc, b, t);
    if End(b) <= t < End(acc) {
      CoveredOverrides(Over(d, MergeTwo(acc, b), t), Over(Over(d, acc, t), b, t), rest, t);
    }
  }

  /** Where no byte is dropped for good, the merged requests leave what the originals leave. */
  lemma {:induction false} MergeKeepsByte(d: Val, acc: Req, rest: seq<Req>, t: nat)
    requires InOrder(acc, rest) && Valid(acc) && AllValid(rest) && TailKept(acc, rest, t)
    ensures AllValid(Merge(acc, rest)) && ValueAt(d, Merge(acc, rest), t) == ValueAt(Over(d, acc, t), rest, t)
    decreases |rest|
  {
    hide MergeTwo, Data, At;
    MergeKeepsValid(acc, rest);
    if rest != [] {
      var b := rest[0];
      if Mergeable(acc, b) {
        StepKeeps(d, acc, b, rest[1..], t);
        MergeTwoSector(acc, b);
        MergeKeepsByte(d, MergeTwo(acc, b), rest[1..], t);
      } else {
        MergeKeepsByte(Over(d, acc, t), b, rest[1..], t);
        assert Merge(acc, rest)[1..] == Merge(b, rest[1..]);
      }
    }
  }

  lemma MergeTwoSector(a: Req, b: Req)
    requires a.sector <= b.sector
    ensures MergeTwo(a, b).sector == a.sector
  {
  }

  // ---- how much is merged ----

  /** Every request left is one of the originals, or made of several and short of IOV_MAX segments. */
  lemma {:induction false} SegmentsFit(acc: Req, rest: seq<Req>, i: nat)
    requires InOrder(acc, rest) && i < |Merge(acc, rest)|
    ensures var m := Merge(acc, rest)[i]; m == acc || m in rest || |m.qiov| < IOV_MAX
    decreases |rest|
  {
    hide Data;
    if rest != [] {
      if Mergeable(acc, rest[0]) {
        SegmentsFit(MergeTwo(acc, rest[0]), rest[1..], i);
      } else if i > 0 {
        SegmentsFit(rest[0], rest[1..], i - 1);
      }
    }
  }

  lemma {:induction false} MergedStart(acc: Req, rest: seq<Req>)
    requires InOrder(acc, rest)
    ensures |Merge(acc, rest)| > 0 && Merge(acc, rest)[0].sector == acc.sector
    decreases |rest|
  {
    hide Data;
    if rest != [] && Mergeable(acc, rest[0]) {
      MergedStart(MergeTwo(acc, rest[0]), rest[1..]);
    }
  }

  /** Neighbours are left apart only for a reason: there is a gap between them, or the first and the original request
      with which the second starts had too many segments together. */
  lemma {:induction false} LeftApart(acc: Req, rest: seq<Req>, i: nat)
    requires InOrder(acc, rest) && i + 1 < |Merge(acc, rest)|
    ensures var m, n := Merge(acc, rest)[i], Merge(acc, rest)[i + 1];
            || m.sector + m.nb < n.sector
            || exists j :: 0 <= j < |rest| && rest[j].sector == n.sector && |m.qiov| + |rest[j].qiov| + 1 > 1024
    decreases |rest|
  {
    hide Data, MergeTwo;
    Unfold(acc, rest);
    var b, later := rest[0], rest[1..];
    if Mergeable(acc, b) {
      LeftApart(MergeTwo(acc, b), later, i);
      assert forall j :: 0 <= j < |later| ==> later[j] == rest[j + 1];
    } else {
      MergedStart(b, later);
      if i > 0 {
        LeftApart(b, later, i - 1);
        assert forall j :: 0 <= j < |later| ==> later[j] == rest[j + 1];
      } else {
        assert rest[0].sector == Merge(acc, rest)[1].sector;
      }
    }
  }

  lemma {:induction false} DataOfOne(x: seq<Val>, k: nat)
    ensures Data([x] + seq(k, _ => [])) == x
  {
    DataConcat([x], seq(k, _ => []));
    DataSingle(x);
    DataOfNone(k);
  }

  lemma {:induction false} DataOfNone(k: nat)
    ensures Data(seq(k, _ => [])) == []
  {
    if k > 0 {
      DataOfNone(k - 1);
      assert seq<seq<Val>>(k, _ => [])[1..] == seq(k - 1, _ => []);
    }
  }

  /** The segment counts of what is left do not show that reason: here the third request replaces the second, after the
      second's segments have kept it from being merged with the first. */
  lemma ApartWithFewSegments() returns (a: Req, b: Req, c: Req)
    ensures Valid(a) && Valid(b) && Valid(c) && InOrder(a, [b, c]) && |Merge(a, [b, c])| == 2
    ensures Mergeable(Merge(a, [b, c])[0], Merge(a, [b, c])[1])
  {
    hide Data, Merge, Mergeable, InOrder;
    var x: seq<Val> := seq(512, _ => 1);
    a := Req(0, 1, [x] + seq(999, _ => []));
    b := Req(1, 1, [x] + seq(99, _ => []));
    c := Req(1, 1, [x] + seq(0, _ => []));
    DataOfOne(x, 999);
    DataOfOne(x, 99);
    DataOfOne(x, 0);
    StillApart(a, b, c);
  }

  lemma StillApart(a: Req, b: Req, c: Req)
    requires a.sector == 0 && a.nb == 1 && b.sector == c.sector == 1
    requires |a.qiov| == 1000 && |b.qiov| == 100 && |c.qiov| == 1
    ensures InOrder(a, [b, c]) && |Merge(a, [b, c])| == 2 && Mergeable(Merge(a, [b, c])[0], Merge(a, [b, c])[1])
  {
    hide Data, Prefix, MergeTwo;
    assert [b, c][1..] == [c] && [c][1..] == [];
    Unfold(a, [b, c]);
    Unfold(b, [c]);
    MergeTwoFew(b, c);
    MergeTwoSector(b, c);
    SingleMerge(MergeTwo(b, c));
    assert Merge(a, [b, c]) == [a, MergeTwo(b, c)];
  }

  lemma MergeTwoFew(b: Req, c: Req)
    requires b.sector == c.sector
    ensures |MergeTwo(b, c).qiov| <= |c.qiov|
  {
    hide Data;
  }

  // ---- exactly when ----

  /** No request writes `x` to byte `t`. */
  ghost predicate Avoid(x: Val, rs: seq<Req>, t: nat)
    requires AllValid(rs)
  {
    forall i :: 0 <= i < |rs| && Covers(rs[i], t) ==> At(rs[i], t) != x
  }

  /** Requests that write byte `t` write different values there, none of them the value `d` found on the disk. */
  ghost predicate Differ(d: Val, rs: seq<Req>, t: nat)
    requires AllValid(rs)
    decreases |rs|
  {
    Avoid(d, rs, t) && (rs == [] || ((Covers(rs[0], t) ==> Avoid(At(rs[0], t), rs[1..], t)) && Differ(d, rs[1..], t)))
  }

  lemma {:induction false} NotCovered(d: Val, rs: seq<Req>, t: nat)
    requires AllValid(rs) && !Covered(rs, t)
    ensures ValueAt(d, rs, t) == d
    decreases |rs|
  {
    if rs != [] {
      assert !Covers(rs[0], t);
      NotCovered(d, rs[1..], t);
    }
  }

  lemma {:induction false} UncoveredTailKept(acc: Req, rest: seq<Req>, t: nat)
    requires InOrder(acc, rest) && Valid(acc) && AllValid(rest) && !Covers(acc, t) && !Covered(rest, t)
    ensures TailKept(acc, rest, t)
    decreases |rest|
  {
    hide MergeTwo, Data;
    if rest != [] {
      assert !Covers(rest[0], t);
      if Mergeable(acc, rest[0]) {
        MergeTwoAt(acc, rest[0], t);
        MergeTwoSector(acc, rest[0]);
        UncoveredTailKept(MergeTwo(acc, rest[0]), rest[1..], t);
      } else {
        UncoveredTailKept(rest[0], rest[1..], t);
      }
    }
  }

  /** Values that differ still differ after a merge step. */
  lemma DifferAfterMerge(d: Val, acc: Req, rest: seq<Req>, t: nat)
    requires Valid(acc) && AllValid(rest) && rest != [] && acc.sector <= rest[0].sector <= acc.sector + acc.nb
    requires AllValid([acc] + rest) && Differ(d, [acc] + rest, t)
    ensures AllValid([MergeTwo(acc, rest[0])] + rest[1..]) && Differ(d, [MergeTwo(acc, rest[0])] + rest[1..], t)
  {
    hide MergeTwo, Data, At;
    var b, m := rest[0], MergeTwo(acc, rest[0]);
    MergeTwoAt(acc, b, t);
    var before, after := [acc] + rest, [m] + rest[1..];
    assert before[1..] == rest && after[1..] == rest[1..];
    assert Covers(before[0], t) ==> At(before[0], t) != d;
    assert Covers(before[1], t) ==> At(before[1], t) != d;
    forall i | 0 <= i < |after| && Covers(after[i], t)
      ensures At(after[i], t) != d
    {
      if i > 0 {
        assert after[i] == before[i + 1];
      }
    }
    if Covers(m, t) {
      forall i | 0 <= i < |rest[1..]| && Covers(rest[1..][i], t)
        ensures At(rest[1..][i], t) != At(m, t)
      {
        assert rest[1..][i] == rest[i + 1];
      }
    }
  }

  /** Values that differ still differ once the first request is applied. */
  lemma {:induction false} DifferAfterApply(d: Val, r: Req, rs: seq<Req>, t: nat)
    requires Valid(r) && AllValid(rs) && Differ(d, rs, t)
    requires Covers(r, t) ==> Avoid(At(r, t), rs, t)
    ensures Differ(Over(d, r, t), rs, t)
    decreases |rs|
  {
    hide Data, At;
    if rs != [] {
      assert Covers(r, t) ==> Avoid(At(r, t), rs[1..], t) by {
        assert forall i :: 0 <= i < |rs[1..]| ==> rs[1..][i] == rs[i + 1];
      }
      DifferAfterApply(d, r, rs[1..], t);
    }
  }

  /** Exactly when: with contents that differ, byte `t` survives the merging if and only if no merge drops it for
      good. */
  lemma {:induction false} MergeExact(d: Val, acc: Req, rest: seq<Req>, t: nat)
    requires InOrder(acc, rest) && Valid(acc) && AllValid(rest)
    requires AllValid([acc] + rest) && Differ(d, [acc] + rest, t)
    ensures AllValid(Merge(acc, rest))
    ensures ValueAt(d, Merge(acc, rest), t) == ValueAt(Over(d, acc, t), rest, t) <==> TailKept(acc, rest, t)
    decreases |rest|
  {
    hide MergeTwo, Data, At;
    MergeKeepsValid(acc, rest);
    if TailKept(acc, rest, t) {
      MergeKeepsByte(d, acc, rest, t);
    } else {
      var b, later := rest[0], rest[1..];
      assert ([acc] + rest)[1..] == rest && [b] + later == rest;
      if !Mergeable(acc, b) {
        DifferAfterApply(d, acc, rest, t);
        MergeExact(Over(d, acc, t), b, later, t);
        assert Merge(acc, rest)[1..] == Merge(b, later);
      } else {
        var m := MergeTwo(acc, b);
        MergeTwoAt(acc, b, t);
        MergeTwoSector(acc, b);
        if End(b) <= t < End(acc) && !Covered(later, t) {
          NotCovered(At(acc, t), later, t);
          NotCovered(d, later, t);
          UncoveredTailKept(m, later, t);
          MergeKeepsByte(d, m, later, t);
          assert At(([acc] + rest)[0], t) != d;
        } else {
          StepKeeps(d, acc, b, later, t);
          DifferAfterMerge(d, acc, rest, t);
          MergeExact(d, m, later, t);
        }
      }
    }
  }

  // ---- whole disks ----

  /** The disk after the requests in order; bytes past its end are not on it. */
  ghost function Apply(disk: seq<Val>, rs: seq<Req>): (r: seq<Val>)
    requires AllValid(rs)
    ensures |r| == |disk|
  {
    seq(|disk|, t requires 0 <= t < |disk| => ValueAt(disk[t], rs, t))
  }

  /** The ends of the requests do not step back either. */
  ghost predicate EndsInOrder(acc: Req, rest: seq<Req>)
  {
    && (forall i :: 0 <= i < |rest| ==> End(acc) <= End(rest[i]))
    && (forall i, j :: 0 <= i < j < |rest| ==> End(rest[i]) <= End(rest[j]))
  }

  lemma {:induction false} EndsInOrderKeepTails(acc: Req, rest: seq<Req>, t: nat)
    requires InOrder(acc, rest) && Valid(acc) && AllValid(rest) && EndsInOrder(acc, rest)
    ensures TailKept(acc, rest, t)
    decreases |rest|
  {
    hide MergeTwo, Data;
    if rest != [] {
      if Mergeable(acc, rest[0]) {
        MergeTwoData(acc, rest[0]);
        EndsInOrderKeepTails(MergeTwo(acc, rest[0]), rest[1..], t);
      } else {
        EndsInOrderKeepTails(rest[0], rest[1..], t);
      }
    }
  }

  /** `multiwrite_merge` preserves meaning for requests whose ends do not step back, wherever IOV_MAX stops a merge. */
  lemma MergePreservesDisk(disk: seq<Val>, acc: Req, rest: seq<Req>)
    requires InOrder(acc, rest) && Valid(acc) && AllValid(rest) && AllValid([acc] + rest)
    requires EndsInOrder(acc, rest)
    ensures AllValid(Merge(acc, rest)) && Apply(disk, Merge(acc, rest)) == Apply(disk, [acc] + rest)
  {
    hide Data, At;
    MergeKeepsValid(acc, rest);
    assert ([acc] + rest)[1..] == rest;
    forall t | 0 <= t < |disk|
      ensures ValueAt(disk[t], Merge(acc, rest), t) == ValueAt(disk[t], [acc] + rest, t)
    {
      EndsInOrderKeepTails(acc, rest, t);
      MergeKeepsByte(disk[t], acc, rest, t);
    }
  }

  /** With contents that differ wherever requests overlap, the bytes of the disk that survive merging are exactly
      those no merge drops for good. */
  lemma MergeExactDisk(disk: seq<Val>, acc: Req, rest: seq<Req>)
    requires InOrder(acc, rest) && Valid(acc) && AllValid(rest) && AllValid([acc] + rest)
    requires forall t :: 0 <= t < |disk| ==> Differ(disk[t], [acc] + rest, t)
    ensures AllValid(Merge(acc, rest))
    ensures forall t: nat :: t < |disk| ==>
              (Apply(disk, Merge(acc, rest))[t] == Apply(disk, [acc] + rest)[t] <==> TailKept(acc, rest, t))
  {
    hide Data, At;
    MergeKeepsValid(acc, rest);
    assert ([acc] + rest)[1..] == rest;
    forall t: nat | t < |disk|
      ensures Apply(disk, Merge(acc, rest))[t] == Apply(disk, [acc] + rest)[t] <==> TailKept(acc, rest, t)
    {
      MergeExact(disk[t], acc, rest, t);
    }
  }

  lemma OneWriter(d: Val, a: Req, b: Req, t: nat)
    requires Valid(a) && Valid(b) && Covers(a, t) && !Covers(b, t) && At(a, t) != d
    ensures AllValid([a, b]) && Differ(d, [a, b], t)
  {
    hide At, Data;
    assert [a, b][1..] == [b] && [b][1..] == [];
    assert Differ(d, [], t);
    assert Differ(d, [b], t);
  }

  /** Three sectors, then one inside them: the third sector is lost. */
  lemma TailLost()
    ensures exists disk: seq<Val>, a: Req, b: Req ::
              && Valid(a) && Valid(b) && InOrder(a, [b]) && AllValid(Merge(a, [b])) && AllValid([a, b])
              && Apply(disk, Merge(a, [b])) != Apply(disk, [a, b])
  {
    var a := Req(0, 3, [seq(1536, _ => 1)]);
    var b := Req(1, 1, [seq(512, _ => 2)]);
    var disk := seq(1536, _ => 0);
    DataSingle(a.qiov[0]);
    DataSingle(b.qiov[0]);
    MergeKeepsValid(a, [b]);
    assert [b][1..] == [] && [a, b] == [a] + [b];
    OneWriter(0, a, b, 1200);
    MergeExact(0, a, [b], 1200);
    assert !TailKept(a, [b], 1200);
    assert Apply(disk, Merge(a, [b]))[1200] != Apply(disk, [a, b])[1200];
  }

  lemma Unfold(acc: Req, rest: seq<Req>)
    requires InOrder(acc, rest) && rest != []
    ensures acc.sector <= rest[0].sector
    ensures InOrder(rest[0], rest[1..]) && InOrder(MergeTwo(acc, rest[0]), rest[1..])
    ensures Merge(acc, rest) == if Mergeable(acc, rest[0]) then Merge(MergeTwo(acc, rest[0]), rest[1..])
                                else [acc] + Merge(rest[0], rest[1..])
  {
    hide Data, Prefix;
  }

  /** `qsort`: the library's result is `sorted`, one of the sorted orders of the requests. */
  method Qsort(reqs: array<Req>, sorted: seq<Req>)
    requires |sorted| == reqs.Length && multiset(sorted) == multiset(reqs[..])
    modifies reqs
    ensures reqs[..] == sorted
  {
    for k := 0 to reqs.Length
      invariant forall j :: 0 <= j < k ==> reqs[j] == sorted[j]
    {
      reqs[k] := sorted[k];
    }
  }

  /** `multiwrite_merge`, in place, after qsort has put the requests into some order `sorted`. */
  method MultiwriteMerge(reqs: array<Req>, sorted: seq<Req>) returns (n: nat)
    requires |sorted| == reqs.Length > 0 && multiset(sorted) == multiset(reqs[..]) && Sorted(sorted)
    modifies reqs
    ensures n <= reqs.Length && InOrder(sorted[0], sorted[1..]) && reqs[..n] == Merge(sorted[0], sorted[1..])
  {
    hide Data, Prefix, Merge, Mergeable, MergeTwo, InOrder, Sorted;
    Qsort(reqs, sorted);
    SortedInOrder(sorted);
    var outidx: nat := 0;
    ghost var done: seq<Req> := [];
    for i := 1 to reqs.Length
      invariant outidx < i && InOrder(reqs[outidx], sorted[i..])
      invariant forall j :: i <= j < reqs.Length ==> reqs[j] == sorted[j]
      invariant reqs[..outidx] == done && InOrder(sorted[0], sorted[1..])
      invariant done + Merge(reqs[outidx], sorted[i..]) == Merge(sorted[0], sorted[1..])
    {
      var acc, b := reqs[outidx], reqs[i];
      Unfold(acc, sorted[i..]);
      assert sorted[i..][0] == b && sorted[i..][1..] == sorted[i + 1..];
      if Mergeable(acc, b) {
        reqs[outidx] := MergeTwo(acc, b);
      } else {
        outidx := outidx + 1;
        reqs[outidx] := b;
        assert done + ([acc] + Merge(b, sorted[i + 1..])) == done + [acc] + Merge(b, sorted[i + 1..]);
        done := done + [acc];
      }
    }
    SingleMerge(reqs[outidx]);
    assert sorted[reqs.Length..] == [];
    assert reqs[..outidx + 1] == done + [reqs[outidx]];
    n := outidx + 1;
  }

  lemma SortedInOrder(rs: seq<Req>)
    requires |rs| > 0 && Sorted(rs)
    ensures InOrder(rs[0], rs[1..])
  {
  }

  lemma SingleMerge(acc: Req)
    ensures Merge(acc, []) == [acc]
  {
  }
}
