/** block.c: chains of images. A sector reads from the first image of the chain that has it allocated. */
module ImageChain {
  import opened Basics

  type Val = int

  /** What one image file holds, sector by sector. */
  datatype Image = Image(alloc: seq<bool>, data: seq<Val>)

  ghost predicate Sized(img: Image)
  {
    |img.data| == |img.alloc|
  }

  predicate Has(img: Image, t: nat)
  {
    t < |img.alloc| && t < |img.data| && img.alloc[t]
  }

  /** The guest's view of sector `t`. A sector no image has reads as zeroes, and so does one behind the end of an image
      that is reached: an image shorter than those below it hides their ends. */
  function ViewAt(imgs: seq<Image>, t: nat): Val
  {
    if imgs == [] || t >= |imgs[0].alloc| then 0
    else if Has(imgs[0], t) then imgs[0].data[t]
    else ViewAt(imgs[1..], t)
  }

  /** The first image that has a sector decides it, unless an image above ends before it. */
  lemma {:induction false} FirstHolderWins(imgs: seq<Image>, i: nat, t: nat)
    requires i < |imgs| && t < |imgs[i].alloc| && t < |imgs[i].data| && imgs[i].alloc[t]
    requires forall j :: 0 <= j < i ==> t < |imgs[j].alloc| && (t >= |imgs[j].data| || !imgs[j].alloc[t])
    ensures ViewAt(imgs, t) == imgs[i].data[t]
    decreases |imgs|
  {
    if i > 0 {
      FirstHolderWins(imgs[1..], i - 1, t);
    }
  }

  /** Without one it reads as zeroes. */
  lemma {:induction false} NoHolderIsZero(imgs: seq<Image>, i: nat, t: nat)
    requires i <= |imgs| && (i < |imgs| ==> t >= |imgs[i].alloc|)
    requires forall j :: 0 <= j < i ==> t < |imgs[j].alloc| && (t >= |imgs[j].data| || !imgs[j].alloc[t])
    ensures ViewAt(imgs, t) == 0
    decreases |imgs|
  {
    if i > 0 {
      NoHolderIsZero(imgs[1..], i - 1, t);
    }
  }

  ghost predicate SameView(a: seq<Image>, b: seq<Image>)
  {
    forall t: nat :: ViewAt(a, t) == ViewAt(b, t)
  }

  /** The same over the first `n` sectors. */
  ghost predicate SameUpTo(a: seq<Image>, b: seq<Image>, n: nat)
  {
    forall t: nat :: t < n ==> ViewAt(a, t) == ViewAt(b, t)
  }

  /** There is nothing to be seen from sector `n` on. */
  ghost predicate EndsBy(imgs: seq<Image>, n: nat)
  {
    forall t: nat :: t >= n ==> ViewAt(imgs, t) == 0
  }

  /** An image that has nothing is invisible up to its end, and altogether if and only if it hides nothing behind its
      end; it hides nothing if it is at least as long as the image it covers. */
  lemma {:induction false} EmptyLayer(img: Image, below: seq<Image>)
    requires forall t: nat :: !Has(img, t)
    ensures SameUpTo([img] + below, below, |img.alloc|)
    ensures SameView([img] + below, below) <==> EndsBy(below, |img.alloc|)
    ensures below == [] || |below[0].alloc| <= |img.alloc| ==> SameView([img] + below, below)
  {
    var all, n := [img] + below, |img.alloc|;
    forall t: nat
      ensures ViewAt(all, t) == if t < n then ViewAt(below, t) else 0
      ensures below == [] || |below[0].alloc| <= n ==> t >= n ==> ViewAt(below, t) == 0
    {
      assert all[1..] == below;
    }
    if EndsBy(below, n) {
      assert forall t: nat :: ViewAt(all, t) == ViewAt(below, t);
    } else {
      var t: nat :| t >= n && ViewAt(below, t) != 0;
      assert ViewAt(all, t) != ViewAt(below, t);
    }
  }

  /** What lies under an upper part of the chain matters only through its view. */
  lemma {:induction false} SameBelow(upper: seq<Image>, a: seq<Image>, b: seq<Image>)
    requires SameView(a, b)
    ensures SameView(upper + a, upper + b)
    decreases |upper|
  {
    if upper == [] {
      assert upper + a == a && upper + b == b;
    } else {
      SameBelow(upper[1..], a, b);
      forall t: nat
        ensures ViewAt(upper + a, t) == ViewAt(upper + b, t)
      {
        assert (upper + a)[1..] == upper[1..] + a && (upper + b)[1..] == upper[1..] + b;
        assert ViewAt(upper[1..] + a, t) == ViewAt(upper[1..] + b, t);
      }
    }
  }

  // ---- block driver states ----

  /** The fields `bdrv_move_feature_fields` keeps with the device (throttling, error policy and timers as one word). */
  datatype Features = Features(
    openFlags: set<nat>, dev: nat, copyOnRead: bool, enableWriteCache: bool, ioLimitsEnabled: bool, timer: nat,
    policy: int, dirtyBitmap: nat, dirtyCount: int, inUse: bool, job: nat, deviceName: string)

  const NO_BACKING: nat := 0x100

  /** The fields that travel with the image. */
  datatype Content = Content(img: Image, drv: string, filename: string, readOnly: bool,
                             backing: BlockDriverState?, backingFile: string, backingFormat: string)

  class BlockDriverState {
    var content: Content
    var feat: Features

    constructor (content: Content, feat: Features)
      ensures this.content == content && this.feat == feat
    {
      this.content, this.feat := content, feat;
    }
  }

  /** The asserts at the head of `bdrv_swap`: anonymous, and nothing fancy enabled. */
  ghost predicate Anonymous(f: Features)
  {
    f.deviceName == "" && f.dirtyBitmap == 0 && f.job == 0 && f.dev == 0 && !f.inUse && !f.ioLimitsEnabled
      && f.timer == 0
  }

  /** `bdrv_swap`: the structures change places and the device fields are moved back. */
  method Swap(bsNew: BlockDriverState, bsOld: BlockDriverState)
    requires bsNew != bsOld && Anonymous(bsNew.feat)
    modifies bsNew, bsOld
    ensures bsNew.content == old(bsOld.content) && bsOld.content == old(bsNew.content)
    ensures bsNew.feat == old(bsNew.feat) && bsOld.feat == old(bsOld.feat)
  {
    var tmpContent, tmpFeat := bsNew.content, bsNew.feat;
    bsNew.content, bsNew.feat := bsOld.content, bsOld.feat;
    bsOld.content, bsOld.feat := tmpContent, tmpFeat;
    tmpFeat := bsOld.feat;
    bsOld.feat := bsNew.feat;
    bsNew.feat := tmpFeat;
    assert Anonymous(bsNew.feat);
  }

  /** States and their contents, top first: each is backed by the next and the last by none. */
  ghost predicate Linked(chain: seq<BlockDriverState>, cs: seq<Content>)
  {
    && |chain| == |cs| > 0
    && (forall i, j :: 0 <= i < j < |chain| ==> chain[i] != chain[j])
    && (forall i :: 0 <= i < |chain| - 1 ==> cs[i].backing == chain[i + 1])
    && cs[|chain| - 1].backing == null
  }

  ghost function Contents(chain: seq<BlockDriverState>): (cs: seq<Content>)
    reads chain
    ensures |cs| == |chain| && forall i :: 0 <= i < |chain| ==> cs[i] == chain[i].content
  {
    seq(|chain|, i requires 0 <= i < |chain| reads chain => chain[i].content)
  }

  ghost function Images(cs: seq<Content>): (imgs: seq<Image>)
    ensures |imgs| == |cs| && forall i :: 0 <= i < |cs| ==> imgs[i] == cs[i].img
  {
    seq(|cs|, i requires 0 <= i < |cs| => cs[i].img)
  }

  /** Putting a state between the top of a chain and what it was. */
  lemma AppendLinked(top: BlockDriverState, added: BlockDriverState, tail: seq<BlockDriverState>, cs: seq<Content>,
                     layer: Content)
    requires Linked([top] + tail, cs) && added !in [top] + tail && layer.backing == added
    ensures Linked([top, added] + tail, [layer] + cs) && Images([layer] + cs) == [layer.img] + Images(cs)
  {
    var before, after, cs' := [top] + tail, [top, added] + tail, [layer] + cs;
    assert forall i :: 2 <= i < |after| ==> after[i] == before[i - 1];
    forall i, j | 0 <= i < j < |after|
      ensures after[i] != after[j]
    {
      if i == 0 {
        assert j >= 2 ==> before[0] != before[j - 1];
      } else if i == 1 {
        assert after[j] == before[j - 1] && before[j - 1] in before;
      } else {
        assert before[i - 1] != before[j - 1];
      }
    }
    assert Images(cs') == [layer.img] + Images(cs);
    forall i | 0 <= i < |after| - 1
      ensures cs'[i].backing == after[i + 1]
    {
      if i > 0 {
        assert cs'[i] == cs[i - 1] && after[i + 1] == before[i];
      }
    }
  }

  /** `bdrv_append`: new layer, old top, old tail; the top object stays the head and keeps its device fields. */
  method Append(bsNew: BlockDriverState, bsTop: BlockDriverState, ghost tail: seq<BlockDriverState>)
    requires Linked([bsTop] + tail, Contents([bsTop] + tail)) && bsNew !in [bsTop] + tail && Anonymous(bsNew.feat)
    modifies bsNew, bsTop
    ensures Linked([bsTop, bsNew] + tail, Contents([bsTop, bsNew] + tail))
    ensures Images(Contents([bsTop, bsNew] + tail)) == [old(bsNew.content.img)] + old(Images(Contents([bsTop] + tail)))
    ensures bsNew.content == old(bsTop.content) && bsNew.feat == old(bsNew.feat)
    ensures bsTop.feat == old(bsTop.feat).(openFlags := old(bsTop.feat.openFlags) - {NO_BACKING})
    ensures bsTop.content == old(bsNew.content).(backing := bsNew, backingFile := bsNew.content.filename,
                                                 backingFormat := bsNew.content.drv)
    ensures (forall t: nat :: !Has(old(bsNew.content.img), t)) ==>
              && SameUpTo(Images(Contents([bsTop, bsNew] + tail)), old(Images(Contents([bsTop] + tail))),
                          |old(bsNew.content.img).alloc|)
              && (SameView(Images(Contents([bsTop, bsNew] + tail)), old(Images(Contents([bsTop] + tail))))
                  <==> EndsBy(old(Images(Contents([bsTop] + tail))), |old(bsNew.content.img).alloc|))
              && (|old(bsTop.content.img).alloc| <= |old(bsNew.content.img).alloc| ==>
                    SameView(Images(Contents([bsTop, bsNew] + tail)), old(Images(Contents([bsTop] + tail)))))
  {
    hide Linked, Images, SameView, SameUpTo, EndsBy, Has;
    ghost var before, after := [bsTop] + tail, [bsTop, bsNew] + tail;
    ghost var cs, layer := Contents(before), bsNew.content.img;
    TailApart(bsTop, tail, cs);
    Swap(bsNew, bsTop);
    bsTop.content := bsTop.content.(backing := bsNew, backingFile := bsNew.content.filename,
                                    backingFormat := bsNew.content.drv);
    bsTop.feat := bsTop.feat.(openFlags := bsTop.feat.openFlags - {NO_BACKING});
    forall i | 0 <= i < |after|
      ensures after[i].content == ([bsTop.content] + cs)[i]
    {
      if i >= 2 {
        assert after[i] == tail[i - 2] == before[i - 1];
      }
    }
    assert Contents(after) == [bsTop.content] + cs;
    AppendLinked(bsTop, bsNew, tail, cs, bsTop.content);
    if forall t: nat :: !Has(layer, t) {
      EmptyLayer(layer, Images(cs));
    }
  }

  lemma TailApart(top: BlockDriverState, tail: seq<BlockDriverState>, cs: seq<Content>)
    requires Linked([top] + tail, cs)
    ensures top !in tail
  {
    var chain := [top] + tail;
    forall i | 0 <= i < |tail|
      ensures tail[i] != top
    {
      assert chain[0] != chain[i + 1];
    }
  }

  // ---- dropping intermediate images ----

  /** `bdrv_find_overlay`: the state above `bs`, at position `i`, or null when `bs` is the active state or not in the
      chain. */
  method FindOverlay(active: BlockDriverState, bs: BlockDriverState, ghost chain: seq<BlockDriverState>)
    returns (overlay: BlockDriverState?, ghost i: nat)
    requires Linked(chain, Contents(chain)) && active == chain[0]
    ensures overlay != null ==> i + 1 < |chain| && overlay == chain[i] && chain[i + 1] == bs
    ensures overlay == null ==> forall m :: 1 <= m < |chain| ==> chain[m] != bs
  {
    i := 0;
    if active == bs {
      return null, 0;
    }
    var intermediate := active;
    while intermediate.content.backing != null
      invariant i < |chain| && intermediate == chain[i]
      invariant forall m :: 1 <= m <= i ==> chain[m] != bs
      decreases |chain| - i
    {
      if intermediate.content.backing == bs {
        return intermediate, i;
      }
      intermediate := intermediate.content.backing;
      i := i + 1;
    }
    overlay := null;
  }

  lemma NextInChain(chain: seq<BlockDriverState>, cs: seq<Content>, i: nat)
    requires Linked(chain, cs) && i < |chain|
    ensures cs[i].backing == if i + 1 < |chain| then chain[i + 1] else null
  {
  }

  lemma Distinct(chain: seq<BlockDriverState>, cs: seq<Content>)
    requires Linked(chain, cs)
    ensures forall i, j :: 0 <= i < |chain| && 0 <= j < |chain| && chain[i] == chain[j] ==> i == j
  {
  }

  /** The deletion queue of `bdrv_drop_intermediate`: the states from `top`, at position `j`, down to just above
      `base`. */
  method CollectAbove(top: BlockDriverState, base: BlockDriverState, ghost chain: seq<BlockDriverState>, ghost j: nat)
    returns (found: bool, queue: seq<BlockDriverState>, ghost k: nat)
    requires Linked(chain, Contents(chain)) && j < |chain| && top == chain[j]
    ensures found ==> j < k < |chain| && chain[k] == base && queue == chain[j..k]
    ensures !found ==> forall m :: j < m < |chain| ==> chain[m] != base
  {
    hide Linked;
    var intermediate: BlockDriverState? := top;
    queue, found := [], false;
    k := j;
    while intermediate != null
      invariant j <= k <= |chain| && queue == chain[j..k] && !found
      invariant forall m :: j < m <= k && m < |chain| ==> chain[m] != base
      invariant if k < |chain| then intermediate == chain[k] else intermediate == null
      decreases |chain| - k
    {
      NextInChain(chain, Contents(chain), k);
      assert chain[j..k] + [chain[k]] == chain[j..k + 1];
      queue := queue + [intermediate];
      k := k + 1;
      if intermediate.content.backing == base {
        found := true;
        break;
      }
      intermediate := intermediate.content.backing;
    }
  }

  /** Cutting states [j, k) out of a chain leaves a chain. */
  lemma CutLinked(chain: seq<BlockDriverState>, cs: seq<Content>, j: nat, k: nat, over: Content)
    requires Linked(chain, cs) && 0 < j <= k < |chain| && over.backing == chain[k]
    ensures Linked(chain[..j] + chain[k..], cs[..j - 1] + [over] + cs[k..])
  {
    var chain', cs' := chain[..j] + chain[k..], cs[..j - 1] + [over] + cs[k..];
    forall i | 0 <= i < |chain'|
      ensures chain'[i] == if i < j then chain[i] else chain[i - j + k]
      ensures cs'[i] == if i < j - 1 then cs[i] else if i == j - 1 then over else cs[i - j + k]
    {
    }
    forall i, h | 0 <= i < h < |chain'|
      ensures chain'[i] != chain'[h]
    {
    }
  }

  /** Dropping layers [j, k) keeps the view of the whole chain whenever the view from `k` down is the view from `j`
      down. */
  lemma DropKeepsView(imgs: seq<Image>, j: nat, k: nat)
    requires j <= k <= |imgs| && SameView(imgs[j..], imgs[k..])
    ensures SameView(imgs[..j] + imgs[k..], imgs)
  {
    SameBelow(imgs[..j], imgs[j..], imgs[k..]);
    assert imgs[..j] + imgs[j..] == imgs;
  }

  /** The contents after the cut: `o` is relinked to `k`, the states between have lost their backing. */
  ghost predicate IsCut(chain: seq<BlockDriverState>, cs: seq<Content>, cs': seq<Content>, o: nat, k: nat)
  {
    && |cs'| == |cs| == |chain| && o + 1 < k < |chain|
    && cs'[o] == cs[o].(backing := chain[k], backingFile := cs[k].filename, backingFormat := cs[k].drv)
    && (forall m :: o < m < k ==> cs'[m] == cs[m].(backing := null))
    && (forall m :: 0 <= m < |cs| && (m < o || k <= m) ==> cs'[m] == cs[m])
  }

  lemma CutContents(chain: seq<BlockDriverState>, cs: seq<Content>, cs': seq<Content>, o: nat, k: nat)
    requires Linked(chain, cs) && IsCut(chain, cs, cs', o, k)
    ensures Linked(chain[..o + 1] + chain[k..], cs'[..o + 1] + cs'[k..])
    ensures Images(cs'[..o + 1] + cs'[k..]) == Images(cs)[..o + 1] + Images(cs)[k..]
  {
    hide Linked;
    CutLinked(chain, cs, o + 1, k, cs'[o]);
    assert cs[..o] + [cs'[o]] + cs[k..] == cs'[..o + 1] + cs'[k..];
    CutImages(chain, cs, cs', o, k);
  }

  lemma CutImages(chain: seq<BlockDriverState>, cs: seq<Content>, cs': seq<Content>, o: nat, k: nat)
    requires IsCut(chain, cs, cs', o, k)
    ensures Images(cs'[..o + 1] + cs'[k..]) == Images(cs)[..o + 1] + Images(cs)[k..]
  {
    var a, b := Images(cs'[..o + 1] + cs'[k..]), Images(cs)[..o + 1] + Images(cs)[k..];
    forall m | 0 <= m < |a|
      ensures a[m] == b[m]
    {
    }
  }

  /** The deletion loop: each queued state loses its backing before it is deleted. */
  method DetachAll(queue: seq<BlockDriverState>)
    requires forall i, j :: 0 <= i < j < |queue| ==> queue[i] != queue[j]
    modifies queue
    ensures forall i :: 0 <= i < |queue| ==> queue[i].content == old(queue[i].content).(backing := null)
  {
    for i := 0 to |queue|
      invariant forall m :: 0 <= m < i ==> queue[m].content == old(queue[m].content).(backing := null)
      invariant forall m :: i <= m < |queue| ==> queue[m].content == old(queue[m].content)
    {
      queue[i].content := queue[i].content.(backing := null);
    }
  }

  /** Relinking the overlay to `base`, then taking the queued states out of the chain. */
  method Unlink(newTop: BlockDriverState, base: BlockDriverState, queue: seq<BlockDriverState>,
                ghost chain: seq<BlockDriverState>, ghost o: nat, ghost k: nat)
    requires Linked(chain, Contents(chain)) && o + 1 < k < |chain|
    requires newTop == chain[o] && base == chain[k] && queue == chain[o + 1..k]
    modifies chain
    ensures IsCut(chain, old(Contents(chain)), Contents(chain), o, k)
  {
    hide Linked;
    ghost var cs := Contents(chain);
    QueueInChain(chain, cs, queue, o, k);
    newTop.content := newTop.content.(backing := base, backingFile := base.content.filename,
                                      backingFormat := base.content.drv);
    DetachAll(queue);
    forall m | 0 <= m < |chain|
      ensures chain[m].content
           == if m == o then cs[o].(backing := chain[k], backingFile := cs[k].filename, backingFormat := cs[k].drv)
              else if o < m < k then cs[m].(backing := null) else cs[m]
    {
      if o < m < k {
        assert chain[m] == queue[m - o - 1];
      } else {
        assert chain[m] !in queue;
      }
    }
  }

  /** The queue is part of the chain, and the rest of the chain is not in the queue. */
  lemma QueueInChain(chain: seq<BlockDriverState>, cs: seq<Content>, queue: seq<BlockDriverState>, o: nat, k: nat)
    requires Linked(chain, cs) && o + 1 < k < |chain| && queue == chain[o + 1..k]
    ensures forall i :: 0 <= i < |queue| ==> queue[i] in chain && queue[i] == chain[o + 1 + i]
    ensures forall i, j :: 0 <= i < j < |queue| ==> queue[i] != queue[j]
    ensures forall m :: 0 <= m < |chain| && !(o < m < k) ==> chain[m] !in queue
    ensures forall m :: 0 <= m < |chain| && m != o ==> chain[m] != chain[o]
  {
    Distinct(chain, cs);
    hide Linked;
    forall m | 0 <= m < |chain| && !(o < m < k)
      ensures chain[m] !in queue
    {
      forall i | 0 <= i < |queue|
        ensures queue[i] != chain[m]
      {
        assert queue[i] == chain[o + 1 + i];
      }
    }
  }

  /** The end of `bdrv_drop_intermediate`, once the queue has been collected and the driver has agreed. */
  method DropQueued(newTop: BlockDriverState, base: BlockDriverState, queue: seq<BlockDriverState>,
                    ghost chain: seq<BlockDriverState>, ghost o: nat, ghost k: nat)
    requires Linked(chain, Contents(chain)) && o + 1 < k < |chain|
    requires newTop == chain[o] && base == chain[k] && queue == chain[o + 1..k]
    modifies chain
    ensures Linked(chain[..o + 1] + chain[k..], Contents(chain[..o + 1] + chain[k..]))
    ensures Images(Contents(chain[..o + 1] + chain[k..]))
         == old(Images(Contents(chain)))[..o + 1] + old(Images(Contents(chain)))[k..]
    ensures forall i :: o < i < k ==> chain[i].content.backing == null
    ensures chain[o].content
         == old(chain[o].content).(backing := base, backingFile := old(base.content.filename),
                                   backingFormat := old(base.content.drv))
    ensures forall i :: 0 <= i < |chain| && (i < o || k <= i) ==> chain[i].content == old(chain[i].content)
  {
    hide Linked;
    ghost var cs := Contents(chain);
    Unlink(newTop, base, queue, chain, o, k);
    CutContents(chain, cs, Contents(chain), o, k);
    assert Contents(chain[..o + 1] + chain[k..]) == Contents(chain)[..o + 1] + Contents(chain)[k..];
    assert forall i :: o < i < k ==> Contents(chain)[i].backing == null;
    assert forall i :: 0 <= i < |chain| && (i < o || k <= i) ==> Contents(chain)[i] == cs[i];
  }

  /** `bdrv_drop_intermediate`; `change` is what the driver answers to the change of backing file. On success the layers
      from `top`, at `j`, down to just above `base`, at `k`, are gone and nothing else is; on failure nothing
      changed. */
  method DropIntermediate(active: BlockDriverState, top: BlockDriverState, base: BlockDriverState, change: int,
                          ghost chain: seq<BlockDriverState>) returns (ret: int, ghost j: nat, ghost k: nat)
    requires Linked(chain, Contents(chain)) && active == chain[0]
    modifies chain
    ensures ret != 0 ==> Contents(chain) == old(Contents(chain))
    ensures ret == 0 ==> 0 < j <= k < |chain| && chain[j] == top && chain[k] == base
    ensures ret == 0 ==> Linked(chain[..j] + chain[k..], Contents(chain[..j] + chain[k..]))
    ensures ret == 0 ==>
              Images(Contents(chain[..j] + chain[k..]))
              == old(Images(Contents(chain)))[..j] + old(Images(Contents(chain)))[k..]
    ensures ret == 0 ==> forall i :: j <= i < k ==> chain[i].content.backing == null
    ensures ret == 0 && j < k ==>
              chain[j - 1].content
              == old(chain[j - 1].content).(backing := base, backingFile := old(base.content.filename),
                                            backingFormat := old(base.content.drv))
    ensures ret == 0 ==>
              forall i :: 0 <= i < |chain| && (i < j - 1 || k <= i) ==> chain[i].content == old(chain[i].content)
    ensures ret == 0 && j == k ==> Contents(chain) == old(Contents(chain))
    ensures old(top.content.drv) == "" || old(base.content.drv) == "" ==> ret == -EIO
    ensures (forall i, h :: 0 < i <= h < |chain| ==> chain[i] != top || chain[h] != base) ==> ret == -EIO
    ensures old(top.content.drv) != "" && old(base.content.drv) != "" ==>
              forall i: nat, h: nat :: 0 < i <= h < |chain| && chain[i] == top && chain[h] == base ==>
                ret == if i == h then 0 else change
  {
    hide Linked, Images, Contents;
    j, k := 0, 0;
    Distinct(chain, Contents(chain));
    if top.content.drv == "" || base.content.drv == "" {
      return -EIO, 0, 0;
    }
    ghost var cs := Contents(chain);
    var newTop, o := FindOverlay(active, top, chain);
    if newTop == null {
      return -EIO, 0, 0;
    }
    j, k := o + 1, o + 1;
    NextInChain(chain, cs, o);
    if newTop.content.backing == base {
      assert chain[..j] + chain[j..] == chain;
      assert Images(cs)[..j] + Images(cs)[j..] == Images(cs);
      return 0, j, k;
    }
    var found, queue, h := CollectAbove(top, base, chain, j);
    if !found {
      return -EIO, 0, 0;
    }
    k := h;
    if change != 0 {
      return change, 0, 0;
    }
    DropQueued(newTop, base, queue, chain, o, k);
    ret := 0;
  }

  // ---- committing ----

  const COMMIT_BUF_SECTORS: nat := 2048

  /** `bdrv_is_allocated`: whether the sector is present, and for how many sectors from it on that stays the same. */
  method IsAllocated(alloc: seq<bool>, sector: nat, nb: nat) returns (present: bool, n: nat)
    requires nb > 0
    ensures sector >= |alloc| ==> !present && n == 0
    ensures sector < |alloc| ==> 0 < n <= nb && sector + n <= |alloc|
    ensures forall t :: sector <= t < sector + n ==> alloc[t] == present
  {
    if sector >= |alloc| {
      return false, 0;
    }
    present, n := alloc[sector], 1;
    while n < nb && sector + n < |alloc| && alloc[sector + n] == present
      invariant 0 < n <= nb && sector + n <= |alloc|
      invariant forall t :: sector <= t < sector + n ==> alloc[t] == present
    {
      n := n + 1;
    }
  }

  /** The sectors on which reads of the top or writes to the backing image fail. */
  datatype Faults = Faults(read: set<nat>, write: set<nat>)

  /** What a failing driver function returns. */
  type Errno = e: int | e < 0 witness -1

  /** What `bdrv_make_empty` does: not implemented, success, or an error after dropping some of the sectors. */
  datatype MakeEmpty = Absent | Succeeds | Fails(error: Errno, dropped: set<nat>)

  function Emptied(img: Image, dropped: set<nat>): (r: Image)
    requires |img.data| == |img.alloc|
  {
    img.(alloc := seq(|img.alloc|, t requires 0 <= t < |img.alloc| => img.alloc[t] && t !in dropped))
  }

  /** Writing `n` sectors of `data` from `sector` on. */
  function Written(img: Image, sector: nat, data: seq<Val>): (r: Image)
    requires |img.data| == |img.alloc| && sector + |data| <= |img.alloc|
  {
    Image(img.alloc[..sector] + seq(|data|, _ => true) + img.alloc[sector + |data|..],
          img.data[..sector] + data + img.data[sector + |data|..])
  }

  /** Below `done`, the backing image holds everything the top image has. */
  ghost predicate Committed(top: Image, base: Image, done: nat)
  {
    forall t: nat :: t < done && Has(top, t) ==> Has(base, t) && base.data[t] == top.data[t]
  }

  /** Only sectors the top image has may differ from the original backing image. */
  ghost predicate OnlyShadowed(top: Image, base0: Image, base: Image)
  {
    && Sized(base) && |base.alloc| == |base0.alloc|
    && forall t: nat :: !Has(top, t) ==>
        Has(base, t) == Has(base0, t) && (Has(base, t) ==> base.data[t] == base0.data[t])
  }

  /** As long as only shadowed sectors of the backing image changed, the view of the chain is the same. */
  lemma ShadowedView(top: Image, base0: Image, base: Image, below: seq<Image>)
    requires OnlyShadowed(top, base0, base)
    ensures SameView([top, base] + below, [top, base0] + below)
  {
    forall t: nat
      ensures ViewAt([top, base] + below, t) == ViewAt([top, base0] + below, t)
    {
      TwoLayers(top, base, below, t);
      TwoLayers(top, base0, below, t);
    }
  }

  lemma TwoLayers(top: Image, base: Image, below: seq<Image>, t: nat)
    ensures ViewAt([top, base] + below, t)
         == if Has(top, t) then top.data[t] else if t < |top.alloc| then ViewAt([base] + below, t) else 0
    ensures ViewAt([base] + below, t)
         == if Has(base, t) then base.data[t] else if t < |base.alloc| then ViewAt(below, t) else 0
  {
    assert ([top, base] + below)[1..] == [base] + below && ([base] + below)[1..] == below;
  }

  /** Once everything is committed, sectors may leave the top image without the view noticing. */
  lemma EmptiedView(top: Image, base: Image, dropped: set<nat>, below: seq<Image>)
    requires Sized(top) && Committed(top, base, |top.alloc|)
    ensures SameView([Emptied(top, dropped), base] + below, [top, base] + below)
    ensures SameUpTo([base] + below, [top, base] + below, |top.alloc|)
    ensures SameView([base] + below, [top, base] + below) <==> EndsBy([base] + below, |top.alloc|)
    ensures |base.alloc| <= |top.alloc| ==> EndsBy([base] + below, |top.alloc|)
  {
    forall t: nat
      ensures ViewAt([Emptied(top, dropped), base] + below, t) == ViewAt([top, base] + below, t)
      ensures ViewAt([top, base] + below, t) == if t < |top.alloc| then ViewAt([base] + below, t) else 0
      ensures |base.alloc| <= |top.alloc| <= t ==> ViewAt([base] + below, t) == 0
    {
      TwoLayers(top, base, below, t);
      TwoLayers(Emptied(top, dropped), base, below, t);
    }
    if !EndsBy([base] + below, |top.alloc|) {
      var t: nat :| t >= |top.alloc| && ViewAt([base] + below, t) != 0;
      assert ViewAt([base] + below, t) != ViewAt([top, base] + below, t);
    }
  }

  /** Sectors from `sector` on that a driver transfers before the first fault or the end of the image. */
  method GoodRun(sector: nat, n: nat, size: nat, bad: set<nat>) returns (k: nat)
    ensures k <= n && (k > 0 ==> sector + k <= size) && forall t :: sector <= t < sector + k ==> t !in bad
    ensures k < n ==> sector + k in bad || sector + k >= size
  {
    k := 0;
    while k < n && sector + k !in bad && sector + k < size
      invariant k <= n && (k > 0 ==> sector + k <= size) && forall t :: sector <= t < sector + k ==> t !in bad
    {
      k := k + 1;
    }
  }

  /** Copying one run of sectors the top image has keeps the backing image shadowed, and commits the run. */
  lemma CopyRun(top: Image, base0: Image, base: Image, sector: nat, n: nat)
    requires Sized(top) && OnlyShadowed(top, base0, base) && sector + n <= |top.alloc| && sector + n <= |base.alloc|
    requires forall t :: sector <= t < sector + n ==> top.alloc[t]
    ensures OnlyShadowed(top, base0, Written(base, sector, top.data[sector..sector + n]))
    ensures Committed(top, base, sector) ==>
              Committed(top, Written(base, sector, top.data[sector..sector + n]), sector + n)
  {
    var w := Written(base, sector, top.data[sector..sector + n]);
    forall t: nat | t < |base.alloc|
      ensures w.alloc[t] == (base.alloc[t] || sector <= t < sector + n)
      ensures w.data[t] == if sector <= t < sector + n then top.data[t] else base.data[t]
    {
    }
  }

  /** The copying loop of `bdrv_commit`: it succeeds exactly when every sector the top image has can be carried over.
      A write that fails partway leaves its first sectors written. */
  method CommitSectors(top: Image, base0: Image, faults: Faults) returns (ok: bool, base: Image)
    requires Sized(top) && Sized(base0)
    ensures OnlyShadowed(top, base0, base)
    ensures ok ==> Committed(top, base, |top.alloc|)
    ensures ok <==> forall t: nat :: t < |top.alloc| && top.alloc[t] ==>
                      t !in faults.read && t !in faults.write && t < |base0.alloc|
  {
    base, ok := base0, true;
    var sector: nat := 0;
    while sector < |top.alloc|
      invariant sector <= |top.alloc| && OnlyShadowed(top, base0, base) && Committed(top, base, sector)
      invariant forall t :: 0 <= t < sector && top.alloc[t] ==>
                  t !in faults.read && t !in faults.write && t < |base0.alloc|
    {
      var present, n := IsAllocated(top.alloc, sector, COMMIT_BUF_SECTORS);
      if present {
        var r := GoodRun(sector, n, |top.alloc|, faults.read);
        if r < n {
          assert top.alloc[sector + r];
          return false, base;
        }
        var k := GoodRun(sector, n, |base.alloc|, faults.write);
        if k > 0 {
          CopyRun(top, base0, base, sector, k);
          base := Written(base, sector, top.data[sector..sector + k]);
        }
        if k < n {
          assert top.alloc[sector + k];
          return false, base;
        }
      }
      sector := sector + n;
    }
  }

  /** `bdrv_commit`: on every exit, also after a failure partway, the guest's view is what it was; after success the
      backing chain alone shows that view, over the sectors of the image, and altogether if and only if nothing is to
      be seen behind them, as when the backing image is no longer. */
  method Commit(bs: BlockDriverState, ghost below: seq<Image>, faults: Faults, reopens: bool, makeEmpty: MakeEmpty)
    returns (ret: int)
    requires Sized(bs.content.img) && bs.content.backing != bs
    requires bs.content.backing != null ==> Sized(bs.content.backing.content.img)
    modifies bs, if bs.content.backing == null then {} else {bs.content.backing}
    ensures bs.content == old(bs.content).(img := bs.content.img) && bs.feat == old(bs.feat)
    ensures old(bs.content.drv) == "" ==> ret == -ENOMEDIUM && bs.content == old(bs.content)
    ensures old(bs.content.drv) != "" && bs.content.backing == null ==> ret == -ENOTSUP && bs.content == old(bs.content)
    ensures old(bs.content.drv) != "" && bs.content.backing != null ==>
              var backing := bs.content.backing;
              if bs.feat.inUse || old(backing.feat.inUse) then ret == -EBUSY && unchanged(bs) && unchanged(backing)
              else if old(backing.content.readOnly) && !reopens then
                ret == -EACCES && unchanged(bs) && unchanged(backing)
              else if exists t: nat ::
                        && old(t < |bs.content.img.alloc| && bs.content.img.alloc[t])
                        && (t in faults.read || t in faults.write || t >= old(|backing.content.img.alloc|)) then
                ret == -EIO && unchanged(bs)
              else ret == if makeEmpty.Fails? then makeEmpty.error else 0
    ensures bs.content.backing != null ==>
              && bs.content.backing.feat == old(bs.content.backing.feat)
              && bs.content.backing.content == old(bs.content.backing.content).(img := bs.content.backing.content.img)
    ensures makeEmpty.Absent? ==> bs.content.img == old(bs.content.img)
    ensures bs.content.backing != null ==>
              SameView([bs.content.img, bs.content.backing.content.img] + below,
                       old([bs.content.img, bs.content.backing.content.img] + below))
    ensures ret == 0 ==>
              && bs.content.backing != null
              && SameUpTo([bs.content.backing.content.img] + below,
                          old([bs.content.img, bs.content.backing.content.img] + below), old(|bs.content.img.alloc|))
              && (SameView([bs.content.backing.content.img] + below,
                           old([bs.content.img, bs.content.backing.content.img] + below))
                  <==> EndsBy([bs.content.backing.content.img] + below, old(|bs.content.img.alloc|)))
              && (old(|bs.content.backing.content.img.alloc|) <= old(|bs.content.img.alloc|) ==>
                    EndsBy([bs.content.backing.content.img] + below, old(|bs.content.img.alloc|)))
              && (makeEmpty.Succeeds? ==> forall t: nat :: !Has(bs.content.img, t))
  {
    if bs.content.drv == "" {
      return -ENOMEDIUM;
    }
    var backing := bs.content.backing;
    if backing == null {
      return -ENOTSUP;
    }
    if bs.feat.inUse || backing.feat.inUse {
      return -EBUSY;
    }
    if backing.content.readOnly && !reopens {
      return -EACCES;
    }
    hide SameView, SameUpTo, EndsBy, Committed, OnlyShadowed;
    var top, base0 := bs.content.img, backing.content.img;
    var ok, base := CommitSectors(top, base0, faults);
    backing.content := backing.content.(img := base);
    ShadowedView(top, base0, base, below);
    if !ok {
      return -EIO;
    }
    ret := 0;
    var all := set t: nat | t < |top.alloc| && top.alloc[t];
    EmptiedView(top, base, all, below);
    SameViewTrans([base] + below, [top, base] + below, [top, base0] + below, |top.alloc|);
    if !makeEmpty.Absent? {
      var dropped := if makeEmpty.Succeeds? then all else makeEmpty.dropped;
      bs.content := bs.content.(img := Emptied(top, dropped));
      EmptiedView(top, base, dropped, below);
      SameViewTrans([Emptied(top, dropped), base] + below, [top, base] + below, [top, base0] + below, 0);
      if makeEmpty.Fails? {
        ret := makeEmpty.error;
      }
    }
  }

  lemma SameViewTrans(a: seq<Image>, b: seq<Image>, c: seq<Image>, n: nat)
    requires SameView(b, c)
    ensures SameView(a, b) <==> SameView(a, c)
    ensures SameUpTo(a, b, n) ==> SameUpTo(a, c, n)
  {
    forall t: nat
      ensures ViewAt(a, t) == ViewAt(b, t) <==> ViewAt(a, t) == ViewAt(c, t)
    {
      assert ViewAt(b, t) == ViewAt(c, t);
    }
  }
}
