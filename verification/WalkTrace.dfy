/** What walks over a list do, in order, each entry with the depth of the walk that made it. Walks nest: what happens
    inside a callback is deeper than the walk that called it. */
module WalkTrace {
  datatype Entry<E> = Entry(depth: nat, what: E)

  /** What the walk at depth `d` itself did. */
  ghost function AtDepth<E>(t: seq<Entry<E>>, d: nat): (own: seq<E>)
  {
    if t == [] then []
    else AtDepth(t[..|t| - 1], d) + if t[|t| - 1].depth == d then [t[|t| - 1].what] else []
  }

  ghost predicate Deeper<E>(t: seq<Entry<E>>, d: nat)
  {
    forall i :: 0 <= i < |t| ==> t[i].depth > d
  }

  lemma {:induction false} AtDepthConcat<E>(s: seq<Entry<E>>, t: seq<Entry<E>>, d: nat)
    ensures AtDepth(s + t, d) == AtDepth(s, d) + AtDepth(t, d)
  {
    if t == [] {
      assert s + t == s;
    } else {
      var u := t[..|t| - 1];
      AtDepthConcat(s, u, d);
      assert (s + t)[..|s + t| - 1] == s + u;
    }
  }

  /** A walk does nothing itself while its callbacks are busy. */
  lemma {:induction false} DeeperIsOther<E>(t: seq<Entry<E>>, d: nat)
    requires Deeper(t, d)
    ensures AtDepth(t, d) == []
  {
    if t != [] {
      DeeperIsOther(t[..|t| - 1], d);
    }
  }

  lemma AtDepthSingle<E>(e: Entry<E>, d: nat)
    ensures AtDepth([e], d) == if e.depth == d then [e.what] else []
  {
    assert [e][..0] == [];
  }

  lemma DeeperConcat<E>(s: seq<Entry<E>>, t: seq<Entry<E>>, d: nat)
    requires Deeper(s, d) && Deeper(t, d)
    ensures Deeper(s + t, d)
  {
  }

  /** One entry of the walk's own, followed by what its callback does. */
  lemma OwnThenDeeper<E>(e: Entry<E>, t: seq<Entry<E>>)
    requires Deeper(t, e.depth)
    ensures AtDepth([e] + t, e.depth) == [e.what]
  {
    AtDepthConcat([e], t, e.depth);
    AtDepthSingle(e, e.depth);
    DeeperIsOther(t, e.depth);
  }
}
