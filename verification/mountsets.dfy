/** Sets beside the mount points. Together with Sets below them they keep the mounted
    layout, so what Mounts says of it holds after any number of either. */
module MountSets {
  import opened Text
  import opened Views
  import opened Graphs
  import opened Trees
  import opened Mounts

  /** z neither leads to a mount point nor lies below one. */
  ghost predicate Beside(a: string, b: string, s: string, z: Path)
  {
    forall m :: m in MountPoints(a, b, s) ==> Incomparable(m, z)
  }

  ghost predicate SameEntry<R>(g: Graph<R>, g': Graph<R>, d: R, k: string)
  {
    d in g && d in g' && (k in g[d] <==> k in g'[d]) && (k in g[d] ==> g[d][k] == g'[d][k])
  }

  lemma OneMore(a: Path, p: Path)
    requires p != []
    ensures (a + [p[0]]) + p[1..] == a + p
    ensures Above(a + [p[0]], a + p)
    ensures |p| == 1 ==> a + [p[0]] == a + p
  {
  }

  lemma AboveParent(a: Path, k: string, z: Path)
    ensures Above(a + [k], z) ==> Above(a, z)
  {
    AboveNext(a, k, z);
  }

  /** A step of the walk beside the mount points stays in the outer part. */
  lemma OuterStep<R>(g: Graph<R>, a: string, b: string, s: string, l: Layout<R>, c: R, p: Path)
    requires Mounted(g, a, b, s, l) && c in l.outer && p != [] && Beside(a, b, s, l.outer[c] + p)
    ensures l.outer[c] + [p[0]] !in MountPoints(a, b, s)
    ensures p[0] in g[c] && g[c][p[0]].Sub? ==> g[c][p[0]].node in l.outer && l.outer[g[c][p[0]].node] == l.outer[c] + [p[0]]
    ensures (l.outer[c] + [p[0]]) + p[1..] == l.outer[c] + p
  {
    OneMore(l.outer[c], p);
    assert OuterAt(g, a, b, s, l, c);
    if p[0] in g[c] && g[c][p[0]].Sub? {
      assert OuterEntry(a, b, s, l, l.outer[c] + [p[0]], g[c][p[0]].node);
    }
  }

  /** Creating a configuration never changes what already reads as something. */
  lemma {:induction false} LookupGrows<R>(g: Graph<R>, c: R, k: string, n: R, e: R, q: Path)
    requires Closed(g) && c in g && k !in g[c] && n !in g && Closed(WithChild(g, c, k, n))
    requires e in g && q != [] && Lookup(g, e, q).Some?
    ensures Lookup(WithChild(g, c, k, n), e, q) == Lookup(g, e, q)
    decreases q
  {
    if |q| > 1 { LookupGrows(g, c, k, n, g[e][q[0]].node, q[1..]); }
  }

  ghost function WithAddress<R>(l: Layout<R>, c: R, k: string, n: R): Layout<R>
    requires c in l.outer
  {
    l.(outer := l.outer[n := l.outer[c] + [k]])
  }

  /** The layout grows by a configuration created beside the mount points. */
  lemma MountedWithChild<R>(g: Graph<R>, a: string, b: string, s: string, l: Layout<R>, c: R, k: string, n: R)
    requires Mounted(g, a, b, s, l) && c in l.outer && n !in g && k !in g[c]
    requires l.outer[c] + [k] !in MountPoints(a, b, s)
    ensures Mounted(WithChild(g, c, k, n), a, b, s, WithAddress(l, c, k, n))
  {
    var g1: Graph<R>, l1 := WithChild(g, c, k, n), WithAddress(l, c, k, n);
    assert Closed(g1);
    forall d | d in l.inner
      ensures d in g1 && PlacedAt(g1, l.inner, d)
    {
      assert PlacedAt(g, l.inner, d);
    }
    forall d | d in l1.outer
      ensures d in g1 && OuterAt(g1, a, b, s, l1, d)
    {
      if d != n {
        assert OuterAt(g, a, b, s, l, d);
        OuterAtGrows(g, a, b, s, l, c, k, n, d);
      }
    }
    forall m | m in MountPoints(a, b, s)
      ensures Lookup(g1, l.main, m) == Some(Sub(l.shared))
    {
      LookupGrows(g, c, k, n, l.main, m);
    }
  }

  lemma OuterAtGrows<R>(g: Graph<R>, a: string, b: string, s: string, l: Layout<R>, c: R, k: string, n: R, d: R)
    requires Mounted(g, a, b, s, l) && c in l.outer && n !in g && k !in g[c] && d in l.outer
    requires l.outer[c] + [k] !in MountPoints(a, b, s)
    ensures OuterAt(WithChild(g, c, k, n), a, b, s, WithAddress(l, c, k, n), d)
  {
    var g1: Graph<R>, l1 := WithChild(g, c, k, n), WithAddress(l, c, k, n);
    assert OuterAt(g, a, b, s, l, d);
    forall kk | kk in g1[d] && g1[d][kk].Sub?
      ensures OuterEntry(a, b, s, l1, l1.outer[d] + [kk], g1[d][kk].node)
    {
      if !(d == c && kk == k) {
        assert OuterEntry(a, b, s, l, l.outer[d] + [kk], g[d][kk].node);
      }
    }
  }

  // ---------------------------------------------------------------- what Set leaves alone

  /** Set changes only entries on the way to its end. */
  lemma {:induction false} SetOuterFrame<R>(g: Graph<R>, a: string, b: string, s: string, l: Layout<R>, c: R, p: Path, v: Value<R>, supply: seq<R>, d: R, k: string)
    requires Mounted(g, a, b, s, l) && c in l.outer && p != [] && Beside(a, b, s, l.outer[c] + p)
    requires v.Leaf? && Unused(g, supply) && |supply| == Missing(g, c, p)
    requires d in l.inner || (d in l.outer && !Above(l.outer[c] + [p[0]], l.outer[d] + [k]))
    ensures SameEntry(g, SetGraph(g, c, p, v, supply).0, d, k)
    decreases p, 1
  {
    OuterStep(g, a, b, s, l, c, p);
    if |p| == 1 {
      if d in l.outer { assert !(d == c && k == p[0]); }
    } else {
      if d in l.outer { AboveParent(l.outer[c] + [p[0]], p[1], l.outer[d] + [k]); }
      if p[0] !in g[c] {
        NewOuterFrame(g, a, b, s, l, c, p, v, supply, d, k);
      } else if g[c][p[0]].Sub? {
        SetOuterFrame(g, a, b, s, l, g[c][p[0]].node, p[1..], v, supply, d, k);
      }
    }
  }

  lemma {:induction false} NewOuterFrame<R>(g: Graph<R>, a: string, b: string, s: string, l: Layout<R>, c: R, p: Path, v: Value<R>, supply: seq<R>, d: R, k: string)
    requires Mounted(g, a, b, s, l) && c in l.outer && |p| > 1 && Beside(a, b, s, l.outer[c] + p) && p[0] !in g[c]
    requires v.Leaf? && Unused(g, supply) && |supply| == Missing(g, c, p)
    requires d in l.inner || (d in l.outer && !Above(l.outer[c] + [p[0]], l.outer[d] + [k]))
    requires d in l.outer ==> !Above(l.outer[c] + [p[0]] + [p[1]], l.outer[d] + [k])
    ensures SameEntry(g, SetGraph(g, c, p, v, supply).0, d, k)
    decreases p, 0
  {
    var n := supply[0];
    var g1, l1 := WithChild(g, c, p[0], n), WithAddress(l, c, p[0], n);
    OuterStep(g, a, b, s, l, c, p);
    MountedWithChild(g, a, b, s, l, c, p[0], n);
    assert Unused(g1, supply[1..]);
    SetOuterFrame(g1, a, b, s, l1, n, p[1..], v, supply[1..], d, k);
    OtherEntry(g, c, p[0], n, d, k, if d in l.outer then l.outer[d] else [], l.outer[c]);
  }

  lemma OtherEntry<R>(g: Graph<R>, c: R, j: string, n: R, d: R, k: string, at: Path, to: Path)
    requires c in g && d in g && n !in g
    requires d == c && k == j ==> at == to && !Above(to + [j], at + [k])
    ensures SameEntry(g, WithChild(g, c, j, n), d, k)
  {
  }

  /** Stores with the same entries are equal. */
  lemma SameStore<R>(g: Graph<R>, g': Graph<R>, d: R)
    requires d in g && d in g' && forall k :: SameEntry(g, g', d, k)
    ensures g'[d] == g[d]
  {
    forall k: string
      ensures k in g[d] <==> k in g'[d]
      ensures k in g[d] ==> g[d][k] == g'[d][k]
    {
      assert SameEntry(g, g', d, k);
    }
  }

  /** A node off the way, or at or below the shared configuration, is not touched. */
  lemma NodeStays<R>(g: Graph<R>, a: string, b: string, s: string, l: Layout<R>, c: R, p: Path, v: Value<R>, supply: seq<R>, d: R)
    requires Mounted(g, a, b, s, l) && c in l.outer && p != [] && Beside(a, b, s, l.outer[c] + p)
    requires v.Leaf? && Unused(g, supply) && |supply| == Missing(g, c, p)
    requires d in l.inner || (d in l.outer && forall k :: !Above(l.outer[c] + [p[0]], l.outer[d] + [k]))
    ensures d in g && SetGraph(g, c, p, v, supply).0[d] == g[d]
  {
    var g' := SetGraph(g, c, p, v, supply).0;
    forall k: string
      ensures SameEntry(g, g', d, k)
    {
      SetOuterFrame(g, a, b, s, l, c, p, v, supply, d, k);
    }
    SameStore(g, g', d);
  }

  /** Reading past another child of c is not affected. */
  lemma SetOuterAside<R>(g: Graph<R>, a: string, b: string, s: string, l: Layout<R>, c: R, p: Path, v: Value<R>, supply: seq<R>, q: Path)
    requires Mounted(g, a, b, s, l) && c in l.outer && p != [] && Beside(a, b, s, l.outer[c] + p)
    requires v.Leaf? && Unused(g, supply) && |supply| == Missing(g, c, p)
    requires q != [] && q[0] != p[0]
    ensures Lookup(SetGraph(g, c, p, v, supply).0, c, q) == Lookup(g, c, q)
  {
    var g' := SetGraph(g, c, p, v, supply).0;
    BranchApart(l.outer[c], p[0], q[0], l.outer[c], q[0]);
    SetOuterFrame(g, a, b, s, l, c, p, v, supply, c, q[0]);
    if |q| > 1 && q[0] in g[c] && g[c][q[0]].Sub? {
      var apart := Branch(l, l.outer[c] + [q[0]]);
      BranchClosed(g, a, b, s, l, c, q[0]);
      forall e | e in apart
        ensures e in g && g'[e] == g[e]
      {
        if e in l.outer {
          forall k: string ensures !Above(l.outer[c] + [p[0]], l.outer[e] + [k]) {
            BranchApart(l.outer[c], p[0], q[0], l.outer[e], k);
          }
        }
        NodeStays(g, a, b, s, l, c, p, v, supply, e);
      }
      LookupFrame(g, g', apart, g[c][q[0]].node, q[1..]);
    }
  }

  /** The nodes that can be reached at or below address z. */
  ghost function Branch<R>(l: Layout<R>, z: Path): set<R>
  {
    (set e | e in l.outer && Above(z, l.outer[e])) + l.inner.Keys
  }

  lemma BranchApart(c: Path, k: string, l: string, e: Path, j: string)
    requires k != l && ((e == c && j == l) || Above(c + [l], e))
    ensures !Above(c + [k], e + [j])
  {
    var z := e + [j];
    AboveNext(c, k, z);
    AboveNext(c, l, e);
    assert |c| < |e| ==> z[|c|] == e[|c|];
    assert z[|e|] == j;
  }

  lemma BranchClosed<R>(g: Graph<R>, a: string, b: string, s: string, l: Layout<R>, c: R, k: string)
    requires Mounted(g, a, b, s, l) && c in l.outer && k in g[c] && g[c][k].Sub?
    ensures g[c][k].node in Branch(l, l.outer[c] + [k])
    ensures forall e, j :: e in Branch(l, l.outer[c] + [k]) && j in g[e] && g[e][j].Sub? ==> g[e][j].node in Branch(l, l.outer[c] + [k])
  {
    var z := l.outer[c] + [k];
    assert OuterAt(g, a, b, s, l, c);
    assert OuterEntry(a, b, s, l, z, g[c][k].node);
    forall e, j | e in Branch(l, z) && j in g[e] && g[e][j].Sub?
      ensures g[e][j].node in Branch(l, z)
    {
      if e in l.outer {
        assert OuterAt(g, a, b, s, l, e);
        assert OuterEntry(a, b, s, l, l.outer[e] + [j], g[e][j].node);
        AboveTrans(z, l.outer[e], l.outer[e] + [j]);
        assert (l.outer[e] + [j])[..|l.outer[e]|] == l.outer[e];
      } else {
        assert PlacedAt(g, l.inner, e);
      }
    }
  }

  // ---------------------------------------------------------------- what Set does

  /** After a successful Set beside the mount points every path reads as the view update says. */
  lemma {:induction false} SetOuterReads<R>(g: Graph<R>, a: string, b: string, s: string, l: Layout<R>, c: R, p: Path, v: Value<R>, supply: seq<R>, q: Path)
    requires Mounted(g, a, b, s, l) && c in l.outer && p != [] && Beside(a, b, s, l.outer[c] + p)
    requires v.Leaf? && Unused(g, supply) && |supply| == Missing(g, c, p)
    requires SetGraph(g, c, p, v, supply).1 && q != []
    ensures ReadKind(SetGraph(g, c, p, v, supply).0, c, q) == SetAt(ViewOf(g, c), p, PutOf(g, v), q)
    decreases p, 1
  {
    OuterStep(g, a, b, s, l, c, p);
    if q[0] != p[0] {
      SetOuterAside(g, a, b, s, l, c, p, v, supply, q);
      FirstDiffers(ViewOf(g, c), p, PutOf(g, v), q);
    } else if |p| == 1 {
      EndReads(g, c, p, v, q);
    } else if p[0] !in g[c] {
      SetNewReads(g, a, b, s, l, c, p, v, supply, q);
    } else {
      SetPassReads(g, a, b, s, l, c, p, g[c][p[0]].node, v, supply, q);
    }
  }

  lemma {:induction false} SetPassReads<R>(g: Graph<R>, a: string, b: string, s: string, l: Layout<R>, c: R, p: Path, d: R, v: Value<R>, supply: seq<R>, q: Path)
    requires Mounted(g, a, b, s, l) && c in l.outer && |p| > 1 && Beside(a, b, s, l.outer[c] + p)
    requires v.Leaf? && Unused(g, supply) && |supply| == Missing(g, c, p)
    requires SetGraph(g, c, p, v, supply).1 && q != [] && q[0] == p[0] && p[0] in g[c] && g[c][p[0]] == Sub(d)
    ensures ReadKind(SetGraph(g, c, p, v, supply).0, c, q) == SetAt(ViewOf(g, c), p, PutOf(g, v), q)
    decreases p, 0
  {
    OuterStep(g, a, b, s, l, c, p);
    PassesEntry(g, a, b, s, l, c, p[0], d, p[1..], v, supply);
    if |q| > 1 {
      SetOuterReads(g, a, b, s, l, d, p[1..], v, supply, q[1..]);
      ReadKindBelow(g, c, q);
      ReadKindBelow(SetGraph(g, c, p, v, supply).0, c, q);
      SetAtBelow(ViewOf(g, c), ViewOf(g, d), p, PutOf(g, v), q);
    } else {
      FirstAbove(q, p);
    }
  }

  lemma FirstDiffers(t: View, p: Path, w: Put, q: Path)
    requires p != [] && q != [] && q[0] != p[0]
    ensures SetAt(t, p, w, q) == At(t, q)
  {
    assert !StrictlyAbove(p, q) && !StrictlyAbove(q, p);
  }

  lemma EndReads<R>(g: Graph<R>, c: R, p: Path, v: Value<R>, q: Path)
    requires Closed(g) && c in g && |p| == 1 && v.Leaf? && q != [] && q[0] == p[0]
    ensures ReadKind(SetGraph(g, c, p, v, []).0, c, q) == SetAt(ViewOf(g, c), p, PutOf(g, v), q)
  {
    assert p == [p[0]];
    if |q| == 1 { assert q == p; } else { assert StrictlyAbove(p, q); }
  }

  /** The entry through which the walk reaches d stays. */
  lemma PassesEntry<R>(g: Graph<R>, a: string, b: string, s: string, l: Layout<R>, c: R, k: string, d: R, p: Path, v: Value<R>, supply: seq<R>)
    requires Mounted(g, a, b, s, l) && c in l.outer && d in l.outer && l.outer[d] == l.outer[c] + [k]
    requires p != [] && Beside(a, b, s, l.outer[d] + p)
    requires v.Leaf? && Unused(g, supply) && |supply| == Missing(g, d, p)
    ensures SameEntry(g, SetGraph(g, d, p, v, supply).0, c, k)
  {
    SetOuterFrame(g, a, b, s, l, d, p, v, supply, c, k);
  }

  lemma {:induction false} SetNewReads<R>(g: Graph<R>, a: string, b: string, s: string, l: Layout<R>, c: R, p: Path, v: Value<R>, supply: seq<R>, q: Path)
    requires Mounted(g, a, b, s, l) && c in l.outer && |p| > 1 && Beside(a, b, s, l.outer[c] + p)
    requires v.Leaf? && Unused(g, supply) && |supply| == Missing(g, c, p)
    requires SetGraph(g, c, p, v, supply).1 && q != [] && q[0] == p[0] && p[0] !in g[c]
    ensures ReadKind(SetGraph(g, c, p, v, supply).0, c, q) == SetAt(ViewOf(g, c), p, PutOf(g, v), q)
    decreases p, 0
  {
    var n := supply[0];
    var g1, l1 := WithChild(g, c, p[0], n), WithAddress(l, c, p[0], n);
    OuterStep(g, a, b, s, l, c, p);
    MountedWithChild(g, a, b, s, l, c, p[0], n);
    assert Unused(g1, supply[1..]);
    PassesEntry(g1, a, b, s, l1, c, p[0], n, p[1..], v, supply[1..]);
    if |q| > 1 {
      SetOuterReads(g1, a, b, s, l1, n, p[1..], v, supply[1..], q[1..]);
      ReadKindBelow(SetGraph(g, c, p, v, supply).0, c, q);
      NothingUnder(g, c, q);
      NothingUnder(g1, n, q[1..]);
      SetAtBelow(ViewOf(g, c), ViewOf(g1, n), p, PutOf(g, v), q);
    } else {
      FirstAbove(q, p);
    }
  }

  /** A walk that does not pass an overwritten entry reads as before. */
  lemma {:induction false} OverwriteWalk<R>(g: Graph<R>, a: string, b: string, s: string, l: Layout<R>, c: R, k: string, v: Value<R>, e: R, q: Path)
    requires Mounted(g, a, b, s, l) && c in l.outer && e in l.outer && q != [] && v.Leaf?
    requires !Above(l.outer[c] + [k], l.outer[e] + q)
    requires forall m :: m in MountPoints(a, b, s) ==> !StrictlyAbove(m, l.outer[e] + q)
    ensures Closed(g[c := g[c][k := v]]) && Lookup(g[c := g[c][k := v]], e, q) == Lookup(g, e, q)
    decreases q
  {
    OneMore(l.outer[e], q);
    assert OuterAt(g, a, b, s, l, e);
    if |q| > 1 && q[0] in g[e] && g[e][q[0]].Sub? {
      var z := l.outer[e] + [q[0]];
      assert OuterEntry(a, b, s, l, z, g[e][q[0]].node);
      assert StrictlyAbove(z, l.outer[e] + q);
      OverwriteWalk(g, a, b, s, l, c, k, v, g[e][q[0]].node, q[1..]);
    }
  }

  /** Storing a plain value directly beside the mount points keeps the layout. */
  lemma OverwriteKeeps<R>(g: Graph<R>, a: string, b: string, s: string, l: Layout<R>, c: R, k: string, v: Value<R>)
    requires Names(a, b, s) && Mounted(g, a, b, s, l) && c in l.outer && v.Leaf? && Beside(a, b, s, l.outer[c] + [k])
    ensures Mounted(g[c := g[c][k := v]], a, b, s, l)
  {
    var g': Graph<R> := g[c := g[c][k := v]];
    forall d | d in l.inner
      ensures d in g' && PlacedAt(g', l.inner, d)
    {
      assert PlacedAt(g, l.inner, d);
    }
    forall d | d in l.outer
      ensures d in g' && OuterAt(g', a, b, s, l, d)
    {
      assert OuterAt(g, a, b, s, l, d);
    }
    MountPointsApart(a, b, s);
    forall m | m in MountPoints(a, b, s)
      ensures Closed(g') && Lookup(g', l.main, m) == Some(Sub(l.shared))
    {
      assert l.outer[l.main] + m == m;
      OverwriteWalk(g, a, b, s, l, c, k, v, l.main, m);
    }
  }

  lemma {:induction false} SetOuterKeeps<R>(g: Graph<R>, a: string, b: string, s: string, l: Layout<R>, c: R, p: Path, v: Value<R>, supply: seq<R>)
    returns (l': Layout<R>)
    requires Names(a, b, s) && Mounted(g, a, b, s, l) && c in l.outer && p != [] && Beside(a, b, s, l.outer[c] + p)
    requires v.Leaf? && Unused(g, supply) && |supply| == Missing(g, c, p)
    ensures Mounted(SetGraph(g, c, p, v, supply).0, a, b, s, l')
    ensures l'.main == l.main && l'.shared == l.shared && l'.inner == l.inner
    decreases p
  {
    OuterStep(g, a, b, s, l, c, p);
    l' := l;
    if |p| == 1 {
      OneMore(l.outer[c], p);
      OverwriteKeeps(g, a, b, s, l, c, p[0], v);
    } else if p[0] !in g[c] {
      var n := supply[0];
      MountedWithChild(g, a, b, s, l, c, p[0], n);
      assert Unused(WithChild(g, c, p[0], n), supply[1..]);
      l' := SetOuterKeeps(WithChild(g, c, p[0], n), a, b, s, WithAddress(l, c, p[0], n), n, p[1..], v, supply[1..]);
    } else if g[c][p[0]].Sub? {
      l' := SetOuterKeeps(g, a, b, s, l, g[c][p[0]].node, p[1..], v, supply);
    }
  }

  /** Set of a plain value beside the mount points: main's view is updated as if nothing
      were shared, the shared configuration does not change, and the layout is kept. */
  lemma SetBesideMounts<R>(g: Graph<R>, g': Graph<R>, a: string, b: string, s: string, l: Layout<R>, p: Path, x: Scalar, supply: seq<R>, ok: bool)
    returns (l': Layout<R>)
    requires Names(a, b, s) && Mounted(g, a, b, s, l) && Beside(a, b, s, p) && p != []
    requires Sets(g, g', l.main, p, Leaf(x), supply, ok)
    ensures Mounted(g', a, b, s, l') && l'.main == l.main && l'.shared == l.shared
    ensures l.main in g' && l.shared in g && l.shared in g'
    ensures ViewOf(g', l.main) == Apply(ViewOf(g, l.main), p, PutLeaf(x))
    ensures ViewOf(g', l.shared) == ViewOf(g, l.shared)
    ensures ok <==> !Blocked(ViewOf(g, l.main), p)
  {
    assert l.outer[l.main] + p == p;
    l' := SetOuterKeeps(g, a, b, s, l, l.main, p, Leaf(x), supply);
    SharedViewStays(g, a, b, s, l, l.main, p, Leaf(x), supply);
    OuterViewUpdated(g, a, b, s, l, l.main, p, Leaf(x), supply);
  }

  lemma OuterViewUpdated<R>(g: Graph<R>, a: string, b: string, s: string, l: Layout<R>, c: R, p: Path, v: Value<R>, supply: seq<R>)
    requires Mounted(g, a, b, s, l) && c in l.outer && p != [] && Beside(a, b, s, l.outer[c] + p)
    requires v.Leaf? && Unused(g, supply) && |supply| == Missing(g, c, p)
    ensures ViewOf(SetGraph(g, c, p, v, supply).0, c) == Apply(ViewOf(g, c), p, PutOf(g, v))
    ensures SetGraph(g, c, p, v, supply).1 <==> !Blocked(ViewOf(g, c), p)
  {
    SetSucceeds(g, c, p, v, supply);
    var r := SetGraph(g, c, p, v, supply);
    if r.1 {
      forall q: Path | q != []
        ensures ReadKind(r.0, c, q) == SetAt(ViewOf(g, c), p, PutOf(g, v), q)
      {
        SetOuterReads(g, a, b, s, l, c, p, v, supply, q);
      }
      assert ViewOf(r.0, c) == SetView(ViewOf(g, c), p, PutOf(g, v));
    } else {
      SetFails(g, c, p, v, supply);
    }
  }

  lemma SharedViewStays<R>(g: Graph<R>, a: string, b: string, s: string, l: Layout<R>, c: R, p: Path, v: Value<R>, supply: seq<R>)
    requires Mounted(g, a, b, s, l) && c in l.outer && p != [] && Beside(a, b, s, l.outer[c] + p)
    requires v.Leaf? && Unused(g, supply) && |supply| == Missing(g, c, p)
    ensures l.shared in g && l.shared in SetGraph(g, c, p, v, supply).0
    ensures ViewOf(SetGraph(g, c, p, v, supply).0, l.shared) == ViewOf(g, l.shared)
  {
    var g' := SetGraph(g, c, p, v, supply).0;
    forall d | d in l.inner
      ensures d in g' && g'[d] == g[d]
    {
      NodeStays(g, a, b, s, l, c, p, v, supply, d);
    }
    ViewFrame(g, g', l.inner, l.shared);
  }
}
