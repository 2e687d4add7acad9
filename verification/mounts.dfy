/** One configuration mounted, by reference, into several subsystems: everything read or
    written below one mount is read or written below all of them, nothing else moves,
    and the graph stays acyclic. */
module Mounts {
  import opened Text
  import opened Views
  import opened Graphs
  import opened Trees

  /** The loop of PrepareSubsystemInit: each listed system that main has a configuration
      for is mounted into c. Failures are ignored. */
  ghost function MountAll<R>(g: Graph<R>, main: R, c: R, systems: seq<string>): (g': Graph<R>)
    requires Closed(g) && main in g && c in g
    ensures Closed(g') && g'.Keys == g.Keys
  {
    if systems == [] then g
    else
      var before := MountAll(g, main, c, systems[..|systems| - 1]);
      var system := PathOf(systems[|systems| - 1]);
      match Lookup(before, main, system)
      case Some(Sub(s)) => Mount(before, c, system, s).0
      case _ => before
  }

  lemma MountNext<R>(g: Graph<R>, main: R, c: R, systems: seq<string>, i: nat)
    requires Closed(g) && main in g && c in g && i < |systems|
    ensures var before := MountAll(g, main, c, systems[..i]);
            MountAll(g, main, c, systems[..i + 1]) ==
            match Lookup(before, main, PathOf(systems[i]))
            case Some(Sub(s)) => Mount(before, c, PathOf(systems[i]), s).0
            case _ => before
  {
    assert systems[..i + 1][..i] == systems[..i];
  }

  /** A listed system that main has no configuration for is skipped, and so is one that the
      subsystem has none for; the systems after it are still mounted. */
  lemma MissingIsSkipped<R>(g: Graph<R>, main: R, c: R, absent: string, system: string, s: R)
    requires Closed(g) && main in g && c in g && Lookup(g, main, PathOf(system)) == Some(Sub(s))
    requires !(Lookup(g, main, PathOf(absent)).Some? && Lookup(g, main, PathOf(absent)).value.Sub?)
          || !(Lookup(g, c, PathOf(absent)).Some? && Lookup(g, c, PathOf(absent)).value.Sub?)
    ensures MountAll(g, main, c, [absent, system]) == Mount(g, c, PathOf(system), s).0
  {
    var both := [absent, system];
    assert both[..0] == [] && both[..1] == [absent] && both[..2] == both;
    MountNext(g, main, c, both, 0);
    MountNext(g, main, c, both, 1);
  }

  /** The three places where the shared configuration hangs: under main itself and
      under the two subsystems. */
  ghost function MountPoints(a: string, b: string, s: string): set<Path>
  {
    {[s], [a, s], [b, s]}
  }

  ghost predicate Names(a: string, b: string, s: string)
  {
    a != b && a != s && b != s
  }

  /** The shape after mounting: outside the shared configuration r the graph is a tree,
      except that exactly the mount points lead to r; below r it is a tree. */
  datatype Layout<R> = Layout(main: R, shared: R, outer: map<R, Path>, inner: map<R, Path>)

  ghost predicate Mounted<R>(g: Graph<R>, a: string, b: string, s: string, l: Layout<R>)
  {
    && Closed(g)
    && l.shared in l.inner && l.inner[l.shared] == [] && Placed(g, l.inner)
    && l.main in l.outer && l.outer[l.main] == [] && l.outer.Keys !! l.inner.Keys
    && (forall c :: c in l.outer ==> c in g && OuterAt(g, a, b, s, l, c))
    && (forall m :: m in MountPoints(a, b, s) ==> Lookup(g, l.main, m) == Some(Sub(l.shared)))
  }

  ghost predicate OuterAt<R>(g: Graph<R>, a: string, b: string, s: string, l: Layout<R>, c: R)
    requires c in l.outer && c in g
  {
    forall k :: k in g[c] && g[c][k].Sub? ==> OuterEntry(a, b, s, l, l.outer[c] + [k], g[c][k].node)
  }

  ghost predicate OuterEntry<R>(a: string, b: string, s: string, l: Layout<R>, z: Path, d: R)
  {
    if z in MountPoints(a, b, s) then d == l.shared else d in l.outer && l.outer[d] == z
  }

  /** Reading below any mount point is reading below the shared configuration. */
  lemma MountsAgree<R>(g: Graph<R>, a: string, b: string, s: string, l: Layout<R>, m: Path, q: Path)
    requires Mounted(g, a, b, s, l) && m in MountPoints(a, b, s) && q != []
    ensures l.main in g && l.shared in g
    ensures Lookup(g, l.main, m + q) == Lookup(g, l.shared, q)
  {
    LookupSplit(g, l.main, m, q);
  }

  /** Set below a path that reads as a configuration is Set on that configuration. */
  lemma {:induction false} SetThrough<R>(g: Graph<R>, c: R, m: Path, d: R, p: Path, v: Value<R>, supply: seq<R>)
    requires Closed(g) && c in g && m != [] && p != [] && Lookup(g, c, m) == Some(Sub(d))
    requires v.Sub? ==> v.node in g
    ensures Missing(g, c, m + p) == Missing(g, d, p)
    ensures Unused(g, supply) && |supply| == Missing(g, d, p) ==> SetGraph(g, c, m + p, v, supply) == SetGraph(g, d, p, v, supply)
  {
    assert (m + p)[0] == m[0];
    if |m| == 1 {
      assert (m + p)[1..] == p;
    } else {
      assert (m + p)[1..] == m[1..] + p;
      SetThrough(g, g[c][m[0]].node, m[1..], d, p, v, supply);
    }
  }

  /** A walk that does not go below a mount point never leaves the outer part. */
  lemma {:induction false} OuterFrame<R>(g: Graph<R>, g': Graph<R>, a: string, b: string, s: string, l: Layout<R>, c: R, q: Path)
    requires Mounted(g, a, b, s, l) && Closed(g') && c in l.outer && q != []
    requires forall d :: d in l.outer ==> d in g' && g'[d] == g[d]
    requires forall m :: m in MountPoints(a, b, s) ==> !StrictlyAbove(m, l.outer[c] + q)
    ensures c in g && Lookup(g', c, q) == Lookup(g, c, q)
    decreases q
  {
    assert OuterAt(g, a, b, s, l, c);
    if |q| > 1 && q[0] in g[c] && g[c][q[0]].Sub? {
      var z := l.outer[c] + [q[0]];
      assert OuterEntry(a, b, s, l, z, g[c][q[0]].node);
      assert z + q[1..] == l.outer[c] + q;
      assert StrictlyAbove(z, l.outer[c] + q);
      OuterFrame(g, g', a, b, s, l, g[c][q[0]].node, q[1..]);
    }
  }

  /** Set of a plain value below a mount point: it updates the shared configuration's
      view, so it is seen through every mount point; every path that does not go below
      a mount point reads as before; and the layout is kept. */
  lemma SetBelowMount<R>(g: Graph<R>, g': Graph<R>, a: string, b: string, s: string, l: Layout<R>, m: Path, p: Path, x: Scalar, supply: seq<R>, ok: bool)
    returns (l': Layout<R>)
    requires Names(a, b, s) && Mounted(g, a, b, s, l) && m in MountPoints(a, b, s) && p != []
    requires Sets(g, g', l.main, m + p, Leaf(x), supply, ok)
    ensures Mounted(g', a, b, s, l') && l'.main == l.main && l'.shared == l.shared
    ensures l.main in g' && l.shared in g && l.shared in g'
    ensures ViewOf(g', l.shared) == Apply(ViewOf(g, l.shared), p, PutLeaf(x))
    ensures ok <==> !Blocked(ViewOf(g, l.shared), p)
    ensures forall n, q :: n in MountPoints(a, b, s) && q != [] ==> Lookup(g', l.main, n + q) == Lookup(g', l.shared, q)
    ensures forall q :: q != [] && (forall n :: n in MountPoints(a, b, s) ==> !StrictlyAbove(n, q)) ==>
              Lookup(g', l.main, q) == Lookup(g, l.main, q)
  {
    SetThrough(g, l.main, m, l.shared, p, Leaf(x), supply);
    SetRefines(g, l.inner, l.shared, p, Leaf(x), supply, {});
    var inner := SetPlaces(g, l.inner, l.shared, p, Leaf(x), supply, map[]);
    l' := l.(inner := inner);
    forall c | c in l.outer
      ensures c in g' && g'[c] == g[c]
    {
      SetFrame(g, l.inner, l.shared, p, Leaf(x), supply, c);
    }
    forall q: Path | q != [] && forall n :: n in MountPoints(a, b, s) ==> !StrictlyAbove(n, q)
      ensures Lookup(g', l.main, q) == Lookup(g, l.main, q)
    {
      assert l.outer[l.main] + q == q;
      OuterFrame(g, g', a, b, s, l, l.main, q);
    }
    InnerChanged(g, g', a, b, s, l, inner);
    forall n, q | n in MountPoints(a, b, s) && q != []
      ensures Lookup(g', l.main, n + q) == Lookup(g', l.shared, q)
    {
      MountsAgree(g', a, b, s, l', n, q);
    }
  }

  /** The layout only asks of the shared configuration that it is a tree of its own. */
  lemma InnerChanged<R>(g: Graph<R>, g': Graph<R>, a: string, b: string, s: string, l: Layout<R>, inner: map<R, Path>)
    requires Names(a, b, s) && Mounted(g, a, b, s, l) && Closed(g')
    requires forall c :: c in l.outer ==> c in g' && g'[c] == g[c]
    requires l.shared in inner && inner[l.shared] == [] && Placed(g', inner) && l.outer.Keys !! inner.Keys
    ensures Mounted(g', a, b, s, l.(inner := inner))
  {
    var l' := l.(inner := inner);
    MountPointsApart(a, b, s);
    forall n | n in MountPoints(a, b, s)
      ensures Lookup(g', l.main, n) == Some(Sub(l.shared))
    {
      assert n != [] && l.outer[l.main] + n == n;
      OuterFrame(g, g', a, b, s, l, l.main, n);
    }
    forall c | c in l.outer
      ensures OuterAt(g', a, b, s, l', c)
    {
      assert OuterAt(g, a, b, s, l, c);
    }
  }

  lemma MountPointsApart(a: string, b: string, s: string)
    requires Names(a, b, s)
    ensures forall m, n :: m in MountPoints(a, b, s) && n in MountPoints(a, b, s) ==> !StrictlyAbove(m, n)
  {
    assert [a, s][..1] == [a] && [b, s][..1] == [b];
  }

  // ---------------------------------------------------------------- mounting

  /** A main configuration that is a tree, with two subsystems that both have a
      configuration of the shared system's name. */
  ghost predicate Mountable<R>(g: Graph<R>, main: R, addr: map<R, Path>, a: string, b: string, s: string, ca: R, cb: R, r: R)
  {
    && Names(a, b, s) && Unshared(g, main, addr)
    && Lookup(g, main, [a]) == Some(Sub(ca)) && Lookup(g, main, [b]) == Some(Sub(cb))
    && Lookup(g, main, [s]) == Some(Sub(r))
    && ca in g && cb in g && s in g[ca] && g[ca][s].Sub? && s in g[cb] && g[cb][s].Sub?
  }

  /** The graph after both subsystems have the shared configuration mounted. */
  ghost function BothMounted<R>(g: Graph<R>, s: string, ca: R, cb: R, r: R): Graph<R>
    requires ca in g && cb in g
  {
    var g1 := g[ca := g[ca][s := Sub(r)]];
    g1[cb := g1[cb][s := Sub(r)]]
  }

  lemma MountIsEntry<R>(g: Graph<R>, c: R, s: string, r: R)
    requires Closed(g) && c in g && r in g && s in g[c] && g[c][s].Sub?
    ensures Mount(g, c, [s], r).0 == g[c := g[c][s := Sub(r)]]
  {
    assert Lookup(g, c, [s]) == Some(g[c][s]);
  }

  /** Preparing both subsystems with the one shared system performs exactly two mounts. */
  lemma PrepareBoth<R>(g: Graph<R>, main: R, addr: map<R, Path>, a: string, b: string, s: string, key: string, ca: R, cb: R, r: R)
    requires Mountable(g, main, addr, a, b, s, ca, cb, r) && PathOf(key) == [s]
    ensures ca in MountAll(g, main, ca, [key]) && main in MountAll(g, main, ca, [key])
    ensures MountAll(MountAll(g, main, ca, [key]), main, cb, [key]) == BothMounted(g, s, ca, cb, r)
  {
    assert [key][..0] == [];
    Roots(g, main, addr, a, b, s, ca, cb, r);
    MountIsEntry(g, ca, s, r);
    var g1 := g[ca := g[ca][s := Sub(r)]];
    assert MountAll(g, main, ca, [key]) == g1;
    assert Lookup(g1, main, [s]) == Some(Sub(r));
    MountIsEntry(g1, cb, s, r);
  }

  lemma Roots<R>(g: Graph<R>, main: R, addr: map<R, Path>, a: string, b: string, s: string, ca: R, cb: R, r: R)
    requires Mountable(g, main, addr, a, b, s, ca, cb, r)
    ensures ca != main && cb != main && r != main && ca != cb && r != ca && r != cb
    ensures addr[ca] == [a] && addr[cb] == [b] && addr[r] == [s]
    ensures g[main][a] == Sub(ca) && g[main][b] == Sub(cb) && g[main][s] == Sub(r)
  {
    assert PlacedAt(g, addr, main);
    assert [] + [a] == [a] && [] + [b] == [b] && [] + [s] == [s];
    assert [a][0] == a && [b][0] == b && [s][0] == s;
  }

  /** What lies outside the mount points, and what lies below the shared configuration. */
  ghost function LayoutOf<R>(main: R, addr: map<R, Path>, a: string, b: string, s: string, r: R): Layout<R>
  {
    Layout(main, r,
           map c | c in addr && (forall m :: m in MountPoints(a, b, s) ==> !Above(m, addr[c])) :: addr[c],
           map c | c in addr && Above([s], addr[c]) :: addr[c][1..])
  }

  /** Mounting turns the tree into the mounted layout. */
  lemma MountingMounts<R>(g: Graph<R>, main: R, addr: map<R, Path>, a: string, b: string, s: string, ca: R, cb: R, r: R)
    requires Mountable(g, main, addr, a, b, s, ca, cb, r)
    ensures Mounted(BothMounted(g, s, ca, cb, r), a, b, s, LayoutOf(main, addr, a, b, s, r))
  {
    var g': Graph<R> := BothMounted(g, s, ca, cb, r);
    var l := LayoutOf(main, addr, a, b, s, r);
    LayoutParts(g, main, addr, a, b, s, ca, cb, r);
    forall c | c in l.inner
      ensures c in g' && PlacedAt(g', l.inner, c)
    {
      InnerPlaced(g, main, addr, a, b, s, ca, cb, r, c);
    }
    forall c | c in l.outer
      ensures c in g' && OuterAt(g', a, b, s, l, c)
    {
      OuterPlaced(g, main, addr, a, b, s, ca, cb, r, c);
    }
    MountReads(g, main, addr, a, b, s, ca, cb, r);
  }

  lemma LayoutParts<R>(g: Graph<R>, main: R, addr: map<R, Path>, a: string, b: string, s: string, ca: R, cb: R, r: R)
    requires Mountable(g, main, addr, a, b, s, ca, cb, r)
    ensures var l := LayoutOf(main, addr, a, b, s, r);
      && l.shared in l.inner && l.inner[l.shared] == []
      && l.main in l.outer && l.outer[l.main] == [] && l.outer.Keys !! l.inner.Keys
  {
    Roots(g, main, addr, a, b, s, ca, cb, r);
    assert [s] in MountPoints(a, b, s);
    assert [s][1..] == [] && [s][..1] == [s];
  }

  lemma MountReads<R>(g: Graph<R>, main: R, addr: map<R, Path>, a: string, b: string, s: string, ca: R, cb: R, r: R)
    requires Mountable(g, main, addr, a, b, s, ca, cb, r)
    ensures Closed(BothMounted(g, s, ca, cb, r))
    ensures forall m :: m in MountPoints(a, b, s) ==> Lookup(BothMounted(g, s, ca, cb, r), main, m) == Some(Sub(r))
  {
    Roots(g, main, addr, a, b, s, ca, cb, r);
    assert [a, s][1..] == [s] && [b, s][1..] == [s];
  }

  lemma InnerPlaced<R>(g: Graph<R>, main: R, addr: map<R, Path>, a: string, b: string, s: string, ca: R, cb: R, r: R, c: R)
    requires Mountable(g, main, addr, a, b, s, ca, cb, r)
    requires c in addr && Above([s], addr[c])
    ensures c in g && PlacedAt(BothMounted(g, s, ca, cb, r), LayoutOf(main, addr, a, b, s, r).inner, c)
  {
    var g': Graph<R> := BothMounted(g, s, ca, cb, r);
    var inner := LayoutOf(main, addr, a, b, s, r).inner;
    Roots(g, main, addr, a, b, s, ca, cb, r);
    assert PlacedAt(g, addr, c);
    assert g'[c] == g[c];
    forall k | k in g[c] && g[c][k].Sub?
      ensures g[c][k].node in inner && inner[g[c][k].node] == inner[c] + [k]
    {
      assert (addr[c] + [k])[..1] == addr[c][..1];
      assert (addr[c] + [k])[1..] == addr[c][1..] + [k];
    }
  }

  lemma OuterPlaced<R>(g: Graph<R>, main: R, addr: map<R, Path>, a: string, b: string, s: string, ca: R, cb: R, r: R, c: R)
    requires Mountable(g, main, addr, a, b, s, ca, cb, r)
    requires c in LayoutOf(main, addr, a, b, s, r).outer
    ensures c in g && OuterAt(BothMounted(g, s, ca, cb, r), a, b, s, LayoutOf(main, addr, a, b, s, r), c)
  {
    var g': Graph<R> := BothMounted(g, s, ca, cb, r);
    var l := LayoutOf(main, addr, a, b, s, r);
    Roots(g, main, addr, a, b, s, ca, cb, r);
    assert PlacedAt(g, addr, c);
    forall k | k in g'[c] && g'[c][k].Sub?
      ensures OuterEntry(a, b, s, l, addr[c] + [k], g'[c][k].node)
    {
      OuterEntryHolds(g, main, addr, a, b, s, ca, cb, r, c, k);
    }
  }

  lemma OuterEntryHolds<R>(g: Graph<R>, main: R, addr: map<R, Path>, a: string, b: string, s: string, ca: R, cb: R, r: R, c: R, k: string)
    requires Mountable(g, main, addr, a, b, s, ca, cb, r)
    requires c in LayoutOf(main, addr, a, b, s, r).outer
    requires var g' := BothMounted(g, s, ca, cb, r); k in g'[c] && g'[c][k].Sub?
    ensures OuterEntry(a, b, s, LayoutOf(main, addr, a, b, s, r), addr[c] + [k], BothMounted(g, s, ca, cb, r)[c][k].node)
  {
    var g': Graph<R> := BothMounted(g, s, ca, cb, r);
    Roots(g, main, addr, a, b, s, ca, cb, r);
    assert PlacedAt(g, addr, c);
    ChildOfMount(a, b, s, addr[c], k);
    if addr[c] + [k] in MountPoints(a, b, s) {
      AddressIsNode(g, main, addr, c, if addr[c] == [] then main else if addr[c] == [a] then ca else cb);
    } else {
      assert !((c == ca || c == cb) && k == s);
      assert g'[c][k] == g[c][k];
      BesideMounts(a, b, s, addr[c], k);
    }
  }

  lemma ChildOfMount(a: string, b: string, s: string, p: Path, k: string)
    ensures p + [k] in MountPoints(a, b, s) <==> k == s && (p == [] || p == [a] || p == [b])
  {
    assert [a] + [s] == [a, s] && [b] + [s] == [b, s] && [] + [s] == [s];
    var z := p + [k];
    assert z[..|z| - 1] == p && z[|z| - 1] == k;
  }

  lemma BesideMounts(a: string, b: string, s: string, p: Path, k: string)
    requires forall m :: m in MountPoints(a, b, s) ==> !Above(m, p)
    requires p + [k] !in MountPoints(a, b, s)
    ensures forall m :: m in MountPoints(a, b, s) ==> !Above(m, p + [k])
  {
    var z := p + [k];
    forall m | m in MountPoints(a, b, s)
      ensures !Above(m, z)
    {
      assert !Above(m, p);
      assert |m| <= |p| ==> z[..|m|] == p[..|m|];
      assert |m| == |z| ==> z[..|m|] == z;
    }
  }

  lemma AddressIsNode<R>(g: Graph<R>, main: R, addr: map<R, Path>, c: R, d: R)
    requires Unshared(g, main, addr) && c in addr && d in addr && addr[c] == addr[d]
    ensures c == d
  {
  }

  // ---------------------------------------------------------------- acyclicity

  /** Nesting always leads to a strictly greater rank, and ranks are bounded. */
  ghost predicate Ranked<R>(g: Graph<R>, rank: map<R, nat>, bound: nat)
  {
    && g.Keys <= rank.Keys
    && (forall c :: c in g ==> rank[c] <= bound)
    && (forall c, k :: c in g && k in g[c] && g[c][k].Sub? && g[c][k].node in g ==> rank[c] < rank[g[c][k].node])
  }

  /** In the mounted layout every nesting step goes up in rank: outside the shared
      configuration the rank is the depth, inside it the depth on top of every outer one. */
  lemma MountedIsAcyclic<R>(g: Graph<R>, a: string, b: string, s: string, l: Layout<R>) returns (rank: map<R, nat>, bound: nat)
    requires Mounted(g, a, b, s, l)
    ensures Ranked(map c | c in g && (c in l.outer || c in l.inner) :: g[c], rank, bound)
    ensures Closed<R>(map c | c in g && (c in l.outer || c in l.inner) :: g[c])
  {
    rank := map c | c in l.outer.Keys + l.inner.Keys :: if c in l.outer then |l.outer[c]| else 3 + |l.inner[c]|;
    bound := Highest(rank, rank.Keys);
    forall c, k | c in l.outer && k in g[c] && g[c][k].Sub?
      ensures g[c][k].node in rank && rank[c] < rank[g[c][k].node]
    {
      assert OuterAt(g, a, b, s, l, c);
      assert OuterEntry(a, b, s, l, l.outer[c] + [k], g[c][k].node);
      ChildOfMount(a, b, s, l.outer[c], k);
    }
    forall c, k | c in l.inner && k in g[c] && g[c][k].Sub?
      ensures g[c][k].node in rank && rank[c] < rank[g[c][k].node]
    {
      assert PlacedAt(g, l.inner, c);
    }
  }

  lemma {:induction false} Highest<R>(rank: map<R, nat>, keys: set<R>) returns (bound: nat)
    requires keys <= rank.Keys
    ensures forall c :: c in keys ==> rank[c] <= bound
  {
    if keys == {} {
      bound := 0;
    } else {
      var c :| c in keys;
      bound := Highest(rank, keys - {c});
      if bound < rank[c] { bound := rank[c]; }
      assert forall d :: d in keys ==> d == c || d in keys - {c};
    }
  }
}
