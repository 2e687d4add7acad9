/** Set on unshared trees: it refines the update of the view, it can only fail
    above the path it is given, and a failing call changes nothing. */
module Trees {
  import opened Text
  import opened Views
  import opened Graphs

  /** The part of the graph named by addr is unshared: a node's children are placed
      one component below it, so two different paths never reach the same node. */
  ghost predicate Placed<R>(g: Graph<R>, addr: map<R, Path>)
  {
    forall c :: c in addr ==> c in g && PlacedAt(g, addr, c)
  }

  ghost predicate PlacedAt<R>(g: Graph<R>, addr: map<R, Path>, c: R)
    requires c in addr && c in g
  {
    forall k :: k in g[c] && g[c][k].Sub? ==>
      g[c][k].node in addr && addr[g[c][k].node] == addr[c] + [k]
  }

  lemma {:induction false} LookupPlaced<R>(g: Graph<R>, addr: map<R, Path>, c: R, p: Path)
    requires Closed(g) && Placed(g, addr) && c in addr && p != []
    ensures var r := Lookup(g, c, p);
            r.Some? && r.value.Sub? ==> r.value.node in addr && addr[r.value.node] == addr[c] + p
  {
    if |p| > 1 && p[0] in g[c] && g[c][p[0]].Sub? {
      assert PlacedAt(g, addr, c);
      LookupPlaced(g, addr, g[c][p[0]].node, p[1..]);
      assert addr[c] + p == addr[c] + [p[0]] + p[1..];
    } else if |p| == 1 {
      assert PlacedAt(g, addr, c);
      assert p == [p[0]];
    }
  }

  /** A walk that only meets unchanged nodes reads the same. */
  lemma {:induction false} LookupFrame<R>(g: Graph<R>, g': Graph<R>, same: set<R>, c: R, p: Path)
    requires Closed(g) && Closed(g') && p != [] && c in same
    requires forall d :: d in same ==> d in g && d in g' && g[d] == g'[d]
    requires forall d, k :: d in same && k in g[d] && g[d][k].Sub? ==> g[d][k].node in same
    ensures Lookup(g', c, p) == Lookup(g, c, p)
  {
    if |p| > 1 && p[0] in g[c] && g[c][p[0]].Sub? {
      LookupFrame(g, g', same, g[c][p[0]].node, p[1..]);
    }
  }

  /** The nodes placed at or below a path. */
  ghost function Below<R>(addr: map<R, Path>, p: Path): set<R>
  {
    set d | d in addr && Above(p, addr[d])
  }

  lemma BelowClosed<R>(g: Graph<R>, addr: map<R, Path>, p: Path)
    requires Placed(g, addr)
    ensures forall d, k :: d in Below(addr, p) && k in g[d] && g[d][k].Sub? ==> g[d][k].node in Below(addr, p)
  {
    forall d, k | d in Below(addr, p) && k in g[d] && g[d][k].Sub?
      ensures g[d][k].node in Below(addr, p)
    {
      assert PlacedAt(g, addr, d);
    }
  }

  /** Set below c touches only existing nodes placed at or below c. */
  lemma {:induction false} SetFrame<R>(g: Graph<R>, addr: map<R, Path>, c: R, p: Path, v: Value<R>, supply: seq<R>, d: R)
    requires Closed(g) && Placed(g, addr) && c in addr && p != []
    requires v.Sub? ==> v.node in g
    requires Unused(g, supply) && |supply| == Missing(g, c, p)
    requires d in g && !(d in addr && Above(addr[c], addr[d]))
    ensures SetGraph(g, c, p, v, supply).0[d] == g[d]
    decreases p
  {
    if |p| > 1 {
      assert PlacedAt(g, addr, c);
      if p[0] !in g[c] {
        var n := supply[0];
        var g1, addr1 := WithChild(g, c, p[0], n), addr[n := addr[c] + [p[0]]];
        PlaceChild(g, addr, c, p[0], n);
        assert Unused(g1, supply[1..]);
        SetFrame(g1, addr1, n, p[1..], v, supply[1..], d);
      } else if g[c][p[0]].Sub? {
        SetFrame(g, addr, g[c][p[0]].node, p[1..], v, supply, d);
      }
    }
  }

  /** The graph after an empty configuration n is created under key k of c. */
  ghost function WithChild<R>(g: Graph<R>, c: R, k: string, n: R): Graph<R>
    requires c in g
  {
    g[c := g[c][k := Sub(n)]][n := map[]]
  }

  lemma PlaceChild<R>(g: Graph<R>, addr: map<R, Path>, c: R, k: string, n: R)
    requires Closed(g) && Placed(g, addr) && c in addr && n !in g && k !in g[c]
    ensures Closed(WithChild(g, c, k, n))
    ensures Placed(WithChild(g, c, k, n), addr[n := addr[c] + [k]])
  {
    var g1, addr1 := WithChild(g, c, k, n), addr[n := addr[c] + [k]];
    forall d | d in addr1
      ensures d in g1 && PlacedAt(g1, addr1, d)
    {
      if d != n { assert PlacedAt(g, addr, d); }
    }
  }

  /** Set succeeds exactly when no plain value sits strictly above the path. */
  lemma {:induction false} SetSucceeds<R>(g: Graph<R>, c: R, p: Path, v: Value<R>, supply: seq<R>)
    requires Closed(g) && c in g && p != []
    requires v.Sub? ==> v.node in g
    requires Unused(g, supply) && |supply| == Missing(g, c, p)
    ensures SetGraph(g, c, p, v, supply).1 <==> !Blocked(ViewOf(g, c), p)
    decreases p
  {
    var t := ViewOf(g, c);
    if |p| == 1 {
    } else if p[0] !in g[c] {
      var n := supply[0];
      var g1 := WithChild(g, c, p[0], n);
      assert Unused(g1, supply[1..]);
      SetSucceeds(g1, n, p[1..], v, supply[1..]);
      forall q | StrictlyAbove(q, p) && q != []
        ensures q !in t
      {
        assert q[0] == p[0];
      }
    } else if g[c][p[0]].Leaf? {
      assert StrictlyAbove([p[0]], p) && [p[0]] in t && t[[p[0]]].LeafK?;
    } else {
      var d := g[c][p[0]].node;
      SetSucceeds(g, d, p[1..], v, supply);
      BlockedBelow(g, c, p);
    }
  }

  lemma BlockedBelow<R>(g: Graph<R>, c: R, p: Path)
    requires Closed(g) && c in g && |p| > 1 && p[0] in g[c] && g[c][p[0]].Sub?
    ensures Blocked(ViewOf(g, c), p) <==> Blocked(ViewOf(g, g[c][p[0]].node), p[1..])
  {
    var d := g[c][p[0]].node;
    var t, u := ViewOf(g, c), ViewOf(g, d);
    if Blocked(t, p) {
      var q :| StrictlyAbove(q, p) && q in t && t[q].LeafK?;
      assert q[0] == p[0];
      assert |q| > 1;
      assert StrictlyAbove(q[1..], p[1..]) && q[1..] in u && u[q[1..]].LeafK?;
    }
    if Blocked(u, p[1..]) {
      var q :| StrictlyAbove(q, p[1..]) && q in u && u[q].LeafK?;
      var z := [p[0]] + q;
      assert z[1..] == q;
      assert StrictlyAbove(z, p) && z in t && t[z].LeafK?;
    }
  }

  /** A failing Set creates nothing and changes nothing. */
  lemma {:induction false} SetFails<R>(g: Graph<R>, c: R, p: Path, v: Value<R>, supply: seq<R>)
    requires Closed(g) && c in g && p != []
    requires v.Sub? ==> v.node in g
    requires Unused(g, supply) && |supply| == Missing(g, c, p)
    requires !SetGraph(g, c, p, v, supply).1
    ensures supply == [] && SetGraph(g, c, p, v, supply).0 == g
    decreases p
  {
    if |p| > 1 {
      if p[0] !in g[c] {
        var g1 := WithChild(g, c, p[0], supply[0]);
        assert Unused(g1, supply[1..]);
        BelowEmpty(g1, supply[0], p[1..], v, supply[1..]);
      } else if g[c][p[0]].Sub? {
        SetFails(g, g[c][p[0]].node, p[1..], v, supply);
      }
    }
  }

  lemma {:induction false} BelowEmpty<R>(g: Graph<R>, c: R, p: Path, v: Value<R>, supply: seq<R>)
    requires Closed(g) && c in g && p != [] && g[c] == map[]
    requires v.Sub? ==> v.node in g
    requires Unused(g, supply) && |supply| == Missing(g, c, p)
    ensures SetGraph(g, c, p, v, supply).1
    decreases p
  {
    if |p| > 1 {
      var g1 := WithChild(g, c, p[0], supply[0]);
      assert Unused(g1, supply[1..]);
      BelowEmpty(g1, supply[0], p[1..], v, supply[1..]);
    }
  }

  /** What a value stored in the graph contributes to the view. */
  ghost function PutOf<R>(g: Graph<R>, v: Value<R>): Put
    requires Closed(g) && (v.Sub? ==> v.node in g)
  {
    match v case Leaf(x) => PutLeaf(x) case Sub(d) => PutTree(ViewOf(g, d))
  }

  /** The stored configuration, if any, is not part of the tree it is stored in. */
  ghost predicate Separate<R>(g: Graph<R>, addr: map<R, Path>, v: Value<R>, apart: set<R>)
  {
    v.Sub? ==>
      && v.node in apart && apart !! addr.Keys && apart <= g.Keys
      && forall d, k :: d in apart && k in g[d] && g[d][k].Sub? ==> g[d][k].node in apart
  }

  ghost function ReadKind<R>(g: Graph<R>, c: R, q: Path): Option<Kind>
    requires Closed(g) && c in g
  {
    if q == [] then None
    else match Lookup(g, c, q)
      case None => None
      case Some(v) => Some(KindOf(v))
  }

  /** In c itself Set touches only the first component's entry; elsewhere only nodes
      placed at or below that entry. */
  lemma SetStaysBelow<R>(g: Graph<R>, addr: map<R, Path>, c: R, p: Path, v: Value<R>, supply: seq<R>)
    requires Closed(g) && Placed(g, addr) && c in addr && p != []
    requires v.Sub? ==> v.node in g
    requires Unused(g, supply) && |supply| == Missing(g, c, p)
    ensures var g' := SetGraph(g, c, p, v, supply).0;
      && (forall k :: k != p[0] ==> (k in g'[c] <==> k in g[c]) && (k in g[c] ==> g'[c][k] == g[c][k]))
      && (forall e :: e in g && e != c && !(e in addr && Above(addr[c] + [p[0]], addr[e])) ==> g'[e] == g[e])
  {
    var g' := SetGraph(g, c, p, v, supply).0;
    if |p| > 1 {
      assert PlacedAt(g, addr, c);
      if p[0] !in g[c] {
        var n := supply[0];
        var g1, addr1 := WithChild(g, c, p[0], n), addr[n := addr[c] + [p[0]]];
        PlaceChild(g, addr, c, p[0], n);
        assert Unused(g1, supply[1..]);
        forall e | e in g && !(e in addr && Above(addr[c] + [p[0]], addr[e]))
          ensures g'[e] == g1[e]
        {
          SetFrame(g1, addr1, n, p[1..], v, supply[1..], e);
        }
        assert g'[c] == g1[c];
      } else if g[c][p[0]].Sub? {
        var d := g[c][p[0]].node;
        forall e | e in g && !(e in addr && Above(addr[c] + [p[0]], addr[e]))
          ensures g'[e] == g[e]
        {
          SetFrame(g, addr, d, p[1..], v, supply, e);
        }
        assert g'[c] == g[c];
      }
    }
  }

  /** A path that leaves p at its first component reads as before. */
  lemma SetReadsAside<R>(g: Graph<R>, addr: map<R, Path>, c: R, p: Path, v: Value<R>, supply: seq<R>, q: Path)
    requires Closed(g) && Placed(g, addr) && c in addr && p != [] && q != [] && q[0] != p[0]
    requires v.Sub? ==> v.node in g
    requires Unused(g, supply) && |supply| == Missing(g, c, p)
    ensures Lookup(SetGraph(g, c, p, v, supply).0, c, q) == Lookup(g, c, q)
  {
    var g' := SetGraph(g, c, p, v, supply).0;
    SetStaysBelow(g, addr, c, p, v, supply);
    if |q| > 1 && q[0] in g[c] && g[c][q[0]].Sub? {
      var e := g[c][q[0]].node;
      assert PlacedAt(g, addr, c);
      var same := Below(addr, addr[c] + [q[0]]);
      BelowClosed(g, addr, addr[c] + [q[0]]);
      forall d | d in same
        ensures d in g && d in g' && g[d] == g'[d]
      {
        AboveNext(addr[c], q[0], addr[d]);
        AboveNext(addr[c], p[0], addr[d]);
        assert d != c;
      }
      LookupFrame(g, g', same, e, q[1..]);
    }
  }

  /** The update of a view, seen from the configuration at its first component. */
  lemma SetAtBelow(t: View, u: View, p: Path, w: Put, q: Path)
    requires |p| > 1 && |q| > 1 && q[0] == p[0]
    requires At(t, q) == At(u, q[1..])
    ensures SetAt(t, p, w, q) == SetAt(u, p[1..], w, q[1..])
  {
    assert p == [p[0]] + p[1..] && q == [q[0]] + q[1..];
    assert StrictlyAbove(p, q) ==> q[|p|..] == q[1..][|p| - 1..];
  }

  lemma ReadKindBelow<R>(g: Graph<R>, c: R, q: Path)
    requires Closed(g) && c in g && |q| > 1 && q[0] in g[c] && g[c][q[0]].Sub?
    ensures ReadKind(g, c, q) == ReadKind(g, g[c][q[0]].node, q[1..])
    ensures At(ViewOf(g, c), q) == At(ViewOf(g, g[c][q[0]].node), q[1..])
  {
  }

  /** After a successful Set below c every path reads as the view update says. */
  lemma {:induction false} SetReads<R>(g: Graph<R>, addr: map<R, Path>, c: R, p: Path, v: Value<R>, supply: seq<R>, apart: set<R>, q: Path)
    requires Closed(g) && Placed(g, addr) && c in addr && p != [] && q != []
    requires (v.Sub? ==> v.node in g) && Separate(g, addr, v, apart)
    requires Unused(g, supply) && |supply| == Missing(g, c, p)
    requires SetGraph(g, c, p, v, supply).1
    ensures ReadKind(SetGraph(g, c, p, v, supply).0, c, q) == SetAt(ViewOf(g, c), p, PutOf(g, v), q)
    decreases p
  {
    if q[0] != p[0] {
      SetReadsAside(g, addr, c, p, v, supply, q);
      assert !StrictlyAbove(p, q) && !StrictlyAbove(q, p);
    } else if |p| == 1 {
      SetReadsHere(g, addr, c, p, v, apart, q);
    } else if p[0] !in g[c] {
      SetReadsNew(g, addr, c, p, v, supply, apart, q);
    } else {
      var d := g[c][p[0]].node;
      assert PlacedAt(g, addr, c);
      SetFrame(g, addr, d, p[1..], v, supply, c);
      if |q| > 1 {
        SetReads(g, addr, d, p[1..], v, supply, apart, q[1..]);
        ReadKindBelow(g, c, q);
        ReadKindBelow(SetGraph(g, c, p, v, supply).0, c, q);
        SetAtBelow(ViewOf(g, c), ViewOf(g, d), p, PutOf(g, v), q);
      } else {
        FirstAbove(q, p);
      }
    }
  }

  lemma SetReadsHere<R>(g: Graph<R>, addr: map<R, Path>, c: R, p: Path, v: Value<R>, apart: set<R>, q: Path)
    requires Closed(g) && Placed(g, addr) && c in addr && |p| == 1 && q != [] && q[0] == p[0]
    requires (v.Sub? ==> v.node in g) && Separate(g, addr, v, apart)
    ensures ReadKind(SetGraph(g, c, p, v, []).0, c, q) == SetAt(ViewOf(g, c), p, PutOf(g, v), q)
  {
    var g': Graph<R> := SetGraph(g, c, p, v, []).0;
    assert p == [p[0]];
    if |q| == 1 {
      assert q == p;
    } else {
      assert StrictlyAbove(p, q);
      if v.Sub? {
        LookupFrame(g, g', apart, v.node, q[1..]);
      }
    }
  }

  lemma {:induction false} SetReadsNew<R>(g: Graph<R>, addr: map<R, Path>, c: R, p: Path, v: Value<R>, supply: seq<R>, apart: set<R>, q: Path)
    requires Closed(g) && Placed(g, addr) && c in addr && |p| > 1 && q != [] && q[0] == p[0]
    requires p[0] !in g[c]
    requires (v.Sub? ==> v.node in g) && Separate(g, addr, v, apart)
    requires Unused(g, supply) && |supply| == Missing(g, c, p)
    requires SetGraph(g, c, p, v, supply).1
    ensures ReadKind(SetGraph(g, c, p, v, supply).0, c, q) == SetAt(ViewOf(g, c), p, PutOf(g, v), q)
    decreases p, 0
  {
    var n := supply[0];
    NewEntryStays(g, addr, c, p, v, supply);
    if |q| > 1 {
      var g1 := WithChild(g, c, p[0], n);
      PlaceChild(g, addr, c, p[0], n);
      SetReads(g1, addr[n := addr[c] + [p[0]]], n, p[1..], v, supply[1..], apart, q[1..]);
      ReadKindBelow(SetGraph(g, c, p, v, supply).0, c, q);
      NewIsEmpty(g, g1, c, n, p, v, apart, q);
    } else {
      FirstAbove(q, p);
    }
  }

  /** The first configuration that Set creates stays where it was put. */
  lemma NewEntryStays<R>(g: Graph<R>, addr: map<R, Path>, c: R, p: Path, v: Value<R>, supply: seq<R>)
    requires Closed(g) && Placed(g, addr) && c in addr && |p| > 1 && p[0] !in g[c] && (v.Sub? ==> v.node in g)
    requires Unused(g, supply) && |supply| == Missing(g, c, p)
    ensures Closed(WithChild(g, c, p[0], supply[0])) && Unused(WithChild(g, c, p[0], supply[0]), supply[1..])
    ensures |supply[1..]| == Missing(WithChild(g, c, p[0], supply[0]), supply[0], p[1..])
    ensures SetGraph(g, c, p, v, supply) == SetGraph(WithChild(g, c, p[0], supply[0]), supply[0], p[1..], v, supply[1..])
    ensures var g' := SetGraph(g, c, p, v, supply).0; p[0] in g'[c] && g'[c][p[0]] == Sub(supply[0])
  {
    var n := supply[0];
    var g1, addr1 := WithChild(g, c, p[0], n), addr[n := addr[c] + [p[0]]];
    PlaceChild(g, addr, c, p[0], n);
    assert Unused(g1, supply[1..]);
    SetFrame(g1, addr1, n, p[1..], v, supply[1..], c);
  }

  /** Below a new configuration the update starts from nothing, as it does in the view. */
  lemma NewIsEmpty<R>(g: Graph<R>, g1: Graph<R>, c: R, n: R, p: Path, v: Value<R>, apart: set<R>, q: Path)
    requires Closed(g) && Closed(g1) && c in g && n !in g && |p| > 1 && |q| > 1 && q[0] == p[0] && p[0] !in g[c]
    requires g1 == WithChild(g, c, p[0], n)
    requires v.Sub? ==> v.node in g && v.node in apart && apart <= g.Keys && c !in apart
    requires v.Sub? ==> forall d, k :: d in apart && k in g[d] && g[d][k].Sub? ==> g[d][k].node in apart
    ensures SetAt(ViewOf(g, c), p, PutOf(g, v), q) == SetAt(ViewOf(g1, n), p[1..], PutOf(g1, v), q[1..])
  {
    NothingUnder(g, c, q);
    NothingUnder(g1, n, q[1..]);
    SetAtBelow(ViewOf(g, c), ViewOf(g1, n), p, PutOf(g1, v), q);
    SamePut(g, g1, v, apart);
  }

  lemma FirstAbove(q: Path, p: Path)
    requires |q| == 1 < |p| && q[0] == p[0]
    ensures StrictlyAbove(q, p)
  {
  }

  lemma NothingUnder<R>(g: Graph<R>, c: R, q: Path)
    requires Closed(g) && c in g && q != [] && q[0] !in g[c]
    ensures At(ViewOf(g, c), q) == None
  {
  }

  /** A stored configuration's view does not depend on the rest of the graph. */
  lemma SamePut<R>(g: Graph<R>, g1: Graph<R>, v: Value<R>, apart: set<R>)
    requires Closed(g) && Closed(g1) && (v.Sub? ==> v.node in g && v.node in g1 && v.node in apart)
    requires v.Sub? ==> forall d :: d in apart ==> d in g && d in g1 && g[d] == g1[d]
    requires v.Sub? ==> forall d, k :: d in apart && k in g[d] && g[d][k].Sub? ==> g[d][k].node in apart
    ensures PutOf(g, v) == PutOf(g1, v)
  {
    if v.Sub? {
      forall q: Path | q != []
        ensures Lookup(g, v.node, q) == Lookup(g1, v.node, q)
      {
        LookupFrame(g, g1, apart, v.node, q);
      }
    }
  }

  /** Set on an unshared tree is the update of its view. */
  lemma SetRefines<R>(g: Graph<R>, addr: map<R, Path>, c: R, p: Path, v: Value<R>, supply: seq<R>, apart: set<R>)
    requires Closed(g) && Placed(g, addr) && c in addr && p != []
    requires (v.Sub? ==> v.node in g) && Separate(g, addr, v, apart)
    requires Unused(g, supply) && |supply| == Missing(g, c, p)
    ensures ViewOf(SetGraph(g, c, p, v, supply).0, c) == Apply(ViewOf(g, c), p, PutOf(g, v))
    ensures SetGraph(g, c, p, v, supply).1 <==> !Blocked(ViewOf(g, c), p)
  {
    SetSucceeds(g, c, p, v, supply);
    var r := SetGraph(g, c, p, v, supply);
    if r.1 {
      forall q: Path | q != []
        ensures ReadKind(r.0, c, q) == SetAt(ViewOf(g, c), p, PutOf(g, v), q)
      {
        SetReads(g, addr, c, p, v, supply, apart, q);
      }
      assert ViewOf(r.0, c) == SetView(ViewOf(g, c), p, PutOf(g, v));
    } else {
      SetFails(g, c, p, v, supply);
    }
  }

  /** The new nodes, in order, lie at the last proper prefixes of the path. */
  ghost predicate AlongPath<R>(addr: map<R, Path>, from: Path, p: Path, supply: seq<R>)
  {
    && |supply| <= |p|
    && forall i :: 0 <= i < |supply| ==> supply[i] in addr && addr[supply[i]] == from + p[..|p| - |supply| + i]
  }

  lemma AlongFromChild<R>(addr: map<R, Path>, from: Path, p: Path, supply: seq<R>)
    requires p != [] && AlongPath(addr, from + [p[0]], p[1..], supply)
    ensures AlongPath(addr, from, p, supply)
  {
    forall i | 0 <= i < |supply|
      ensures addr[supply[i]] == from + p[..|p| - |supply| + i]
    {
      var m := |p| - |supply| + i;
      assert p[..m] == [p[0]] + p[1..][..m - 1];
      assert from + [p[0]] + p[1..][..m - 1] == from + p[..m];
    }
  }

  /** The addresses after Set: new nodes lie along the path, and a stored configuration
      brings its own tree with it. */
  lemma {:induction false} SetPlaces<R>(g: Graph<R>, addr: map<R, Path>, c: R, p: Path, v: Value<R>, supply: seq<R>, sub: map<R, Path>)
    returns (addr': map<R, Path>)
    requires Closed(g) && Placed(g, addr) && c in addr && p != []
    requires v.Sub? ==> v.node in sub && sub[v.node] == []
    requires Placed(g, sub) && sub.Keys !! addr.Keys
    requires v.Sub? ==> v.node in g
    requires Unused(g, supply) && |supply| == Missing(g, c, p)
    ensures Placed(SetGraph(g, c, p, v, supply).0, addr')
    ensures addr'.Keys == addr.Keys + SetOf(supply) + sub.Keys
    ensures forall d :: d in addr ==> addr'[d] == addr[d]
    ensures AlongPath(addr', addr[c], p, supply)
    decreases p
  {
    if |p| == 1 {
      addr' := addr + map d | d in sub :: addr[c] + p + sub[d];
      SetPlacesHere(g, addr, c, p, v, sub, addr');
    } else if p[0] !in g[c] {
      addr' := SetPlacesNew(g, addr, c, p, v, supply, sub);
    } else if g[c][p[0]].Sub? {
      assert PlacedAt(g, addr, c);
      addr' := SetPlaces(g, addr, g[c][p[0]].node, p[1..], v, supply, sub);
      AlongFromChild(addr', addr[c], p, supply);
    } else {
      addr' := addr + map d | d in sub :: sub[d];
      SetPlacesNothing(g, addr, sub, addr');
    }
  }

  lemma {:induction false} SetPlacesNew<R>(g: Graph<R>, addr: map<R, Path>, c: R, p: Path, v: Value<R>, supply: seq<R>, sub: map<R, Path>)
    returns (addr': map<R, Path>)
    requires Closed(g) && Placed(g, addr) && c in addr && |p| > 1 && p[0] !in g[c]
    requires v.Sub? ==> v.node in sub && sub[v.node] == []
    requires Placed(g, sub) && sub.Keys !! addr.Keys
    requires v.Sub? ==> v.node in g
    requires Unused(g, supply) && |supply| == Missing(g, c, p)
    ensures Placed(SetGraph(g, c, p, v, supply).0, addr')
    ensures addr'.Keys == addr.Keys + SetOf(supply) + sub.Keys
    ensures forall d :: d in addr ==> addr'[d] == addr[d]
    ensures AlongPath(addr', addr[c], p, supply)
    decreases p, 0
  {
    var n := supply[0];
    var g1, addr1 := WithChild(g, c, p[0], n), addr[n := addr[c] + [p[0]]];
    PlaceChild(g, addr, c, p[0], n);
    assert Unused(g1, supply[1..]);
    SubPlaced(g, g1, addr, c, n, sub);
    addr' := SetPlaces(g1, addr1, n, p[1..], v, supply[1..], sub);
    SetOfHead(supply);
    AlongFromNew(addr', addr[c], p, supply);
  }

  lemma AlongFromNew<R>(addr: map<R, Path>, from: Path, p: Path, supply: seq<R>)
    requires |p| > 1 && |supply| == |p| - 1 && supply[0] in addr && addr[supply[0]] == from + [p[0]]
    requires AlongPath(addr, from + [p[0]], p[1..], supply[1..])
    ensures AlongPath(addr, from, p, supply)
  {
    AlongFromChild(addr, from, p, supply[1..]);
    assert p[..1] == [p[0]];
    forall i | 0 <= i < |supply|
      ensures supply[i] in addr && addr[supply[i]] == from + p[..|p| - |supply| + i]
    {
      if i > 0 {
        var j := i - 1;
        assert supply[1..][j] == supply[i];
      }
    }
  }

  lemma SubPlaced<R>(g: Graph<R>, g1: Graph<R>, addr: map<R, Path>, c: R, n: R, sub: map<R, Path>)
    requires Placed(g, sub) && sub.Keys !! addr.Keys && c in addr && n !in g
    requires forall d :: d in g && d != c ==> d in g1 && g1[d] == g[d]
    ensures Placed(g1, sub) && n !in sub
  {
    forall d | d in sub
      ensures d in g1 && PlacedAt(g1, sub, d)
    {
      assert PlacedAt(g, sub, d);
    }
  }

  lemma SetPlacesHere<R>(g: Graph<R>, addr: map<R, Path>, c: R, p: Path, v: Value<R>, sub: map<R, Path>, addr': map<R, Path>)
    requires Closed(g) && Placed(g, addr) && c in addr && |p| == 1
    requires v.Sub? ==> v.node in sub && sub[v.node] == [] && v.node in g
    requires Placed(g, sub) && sub.Keys !! addr.Keys
    requires addr' == addr + map d | d in sub :: addr[c] + p + sub[d]
    ensures Placed(SetGraph(g, c, p, v, []).0, addr')
  {
    var g': Graph<R> := SetGraph(g, c, p, v, []).0;
    forall d | d in addr'
      ensures d in g' && PlacedAt(g', addr', d)
    {
      if d in sub {
        assert PlacedAt(g, sub, d);
        forall k | k in g'[d] && g'[d][k].Sub?
          ensures g'[d][k].node in addr' && addr'[g'[d][k].node] == addr'[d] + [k]
        {
          assert addr[c] + p + (sub[d] + [k]) == addr[c] + p + sub[d] + [k];
        }
      } else {
        assert PlacedAt(g, addr, d);
        assert addr[c] + p + [] == addr[c] + [p[0]];
      }
    }
  }

  lemma SetPlacesNothing<R>(g: Graph<R>, addr: map<R, Path>, sub: map<R, Path>, addr': map<R, Path>)
    requires Placed(g, addr) && Placed(g, sub) && sub.Keys !! addr.Keys && addr' == addr + sub
    ensures Placed(g, addr')
  {
    forall d | d in addr'
      ensures d in g && PlacedAt(g, addr', d)
    {
      if d in sub { assert PlacedAt(g, sub, d); } else { assert PlacedAt(g, addr, d); }
    }
  }

  /** A view only depends on the part of the graph its tree occupies. */
  lemma ViewFrame<R>(g: Graph<R>, g': Graph<R>, addr: map<R, Path>, c: R)
    requires Closed(g) && Closed(g') && c in addr && Placed(g, addr)
    requires forall d :: d in addr ==> d in g' && g'[d] == g[d]
    ensures ViewOf(g', c) == ViewOf(g, c)
    ensures Placed(g', addr)
  {
    forall d | d in addr
      ensures PlacedAt(g', addr, d)
    {
      assert PlacedAt(g, addr, d);
    }
    forall d, k | d in addr.Keys && k in g[d] && g[d][k].Sub?
      ensures g[d][k].node in addr.Keys
    {
      assert PlacedAt(g, addr, d);
    }
    forall q: Path | q != []
      ensures Lookup(g', c, q) == Lookup(g, c, q)
    {
      LookupFrame(g, g', addr.Keys, c, q);
    }
  }

  /** g' and ok are the result of Set on g, with supply as the nodes it creates. */
  ghost predicate Sets<R>(g: Graph<R>, g': Graph<R>, c: R, p: Path, v: Value<R>, supply: seq<R>, ok: bool)
  {
    && Closed(g) && c in g && p != [] && (v.Sub? ==> v.node in g)
    && Unused(g, supply) && |supply| == Missing(g, c, p)
    && (g', ok) == SetGraph(g, c, p, v, supply)
  }

  /** Set passes through an existing configuration. */
  lemma SetsBelow<R>(g: Graph<R>, g': Graph<R>, c: R, p: Path, v: Value<R>, d: R, supply: seq<R>, ok: bool)
    requires c in g && |p| > 1 && p[0] in g[c] && g[c][p[0]] == Sub(d)
    requires Sets(g, g', d, p[1..], v, supply, ok)
    ensures Sets(g, g', c, p, v, supply, ok)
  {
  }

  /** Set passes through a configuration it has just created. */
  lemma SetsThroughNew<R>(g: Graph<R>, g': Graph<R>, c: R, p: Path, v: Value<R>, n: R, supply: seq<R>, ok: bool)
    requires Closed(g) && c in g && |p| > 1 && p[0] !in g[c] && n !in g && (v.Sub? ==> v.node in g)
    requires Sets(WithChild(g, c, p[0], n), g', n, p[1..], v, supply, ok)
    ensures Sets(g, g', c, p, v, [n] + supply, ok)
  {
    var all := [n] + supply;
    assert all[0] == n && all[1..] == supply;
    EmptyMisses(WithChild(g, c, p[0], n), n, p[1..]);
  }

  lemma EmptyMisses<R>(g: Graph<R>, n: R, p: Path)
    requires Closed(g) && n in g && g[n] == map[] && p != []
    ensures Missing(g, n, p) == |p| - 1
  {
  }

  ghost predicate IsTree<R>(g: Graph<R>, addr: map<R, Path>)
  {
    Closed(g) && g.Keys == addr.Keys && Placed(g, addr)
  }

  /** Set on a tree, possibly of a separate tree rooted at the stored configuration. */
  lemma SetOnTree<R>(g: Graph<R>, g': Graph<R>, addr: map<R, Path>, sub: map<R, Path>, c: R, p: Path, v: Value<R>, supply: seq<R>, ok: bool)
    returns (addr': map<R, Path>)
    requires Sets(g, g', c, p, v, supply, ok) && c in addr
    requires Placed(g, addr) && Placed(g, sub) && addr.Keys !! sub.Keys && g.Keys == addr.Keys + sub.Keys
    requires v.Sub? ==> v.node in sub && sub[v.node] == []
    ensures IsTree(g', addr') && addr'.Keys == g.Keys + SetOf(supply)
    ensures forall d :: d in addr ==> addr'[d] == addr[d]
    ensures ViewOf(g', c) == Apply(ViewOf(g, c), p, PutOf(g, v))
    ensures ok <==> !Blocked(ViewOf(g, c), p)
  {
    forall d, k | d in sub.Keys && k in g[d] && g[d][k].Sub?
      ensures g[d][k].node in sub.Keys
    {
      assert PlacedAt(g, sub, d);
    }
    SetRefines(g, addr, c, p, v, supply, sub.Keys);
    addr' := SetPlaces(g, addr, c, p, v, supply, sub);
  }

  /** Two disjoint trees side by side. */
  lemma JoinTrees<R>(g1: Graph<R>, g2: Graph<R>, g: Graph<R>, addr: map<R, Path>, sub: map<R, Path>, c: R)
    requires IsTree(g1, addr) && IsTree(g2, sub) && addr.Keys !! sub.Keys && c in addr
    requires g == g1 + g2
    ensures Closed(g) && Placed(g, addr) && Placed(g, sub) && ViewOf(g, c) == ViewOf(g1, c)
  {
    ViewFrame(g1, g, addr, c);
    forall d | d in sub
      ensures PlacedAt(g, sub, d)
    {
      assert PlacedAt(g2, sub, d);
    }
  }

  /** Every node is the root or is reached from it along its own address only. */
  ghost predicate Unshared<R>(g: Graph<R>, root: R, addr: map<R, Path>)
  {
    && IsTree(g, addr) && root in g && addr[root] == []
    && forall c :: c in g && c != root ==> addr[c] != [] && Lookup(g, root, addr[c]) == Some(Sub(c))
  }

  // ---------------------------------------------------------------- the laws of Set and Get

  /** After a successful Set of a plain value on a tree: every case variant of the key
      reads the value, the paths above read as configurations, the paths below read
      nothing, and every other path reads as before. */
  lemma SetThenGet<R>(g: Graph<R>, g': Graph<R>, addr: map<R, Path>, c: R, key: string, x: Scalar, supply: seq<R>)
    requires Sets(g, g', c, PathOf(key), Leaf(x), supply, true) && Placed(g, addr) && c in addr
    ensures c in g'
    ensures forall k :: DifferInCase(k, key) ==> Lookup(g', c, PathOf(k)) == Some(Leaf(x))
    ensures forall q :: q != [] && StrictlyAbove(q, PathOf(key)) ==> ReadKind(g', c, q) == Some(NodeK)
    ensures forall q :: StrictlyAbove(PathOf(key), q) ==> Lookup(g', c, q) == None
    ensures forall q :: q != [] && Incomparable(PathOf(key), q) ==> ReadKind(g', c, q) == ReadKind(g, c, q)
  {
    var p := PathOf(key);
    forall k | DifferInCase(k, key)
      ensures Lookup(g', c, PathOf(k)) == Some(Leaf(x))
    {
      CaseVariants(k, key);
      SetThenRead(g, g', addr, c, p, x, supply, p);
    }
    forall q | q != [] && StrictlyAbove(q, p)
      ensures ReadKind(g', c, q) == Some(NodeK)
    {
      SetThenRead(g, g', addr, c, p, x, supply, q);
    }
    forall q | StrictlyAbove(p, q)
      ensures Lookup(g', c, q) == None
    {
      SetThenRead(g, g', addr, c, p, x, supply, q);
    }
    forall q | q != [] && Incomparable(p, q)
      ensures ReadKind(g', c, q) == ReadKind(g, c, q)
    {
      SetThenRead(g, g', addr, c, p, x, supply, q);
    }
  }

  lemma SetThenRead<R>(g: Graph<R>, g': Graph<R>, addr: map<R, Path>, c: R, p: Path, x: Scalar, supply: seq<R>, q: Path)
    requires Sets(g, g', c, p, Leaf(x), supply, true) && Placed(g, addr) && c in addr && q != []
    ensures c in g'
    ensures q == p ==> Lookup(g', c, q) == Some(Leaf(x))
    ensures StrictlyAbove(q, p) ==> ReadKind(g', c, q) == Some(NodeK)
    ensures StrictlyAbove(p, q) ==> Lookup(g', c, q) == None
    ensures Incomparable(p, q) ==> ReadKind(g', c, q) == ReadKind(g, c, q)
  {
    SetReads(g, addr, c, p, Leaf(x), supply, {}, q);
  }

  /** Set fails exactly when a plain value sits strictly above its path, and then it has
      created nothing and changed nothing. */
  lemma SetFailsExactly<R>(g: Graph<R>, g': Graph<R>, c: R, p: Path, v: Value<R>, supply: seq<R>, ok: bool)
    requires Sets(g, g', c, p, v, supply, ok)
    ensures !ok <==> exists q :: q != [] && StrictlyAbove(q, p) && Lookup(g, c, q).Some? && Lookup(g, c, q).value.Leaf?
    ensures !ok ==> g' == g && supply == []
  {
    SetSucceeds(g, c, p, v, supply);
    var t := ViewOf(g, c);
    if Blocked(t, p) {
      var q :| StrictlyAbove(q, p) && q in t && t[q].LeafK?;
      assert q != [] && Lookup(g, c, q).Some? && Lookup(g, c, q).value.Leaf?;
    }
    if q :| q != [] && StrictlyAbove(q, p) && Lookup(g, c, q).Some? && Lookup(g, c, q).value.Leaf? {
      assert q in t && t[q].LeafK?;
    }
    if !ok { SetFails(g, c, p, v, supply); }
  }
}
