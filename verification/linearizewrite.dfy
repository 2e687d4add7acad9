/** The step that stores a value keeps the linearization invariant. */
module LinearizeWrite {
  import opened Text
  import opened Views
  import opened Graphs
  import opened ConcurrentSet
  import opened Linearize

  /** Call t stores its value in node c; h' is the history with t's call inserted at c's position. */
  ghost predicate Writing(s: State, h: Hist, h': Hist, calls: seq<Call>, t: nat, s': State, c: Ref, k: string)
  {
    && ValidCalls(calls) && t < |calls| == |s.pcs| == |s.before| && Sized(s.g, h)
    && c in s.g && calls[t].path == h.path[c] + [k]
    && s.pcs[t] == Locking(c, |h.path[c]|)
    && s' == s.(g := Put1(s.g, c, k, Leaf(calls[t].leaf)), pcs := s.pcs[t := Done(true)])
    && Inserted(h, h', calls, t, h.pos[c])
  }

  lemma AboveChild(q: Path, a: Path, k: string)
    ensures StrictlyAbove(q, a + [k]) <==> Above(q, a)
    ensures Above(q, a + [k]) <==> Above(q, a) || q == a + [k]
    ensures StrictlyAbove(a, a + [k])
  {
    assert (a + [k])[..|a|] == a;
    if |q| <= |a| {
      assert (a + [k])[..|q|] == a[..|q|];
    } else if |q| == |a| + 1 {
      assert (a + [k])[..|q|] == a + [k];
    }
  }

  lemma TakeNext(p: Path, d: nat)
    requires d < |p|
    ensures p[..d + 1] == p[..d] + [p[d]]
    ensures d + 1 == |p| ==> p == p[..d] + [p[d]]
    ensures d + 1 < |p| ==> StrictlyAbove(p[..d] + [p[d]], p)
  {
  }

  lemma HeadTail(a: Path, q: Path)
    requires q != []
    ensures |q| == 1 ==> q == [q[0]]
    ensures |q| > 1 ==> (a + [q[0]]) + q[1..] == a + q && StrictlyAbove(a + [q[0]], a + q)
    ensures a + [q[0]] != []
  {
  }

  lemma ChildInjective(a: Path, k: string, b: Path, l: string)
    ensures a + [k] == b + [l] <==> a == b && k == l
  {
    if a + [k] == b + [l] {
      assert a == (a + [k])[..|a|] && k == (a + [k])[|a|];
      assert b == (b + [l])[..|b|] && l == (b + [l])[|b|];
    }
  }

  lemma WriteUnblocked(s: State, h: Hist, h': Hist, root: Ref, calls: seq<Call>, t: nat, s': State, c: Ref, k: string)
    requires Writing(s, h, h', calls, t, s', c, k) && Nodes(s.g, h, root, calls)
    ensures !Blocked(h.views[h.pos[c]], calls[t].path)
  {
    var u, p := h.views[h.pos[c]], calls[t].path;
    forall q | StrictlyAbove(q, p) && q in u
      ensures !u[q].LeafK?
    {
      AboveChild(q, h.path[c], k);
    }
  }

  lemma WriteFits(s: State, h: Hist, h': Hist, t0: View, root: Ref, calls: seq<Call>, t: nat, s': State, c: Ref, k: string)
    requires Writing(s, h, h', calls, t, s', c, k) && Nodes(s.g, h, root, calls) && Chain(h, t0, calls)
    ensures Fits(h, calls, t, h.pos[c])
  {
    var i, p := h.pos[c], calls[t].path;
    if i < |h.log| {
      assert Detached(h, calls, c);
      var b := calls[h.log[i]];
      AboveChild(b.path, h.path[c], k);
      OverwriteAbsorbs(h.views[i], p, PutLeaf(calls[t].leaf), b.path, PutLeaf(b.leaf));
    }
  }

  lemma WriteNodes(s: State, h: Hist, h': Hist, root: Ref, calls: seq<Call>, t: nat, s': State, c: Ref, k: string)
    requires Writing(s, h, h', calls, t, s', c, k) && Nodes(s.g, h, root, calls)
    ensures Sized(s'.g, h') && Nodes(s'.g, h', root, calls)
  {
    WriteUnblocked(s, h, h', root, calls, t, s', c, k);
    WriteSized(s, h, h', calls, t, s', c, k);
    forall x | x in s'.g && h'.pos[x] < |h'.log|
      ensures Detached(h', calls, x)
    {
      WriteDetached(s, h, h', root, calls, t, s', c, k, x);
    }
    forall x, q | x in s'.g && Above(q, h'.path[x]) && q in h'.views[h'.pos[x]]
      ensures h'.views[h'.pos[x]][q] == NodeK
    {
      WriteClear(s, h, h', root, calls, t, s', c, k, x, q);
    }
  }

  lemma WriteSized(s: State, h: Hist, h': Hist, calls: seq<Call>, t: nat, s': State, c: Ref, k: string)
    requires Writing(s, h, h', calls, t, s', c, k)
    ensures Sized(s'.g, h')
  {
    forall x | x in s'.g
      ensures h'.pos[x] <= |h'.log|
    {
      InsertedView(h, h', calls, t, h.pos[c], x);
    }
  }

  lemma WriteClear(s: State, h: Hist, h': Hist, root: Ref, calls: seq<Call>, t: nat, s': State, c: Ref, k: string, x: Ref, q: Path)
    requires Writing(s, h, h', calls, t, s', c, k) && Nodes(s.g, h, root, calls) && x in s.g
    requires h'.pos[x] <= |h'.log| && Above(q, h.path[x]) && q in h'.views[h'.pos[x]]
    ensures h'.views[h'.pos[x]][q] == NodeK
  {
    var p := calls[t].path;
    InsertedView(h, h', calls, t, h.pos[c], x);
    AboveTrans(p, q, h.path[x]);
    AboveStrict(p, q);
  }

  lemma WriteDetached(s: State, h: Hist, h': Hist, root: Ref, calls: seq<Call>, t: nat, s': State, c: Ref, k: string, x: Ref)
    requires Writing(s, h, h', calls, t, s', c, k) && Nodes(s.g, h, root, calls) && x in s.g
    requires !Blocked(h.views[h.pos[c]], calls[t].path)
    ensures h'.pos[x] <= |h'.log|
    ensures h'.pos[x] < |h'.log| ==> Detached(h', calls, x)
  {
    var i, p := h.pos[c], calls[t].path;
    if h.pos[x] < |h.log| {
      assert Detached(h, calls, x);
      var j := h.pos[x];
      if j == i && !Above(p, h.path[x]) {
        assert h'.log[i + 1] == h.log[i];
        assert h'.views[i + 1] == Ap(h.views[i], calls[t]);
        assert Detached(h, calls, c);
        var b := calls[h.log[i]];
        AboveChild(b.path, h.path[c], k);
        if b.path != [] {
          OverwriteAbsorbs(h.views[i], p, PutLeaf(calls[t].leaf), b.path, PutLeaf(b.leaf));
        }
      } else if j > i {
        assert h'.log[j + 1] == h.log[j] && h'.views[j + 1] == h.views[j];
      } else if j == i {
        assert h'.log[i] == t;
      }
    } else if i == |h.log| && Above(p, h.path[x]) {
      assert h'.log[i] == t;
    }
  }

  lemma WriteSpread(s: State, h: Hist, h': Hist, calls: seq<Call>, t: nat, s': State, c: Ref, k: string)
    requires Writing(s, h, h', calls, t, s', c, k) && Sized(s'.g, h') && Spread(s.g, h)
    ensures Spread(s'.g, h')
  {
    forall x, y | x in s'.g && y in s'.g && h'.pos[x] == h'.pos[y] && StrictlyAbove(h'.path[y], h'.path[x])
      ensures LeadsTo(s'.g, y, h'.path[x][|h'.path[y]|])
    {
      WriteSpreadAt(s, h, h', calls, t, s', c, k, x, y);
    }
    forall x, y | x in s'.g && y in s'.g && h'.pos[x] == h'.pos[y] && h'.path[x] == h'.path[y]
      ensures x == y
    {
      ShiftInjective(s, h, h', calls, t, s', c, k, x, y);
    }
  }

  lemma ShiftInjective(s: State, h: Hist, h': Hist, calls: seq<Call>, t: nat, s': State, c: Ref, k: string, x: Ref, y: Ref)
    requires Writing(s, h, h', calls, t, s', c, k)
    requires x in s.g && y in s.g && h'.pos[x] == h'.pos[y]
    ensures h.pos[x] == h.pos[y]
  {
  }

  lemma WriteSpreadAt(s: State, h: Hist, h': Hist, calls: seq<Call>, t: nat, s': State, c: Ref, k: string, x: Ref, y: Ref)
    requires Writing(s, h, h', calls, t, s', c, k) && Spread(s.g, h)
    requires x in s.g && y in s.g && h'.pos[x] == h'.pos[y] && StrictlyAbove(h.path[y], h.path[x])
    ensures LeadsTo(s'.g, y, h.path[x][|h.path[y]|])
  {
    var p, l := calls[t].path, h.path[x][|h.path[y]|];
    ShiftInjective(s, h, h', calls, t, s', c, k, x, y);
    assert LeadsTo(s.g, y, l);
    AboveChild(p, h.path[c], k);
    assert h.path[x][..|h.path[y]| + 1] == h.path[y] + [l];
  }

  lemma WriteCells(s: State, h: Hist, h': Hist, calls: seq<Call>, t: nat, s': State, c: Ref, k: string)
    requires Writing(s, h, h', calls, t, s', c, k) && Sized(s'.g, h') && Spread(s.g, h) && Cells(s.g, h)
    requires !Blocked(h.views[h.pos[c]], calls[t].path)
    ensures Cells(s'.g, h')
  {
    var i, p := h.pos[c], calls[t].path;
    forall x, kk | x in s'.g
      ensures Cell(s'.g, h', x, kk)
    {
      assert Cell(s.g, h, x, kk);
      InsertedView(h, h', calls, t, i, x);
      AboveChild(p, h.path[x], kk);
      if h.pos[x] == i && !Above(p, h.path[x]) {
        WriteCellHere(s, h, h', calls, t, s', c, k, x, kk);
      } else {
        assert x != c by { AboveChild(p, h.path[c], k); }
      }
    }
  }

  /** Entries of the nodes that move past the inserted call. */
  lemma WriteCellHere(s: State, h: Hist, h': Hist, calls: seq<Call>, t: nat, s': State, c: Ref, k: string, x: Ref, kk: string)
    requires Writing(s, h, h', calls, t, s', c, k) && Sized(s'.g, h') && Spread(s.g, h) && x in s.g
    requires h.pos[x] == h.pos[c] && !Above(calls[t].path, h.path[x]) && Cell(s.g, h, x, kk)
    requires !Blocked(h.views[h.pos[c]], calls[t].path)
    ensures Cell(s'.g, h', x, kk)
  {
    var i, p, z := h.pos[c], calls[t].path, h.path[x] + [kk];
    InsertedView(h, h', calls, t, i, x);
    AboveChild(p, h.path[x], kk);
    ChildInjective(h.path[x], kk, h.path[c], k);
    assert z == p <==> x == c && kk == k;
    assert !StrictlyAbove(p, z);
    if StrictlyAbove(z, p) {
      WriteLeads(s, h, h', calls, t, s', c, k, x, kk);
    }
  }

  /** An entry strictly above the call's path is a configuration on the way to c. */
  lemma WriteLeads(s: State, h: Hist, h': Hist, calls: seq<Call>, t: nat, s': State, c: Ref, k: string, x: Ref, kk: string)
    requires Writing(s, h, h', calls, t, s', c, k) && Spread(s.g, h) && x in s.g && h.pos[x] == h.pos[c]
    requires StrictlyAbove(h.path[x] + [kk], calls[t].path)
    ensures LeadsTo(s.g, x, kk) && x != c
  {
    AboveChild(h.path[x] + [kk], h.path[c], k);
    AboveNext(h.path[x], kk, h.path[c]);
  }

  lemma WriteThreads(s: State, h: Hist, h': Hist, calls: seq<Call>, t: nat, s': State, c: Ref, k: string)
    requires Writing(s, h, h', calls, t, s', c, k) && Sized(s'.g, h') && Threads(s, h, calls)
    ensures Threads(s', h', calls)
  {
    forall u | 0 <= u < |calls|
      ensures Placing(s', h', calls, u)
    {
      assert Placing(s, h, calls, u);
    }
  }

  lemma WritePromises(s: State, h: Hist, h': Hist, calls: seq<Call>, t: nat, s': State, c: Ref, k: string)
    requires Writing(s, h, h', calls, t, s', c, k) && Sized(s'.g, h') && Promises(s, h, calls)
    requires Threads(s, h, calls) && Spread(s.g, h)
    requires !Blocked(h.views[h.pos[c]], calls[t].path)
    ensures Promises(s', h', calls)
  {
    forall x, kk | x in s'.g && h'.pos[x] == |h'.log| && kk in s'.g[x] && s'.g[x][kk].Sub?
      ensures Promised(s', h', calls, x, kk)
    {
      var z := h.path[x] + [kk];
      assert s.g[x][kk].Sub? && h.pos[x] == |h.log|;
      assert Promised(s, h, calls, x, kk);
      if z in h.views[|h.log|] || (h.pos[c] == |h.log| && StrictlyAbove(z, calls[t].path)) {
        WriteStays(s, h, h', calls, t, s', c, k, x, kk);
      } else {
        var u: nat :| Carries(s, h, calls, u, z);
        WriteCarries(s, h, h', calls, t, s', c, k, x, kk, u);
      }
    }
  }

  /** A configuration that is in the view, or on the call's way, is in the new view. */
  lemma WriteStays(s: State, h: Hist, h': Hist, calls: seq<Call>, t: nat, s': State, c: Ref, k: string, x: Ref, kk: string)
    requires Writing(s, h, h', calls, t, s', c, k) && Spread(s.g, h)
    requires !Blocked(h.views[h.pos[c]], calls[t].path)
    requires x in s.g && h'.pos[x] == |h'.log| && kk in s'.g[x] && s'.g[x][kk].Sub?
    requires h.path[x] + [kk] in h.views[|h.log|]
          || (h.pos[c] == |h.log| && StrictlyAbove(h.path[x] + [kk], calls[t].path))
    ensures h'.path[x] + [kk] in h'.views[|h'.log|]
  {
    InsertedView(h, h', calls, t, h.pos[c], x);
    if h.pos[c] == |h.log| {
      WriteNotAt(s, h, h', calls, t, s', c, k, x, kk);
      AboveChild(calls[t].path, h.path[x], kk);
    }
  }

  /** The stored entry's own path is not the path of a configuration that stays attached. */
  lemma WriteNotAt(s: State, h: Hist, h': Hist, calls: seq<Call>, t: nat, s': State, c: Ref, k: string, x: Ref, kk: string)
    requires Writing(s, h, h', calls, t, s', c, k) && Spread(s.g, h)
    requires x in s.g && h.pos[x] == h.pos[c] && kk in s'.g[x] && s'.g[x][kk].Sub?
    ensures h.path[x] + [kk] != calls[t].path
  {
    ChildInjective(h.path[x], kk, h.path[c], k);
  }

  lemma WriteCarries(s: State, h: Hist, h': Hist, calls: seq<Call>, t: nat, s': State, c: Ref, k: string, x: Ref, kk: string, u: nat)
    requires Writing(s, h, h', calls, t, s', c, k) && Threads(s, h, calls) && Spread(s.g, h)
    requires x in s.g && h'.pos[x] == |h'.log| && kk in s'.g[x] && s'.g[x][kk].Sub?
    requires Carries(s, h, calls, u, h.path[x] + [kk])
    requires h.pos[c] == |h.log| ==> !StrictlyAbove(h.path[x] + [kk], calls[t].path)
    ensures Promised(s', h', calls, x, kk)
  {
    var z := h.path[x] + [kk];
    if h.pos[c] == |h.log| {
      WriteNotAt(s, h, h', calls, t, s', c, k, x, kk);
      WriteOther(s, h, h', calls, t, s', c, k, u, z);
      AboveChild(calls[t].path, h.path[x], kk);
      WriteAside(s, h, h', calls, t, s', c, k, u, z);
    }
    assert Carries(s', h', calls, u, z);
  }

  /** The writing call carries only what is strictly above its path. */
  lemma WriteOther(s: State, h: Hist, h': Hist, calls: seq<Call>, t: nat, s': State, c: Ref, k: string, u: nat, z: Path)
    requires Writing(s, h, h', calls, t, s', c, k) && Carries(s, h, calls, u, z) && !StrictlyAbove(z, calls[t].path)
    ensures u != t
  {
    AboveChild(z, h.path[c], k);
  }

  /** A call that carries something not below the stored value is not working below it either. */
  lemma WriteAside(s: State, h: Hist, h': Hist, calls: seq<Call>, t: nat, s': State, c: Ref, k: string, u: nat, z: Path)
    requires Writing(s, h, h', calls, t, s', c, k) && Carries(s, h, calls, u, z)
    requires !StrictlyAbove(z, calls[t].path) && !Above(calls[t].path, z)
    ensures !Above(calls[t].path, h.path[s.pcs[u].node])
  {
    var at := h.path[s.pcs[u].node];
    AboveTrans(calls[t].path, at, Route(s.pcs[u], at, calls[u]));
    Comparable(z, calls[t].path, Route(s.pcs[u], at, calls[u]));
    AboveStrict(z, calls[t].path);
    AboveRoute(s.pcs[u], at, calls[u]);
  }

  lemma AboveRoute(pc: Pc, at: Path, call: Call)
    requires InFlight(pc)
    ensures Above(at, Route(pc, at, call))
  {
  }
}
