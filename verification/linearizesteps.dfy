/** The remaining steps keep the linearization invariant: starting, passing through
    an existing entry, creating a configuration, entering it, and failing. */
module LinearizeSteps {
  import opened Text
  import opened Views
  import opened Graphs
  import opened ConcurrentSet
  import opened Linearize
  import opened LinearizeWrite

  /** Call t finds a plain value under key k of node c and fails. */
  ghost predicate Failing(s: State, h: Hist, h': Hist, calls: seq<Call>, t: nat, s': State, c: Ref, k: string)
  {
    && ValidCalls(calls) && t < |calls| == |s.pcs| == |s.before| && Sized(s.g, h)
    && c in s.g && k in s.g[c] && s.g[c][k].Leaf?
    && StrictlyAbove(h.path[c] + [k], calls[t].path)
    && s.pcs[t] == Reread(c, |h.path[c]|)
    && s' == s.(pcs := s.pcs[t := Done(false)])
    && Inserted(h, h', calls, t, h.pos[c])
  }

  lemma FailBlocked(s: State, h: Hist, h': Hist, calls: seq<Call>, t: nat, s': State, c: Ref, k: string)
    requires Failing(s, h, h', calls, t, s', c, k) && Cells(s.g, h)
    ensures Blocked(h.views[h.pos[c]], calls[t].path)
    ensures Ap(h.views[h.pos[c]], calls[t]) == h.views[h.pos[c]]
  {
    assert Cell(s.g, h, c, k);
    assert StrictlyAbove(h.path[c] + [k], calls[t].path);
  }

  /** Nothing at c's position lies below the failing call's path. */
  lemma FailNoneBelow(s: State, h: Hist, h': Hist, root: Ref, calls: seq<Call>, t: nat, s': State, c: Ref, k: string, x: Ref)
    requires Failing(s, h, h', calls, t, s', c, k) && Cells(s.g, h) && Nodes(s.g, h, root, calls)
    requires x in s.g && h.pos[x] == h.pos[c]
    ensures !Above(calls[t].path, h.path[x])
  {
    assert Cell(s.g, h, c, k);
    var r, p := h.path[c] + [k], calls[t].path;
    assert Above(r, p);
    AboveTrans(r, p, h.path[x]);
  }

  /** Every node keeps its view; the node's position only moves past the inserted call. */
  lemma FailSameView(s: State, h: Hist, h': Hist, root: Ref, calls: seq<Call>, t: nat, s': State, c: Ref, k: string, x: Ref)
    requires Failing(s, h, h', calls, t, s', c, k) && Cells(s.g, h) && Nodes(s.g, h, root, calls) && x in s.g
    ensures h'.pos[x] == (if h.pos[x] < h.pos[c] then h.pos[x] else h.pos[x] + 1) <= |h'.log|
    ensures h'.views[h'.pos[x]] == h.views[h.pos[x]]
  {
    FailBlocked(s, h, h', calls, t, s', c, k);
    InsertedView(h, h', calls, t, h.pos[c], x);
    if h.pos[x] == h.pos[c] { FailNoneBelow(s, h, h', root, calls, t, s', c, k, x); }
  }

  lemma FailNodes(s: State, h: Hist, h': Hist, root: Ref, t0: View, calls: seq<Call>, t: nat, s': State, c: Ref, k: string)
    requires Failing(s, h, h', calls, t, s', c, k) && Cells(s.g, h) && Nodes(s.g, h, root, calls) && Chain(h, t0, calls)
    ensures Fits(h, calls, t, h.pos[c])
    ensures Sized(s'.g, h') && Nodes(s'.g, h', root, calls)
  {
    FailFits(s, h, h', t0, calls, t, s', c, k);
    forall x | x in s'.g
      ensures h'.pos[x] <= |h'.log|
      ensures h'.pos[x] < |h'.log| ==> Detached(h', calls, x)
      ensures h'.views[h'.pos[x]] == h.views[h.pos[x]]
    {
      FailSameView(s, h, h', root, calls, t, s', c, k, x);
      if h'.pos[x] < |h'.log| { FailDetached(s, h, h', root, calls, t, s', c, k, x); }
    }
    FailSameView(s, h, h', root, calls, t, s', c, k, root);
  }

  lemma FailFits(s: State, h: Hist, h': Hist, t0: View, calls: seq<Call>, t: nat, s': State, c: Ref, k: string)
    requires Failing(s, h, h', calls, t, s', c, k) && Cells(s.g, h) && Chain(h, t0, calls)
    ensures Fits(h, calls, t, h.pos[c])
  {
    FailBlocked(s, h, h', calls, t, s', c, k);
  }

  lemma FailDetached(s: State, h: Hist, h': Hist, root: Ref, calls: seq<Call>, t: nat, s': State, c: Ref, k: string, x: Ref)
    requires Failing(s, h, h', calls, t, s', c, k) && Cells(s.g, h) && Nodes(s.g, h, root, calls)
    requires x in s.g && h'.pos[x] < |h'.log|
    ensures Detached(h', calls, x)
  {
    FailSameView(s, h, h', root, calls, t, s', c, k, x);
    assert Detached(h, calls, x);
    var j := h.pos[x];
    if j >= h.pos[c] { assert h'.log[j + 1] == h.log[j]; }
  }

  lemma FailCells(s: State, h: Hist, h': Hist, root: Ref, calls: seq<Call>, t: nat, s': State, c: Ref, k: string)
    requires Failing(s, h, h', calls, t, s', c, k) && Cells(s.g, h) && Nodes(s.g, h, root, calls)
    requires Sized(s'.g, h')
    ensures Cells(s'.g, h')
  {
    forall x, kk | x in s'.g
      ensures Cell(s'.g, h', x, kk)
    {
      assert Cell(s.g, h, x, kk);
      FailSameView(s, h, h', root, calls, t, s', c, k, x);
      if kk in s.g[x] && s.g[x][kk].Sub? {
        FailSameView(s, h, h', root, calls, t, s', c, k, s.g[x][kk].node);
      }
    }
  }

  lemma FailSpread(s: State, h: Hist, h': Hist, root: Ref, calls: seq<Call>, t: nat, s': State, c: Ref, k: string)
    requires Failing(s, h, h', calls, t, s', c, k) && Cells(s.g, h) && Nodes(s.g, h, root, calls) && Spread(s.g, h)
    requires Sized(s'.g, h')
    ensures Spread(s'.g, h')
  {
    forall x, y | x in s'.g && y in s'.g && h'.pos[x] == h'.pos[y]
      ensures h.pos[x] == h.pos[y]
    {
      FailSameView(s, h, h', root, calls, t, s', c, k, x);
      FailSameView(s, h, h', root, calls, t, s', c, k, y);
    }
  }

  lemma FailThreads(s: State, h: Hist, h': Hist, calls: seq<Call>, t: nat, s': State, c: Ref, k: string)
    requires Failing(s, h, h', calls, t, s', c, k) && Sized(s'.g, h') && Threads(s, h, calls)
    ensures Threads(s', h', calls)
  {
    forall u | 0 <= u < |calls|
      ensures Placing(s', h', calls, u)
    {
      assert Placing(s, h, calls, u);
    }
  }

  lemma FailPromises(s: State, h: Hist, h': Hist, root: Ref, t0: View, calls: seq<Call>, t: nat, s': State, c: Ref, k: string)
    requires Failing(s, h, h', calls, t, s', c, k) && Cells(s.g, h) && Nodes(s.g, h, root, calls) && Chain(h, t0, calls)
    requires Sized(s'.g, h') && Promises(s, h, calls) && Threads(s, h, calls)
    ensures Promises(s', h', calls)
  {
    forall x, kk | x in s'.g && h'.pos[x] == |h'.log| && kk in s'.g[x] && s'.g[x][kk].Sub?
      ensures Promised(s', h', calls, x, kk)
    {
      var z := h.path[x] + [kk];
      assert Promised(s, h, calls, x, kk);
      FailSameView(s, h, h', root, calls, t, s', c, k, x);
      if z !in h.views[|h.log|] {
        var u: nat :| Carries(s, h, calls, u, z);
        FailCarries(s, h, h', root, t0, calls, t, s', c, k, z, u);
      }
    }
  }

  /** A promise made by another call survives; the failing call's own promises are kept
      because the value that blocks it lies below them. */
  lemma FailCarries(s: State, h: Hist, h': Hist, root: Ref, t0: View, calls: seq<Call>, t: nat, s': State, c: Ref, k: string, z: Path, u: nat)
    requires Failing(s, h, h', calls, t, s', c, k) && Cells(s.g, h) && Nodes(s.g, h, root, calls) && Chain(h, t0, calls)
    requires Sized(s'.g, h') && Threads(s, h, calls) && z != []
    requires z !in h.views[|h.log|] && Carries(s, h, calls, u, z)
    ensures Carries(s', h', calls, u, z)
  {
    if u == t { FailOwn(s, h, h', root, t0, calls, t, s', c, k, z); }
    FailSameView(s, h, h', root, calls, t, s', c, k, s.pcs[u].node);
  }

  lemma FailOwn(s: State, h: Hist, h': Hist, root: Ref, t0: View, calls: seq<Call>, t: nat, s': State, c: Ref, k: string, z: Path)
    requires Failing(s, h, h', calls, t, s', c, k) && Cells(s.g, h) && Chain(h, t0, calls)
    requires Threads(s, h, calls) && z != [] && Carries(s, h, calls, t, z)
    ensures z in h.views[|h.log|]
  {
    var r, p := h.path[c] + [k], calls[t].path;
    assert Cell(s.g, h, c, k);
    assert r == p[..|r|] && r[|h.path[c]|] == p[|h.path[c]|];
    assert Above(z, r);
    assert StrictlyAbove(z, r) || z == r;
  }

  /** Steps that leave the graph and the log alone: call t moves within one position. */
  lemma MoveKeeps(s: State, h: Hist, calls: seq<Call>, t: nat, pc: Pc)
    requires t < |calls| == |s.pcs| == |s.before| && Sized(s.g, h) && Flow(s, h, calls)
    requires InFlight(s.pcs[t]) && InFlight(pc) && pc.node in s.g && s.pcs[t].node in s.g
    requires Placing(s.(pcs := s.pcs[t := pc]), h, calls, t)
    requires h.pos[pc.node] == h.pos[s.pcs[t].node]
    requires Above(Route(s.pcs[t], h.path[s.pcs[t].node], calls[t]), Route(pc, h.path[pc.node], calls[t]))
    ensures Flow(s.(pcs := s.pcs[t := pc]), h, calls)
  {
    MoveThreads(s, h, calls, t, pc);
    MovePromises(s, h, calls, t, pc);
    MoveOrder(s, h, calls, t, pc);
  }

  lemma MoveThreads(s: State, h: Hist, calls: seq<Call>, t: nat, pc: Pc)
    requires t < |calls| == |s.pcs| && Sized(s.g, h) && Threads(s, h, calls)
    requires Placing(s.(pcs := s.pcs[t := pc]), h, calls, t)
    ensures Threads(s.(pcs := s.pcs[t := pc]), h, calls)
  {
    var s' := s.(pcs := s.pcs[t := pc]);
    forall u | 0 <= u < |calls|
      ensures Placing(s', h, calls, u)
    {
      assert Placing(s, h, calls, u);
    }
  }

  lemma MovePromises(s: State, h: Hist, calls: seq<Call>, t: nat, pc: Pc)
    requires Sized(s.g, h) && Promises(s, h, calls) && t < |calls| == |s.pcs|
    requires InFlight(s.pcs[t]) && InFlight(pc) && pc.node in s.g && s.pcs[t].node in s.g
    requires h.pos[pc.node] == h.pos[s.pcs[t].node]
    requires Above(Route(s.pcs[t], h.path[s.pcs[t].node], calls[t]), Route(pc, h.path[pc.node], calls[t]))
    ensures Promises(s.(pcs := s.pcs[t := pc]), h, calls)
  {
    var s' := s.(pcs := s.pcs[t := pc]);
    forall x, kk | x in s'.g && h.pos[x] == |h.log| && kk in s'.g[x] && s'.g[x][kk].Sub?
      ensures Promised(s', h, calls, x, kk)
    {
      assert Promised(s, h, calls, x, kk);
      var z := h.path[x] + [kk];
      if z !in h.views[|h.log|] {
        var u: nat :| Carries(s, h, calls, u, z);
        AboveTrans(z, Route(s.pcs[t], h.path[s.pcs[t].node], calls[t]), Route(pc, h.path[pc.node], calls[t]));
        assert Carries(s', h, calls, u, z);
      }
    }
  }

  lemma MoveOrder(s: State, h: Hist, calls: seq<Call>, t: nat, pc: Pc)
    requires |h.views| == |h.log| + 1 && Results(s, h, calls) && Order(s, h) && t < |calls|
    requires InFlight(s.pcs[t]) && InFlight(pc)
    requires s.pcs[t].node in h.pos && pc.node in h.pos && h.pos[pc.node] == h.pos[s.pcs[t].node]
    ensures var s' := s.(pcs := s.pcs[t := pc]); Results(s', h, calls) && Order(s', h)
  {
    var s' := s.(pcs := s.pcs[t := pc]);
    assert Returned(s') == Returned(s);
    forall u, i | 0 <= u < |s'.pcs| && InFlight(s'.pcs[u]) && 0 <= i < |h.log| && h.log[i] in s'.before[u]
                  && s'.pcs[u].node in h.pos
      ensures i < h.pos[s'.pcs[u].node]
    {
      assert InFlight(s.pcs[u]);
    }
  }

  lemma StartKeeps(s: State, h: Hist, root: Ref, t0: View, calls: seq<Call>, t: nat, s': State)
    requires Inv(s, h, root, t0, calls) && t < |calls| && Starts(s, s', root, t)
    ensures Inv(s', h, root, t0, calls)
  {
    StartFlow(s, h, root, calls, t, s');
  }

  lemma StartFlow(s: State, h: Hist, root: Ref, calls: seq<Call>, t: nat, s': State)
    requires Flow(s, h, calls) && t < |calls| && Starts(s, s', root, t)
    requires root in s.g && h.pos[root] == |h.log| && h.path[root] == [] && calls[t].path != []
    ensures Flow(s', h, calls)
  {
    StartThreads(s, h, root, calls, t, s');
    StartPromises(s, h, root, calls, t, s');
    StartOrder(s, h, root, calls, t, s');
  }

  lemma StartThreads(s: State, h: Hist, root: Ref, calls: seq<Call>, t: nat, s': State)
    requires |s.pcs| == |s.before| == |calls| && t < |calls| && Sized(s.g, h) && Threads(s, h, calls) && Starts(s, s', root, t)
    requires root in s.g && h.path[root] == [] && calls[t].path != []
    ensures Threads(s', h, calls)
  {
    forall u | 0 <= u < |calls|
      ensures Placing(s', h, calls, u)
    {
      assert Placing(s, h, calls, u);
    }
  }

  lemma StartPromises(s: State, h: Hist, root: Ref, calls: seq<Call>, t: nat, s': State)
    requires |s.pcs| == |s.before| == |calls| && t < |calls| && Sized(s.g, h) && Promises(s, h, calls) && Starts(s, s', root, t)
    ensures Promises(s', h, calls)
  {
    forall x, kk | x in s'.g && h.pos[x] == |h.log| && kk in s'.g[x] && s'.g[x][kk].Sub?
      ensures Promised(s', h, calls, x, kk)
    {
      assert Promised(s, h, calls, x, kk);
      var z := h.path[x] + [kk];
      if z !in h.views[|h.log|] {
        var u: nat :| Carries(s, h, calls, u, z);
        assert Carries(s', h, calls, u, z);
      }
    }
  }

  lemma StartOrder(s: State, h: Hist, root: Ref, calls: seq<Call>, t: nat, s': State)
    requires |h.views| == |h.log| + 1 && Results(s, h, calls) && Order(s, h) && t < |calls| && Starts(s, s', root, t)
    requires root in h.pos && h.pos[root] == |h.log|
    ensures Results(s', h, calls) && Order(s', h)
  {
    assert Returned(s') == Returned(s);
    forall i, j | 0 <= i < |h.log| && 0 <= j < |h.log| && h.log[j] < |s'.pcs| && h.log[i] in s'.before[h.log[j]]
      ensures i < j
    {
      assert h.log[j] != t;
    }
  }
}
