/** Creating a missing configuration keeps the linearization invariant. */
module LinearizeCreate {
  import opened Text
  import opened Views
  import opened Graphs
  import opened ConcurrentSet
  import opened Linearize
  import opened LinearizeWrite

  /** Call t creates configuration n under key k of node c, which had no such entry. */
  ghost predicate Creating(s: State, h: Hist, h': Hist, calls: seq<Call>, t: nat, s': State, c: Ref, k: string, n: Ref)
  {
    && ValidCalls(calls) && t < |calls| == |s.pcs| == |s.before| && Sized(s.g, h)
    && c in s.g && k !in s.g[c] && n !in s.g
    && s.pcs[t] == Locking(c, |h.path[c]|)
    && StrictlyAbove(h.path[c] + [k], calls[t].path)
    && s' == State(Put1(s.g, c, k, Sub(n))[n := map[]], s.pcs[t := Reread(c, |h.path[c]|)], s.before)
    && h' == h.(pos := h.pos[n := h.pos[c]], path := h.path[n := h.path[c] + [k]])
  }

  lemma CreateNodes(s: State, h: Hist, h': Hist, root: Ref, t0: View, calls: seq<Call>, t: nat, s': State, c: Ref, k: string, n: Ref)
    requires Creating(s, h, h', calls, t, s', c, k, n)
    requires Chain(h, t0, calls) && Nodes(s.g, h, root, calls) && Cells(s.g, h)
    ensures Sized(s'.g, h') && Nodes(s'.g, h', root, calls)
  {
    assert Cell(s.g, h, c, k);
    CreateSized(s, h, h', calls, t, s', c, k, n);
    forall x | x in s'.g && h'.pos[x] < |h'.log|
      ensures Detached(h', calls, x)
    {
      CreateDetached(s, h, h', root, calls, t, s', c, k, n, x);
    }
    forall x, q | x in s'.g && Above(q, h'.path[x]) && q in h'.views[h'.pos[x]]
      ensures h'.views[h'.pos[x]][q] == NodeK
    {
      CreateClear(s, h, h', root, t0, calls, t, s', c, k, n, x, q);
    }
  }

  lemma CreateSized(s: State, h: Hist, h': Hist, calls: seq<Call>, t: nat, s': State, c: Ref, k: string, n: Ref)
    requires Creating(s, h, h', calls, t, s', c, k, n)
    ensures Sized(s'.g, h')
  {
    var g': Graph<Ref> := s'.g;
    forall x: Ref, kk: string | x in g' && kk in g'[x] && g'[x][kk].Sub?
      ensures g'[x][kk].node in g'
    {
      if x != n && (x != c || kk != k) { assert s.g[x][kk] == g'[x][kk]; }
    }
  }

  lemma CreateClear(s: State, h: Hist, h': Hist, root: Ref, t0: View, calls: seq<Call>, t: nat, s': State, c: Ref, k: string, n: Ref, x: Ref, q: Path)
    requires Creating(s, h, h', calls, t, s', c, k, n) && Nodes(s.g, h, root, calls) && Cell(s.g, h, c, k)
    requires x in s'.g && Above(q, h'.path[x]) && q in h.views[h'.pos[x]]
    ensures h.views[h'.pos[x]][q] == NodeK
  {
    if x == n {
      AboveChild(q, h.path[c], k);
      assert Above(q, h.path[c]);
    } else {
      assert Above(q, h.path[x]);
    }
  }

  lemma CreateDetached(s: State, h: Hist, h': Hist, root: Ref, calls: seq<Call>, t: nat, s': State, c: Ref, k: string, n: Ref, x: Ref)
    requires Creating(s, h, h', calls, t, s', c, k, n) && Nodes(s.g, h, root, calls)
    requires x in s'.g && h'.pos[x] < |h'.log|
    ensures Detached(h', calls, x)
  {
    if x == n {
      assert Detached(h, calls, c);
      AboveChild(calls[h.log[h.pos[c]]].path, h.path[c], k);
    } else {
      assert Detached(h, calls, x);
    }
  }

  lemma CreateCells(s: State, h: Hist, h': Hist, t0: View, calls: seq<Call>, t: nat, s': State, c: Ref, k: string, n: Ref)
    requires Creating(s, h, h', calls, t, s', c, k, n)
    requires Chain(h, t0, calls) && Cells(s.g, h) && Sized(s'.g, h')
    ensures Cells(s'.g, h')
  {
    assert Cell(s.g, h, c, k);
    forall x, kk | x in s'.g
      ensures Cell(s'.g, h', x, kk)
    {
      if x == n {
        AboveChild(h'.path[n], h'.path[n], kk);
      } else {
        assert Cell(s.g, h, x, kk);
      }
    }
  }

  lemma CreateSpread(s: State, h: Hist, h': Hist, calls: seq<Call>, t: nat, s': State, c: Ref, k: string, n: Ref)
    requires Creating(s, h, h', calls, t, s', c, k, n) && Spread(s.g, h) && Sized(s'.g, h')
    ensures Spread(s'.g, h')
  {
    forall x, y | x in s'.g && y in s'.g && h'.pos[x] == h'.pos[y] && StrictlyAbove(h'.path[y], h'.path[x])
      ensures LeadsTo(s'.g, y, h'.path[x][|h'.path[y]|])
    {
      CreateSpreadAt(s, h, h', calls, t, s', c, k, n, x, y);
    }
    forall x, y | x in s'.g && y in s'.g && h'.pos[x] == h'.pos[y] && h'.path[x] == h'.path[y]
      ensures x == y
    {
      if x != n { CreateApart(s, h, h', calls, t, s', c, k, n, x); }
      if y != n { CreateApart(s, h, h', calls, t, s', c, k, n, y); }
    }
  }

  lemma CreateSpreadAt(s: State, h: Hist, h': Hist, calls: seq<Call>, t: nat, s': State, c: Ref, k: string, n: Ref, x: Ref, y: Ref)
    requires Creating(s, h, h', calls, t, s', c, k, n) && Spread(s.g, h)
    requires x in s'.g && y in s'.g && h'.pos[x] == h'.pos[y] && StrictlyAbove(h'.path[y], h'.path[x])
    ensures LeadsTo(s'.g, y, h'.path[x][|h'.path[y]|])
  {
    if x == n {
      CreateLeads(s, h, h', calls, t, s', c, k, n, y);
    } else {
      if h.pos[x] == h.pos[c] { CreateAlone(s, h, h', calls, t, s', c, k, n, x); }
      assert LeadsTo(s.g, y, h.path[x][|h.path[y]|]);
    }
  }

  lemma CreateApart(s: State, h: Hist, h': Hist, calls: seq<Call>, t: nat, s': State, c: Ref, k: string, n: Ref, x: Ref)
    requires Creating(s, h, h', calls, t, s', c, k, n) && Spread(s.g, h) && x in s.g
    ensures h'.pos[x] != h'.pos[n] || h'.path[x] != h'.path[n]
  {
    if h.pos[x] == h.pos[c] { CreateAlone(s, h, h', calls, t, s', c, k, n, x); }
  }

  /** No other node of the position is at or below the new one. */
  lemma CreateAlone(s: State, h: Hist, h': Hist, calls: seq<Call>, t: nat, s': State, c: Ref, k: string, n: Ref, x: Ref)
    requires Creating(s, h, h', calls, t, s', c, k, n) && Spread(s.g, h) && x in s.g && h.pos[x] == h.pos[c]
    ensures !Above(h'.path[n], h.path[x])
  {
    AboveNext(h.path[c], k, h.path[x]);
  }

  /** The nodes above the new one lead to it. */
  lemma CreateLeads(s: State, h: Hist, h': Hist, calls: seq<Call>, t: nat, s': State, c: Ref, k: string, n: Ref, y: Ref)
    requires Creating(s, h, h', calls, t, s', c, k, n) && Spread(s.g, h) && y in s'.g
    requires h'.pos[y] == h.pos[c] && StrictlyAbove(h'.path[y], h'.path[n])
    ensures LeadsTo(s'.g, y, h'.path[n][|h'.path[y]|])
  {
    if y != n && y != c {
      AboveChild(h.path[y], h.path[c], k);
      assert LeadsTo(s.g, y, h.path[c][|h.path[y]|]);
    }
  }

  lemma CreateThreads(s: State, h: Hist, h': Hist, calls: seq<Call>, t: nat, s': State, c: Ref, k: string, n: Ref)
    requires Creating(s, h, h', calls, t, s', c, k, n) && Sized(s'.g, h') && Threads(s, h, calls)
    ensures Threads(s', h', calls)
  {
    assert k == calls[t].path[|h.path[c]|];
    assert h.path[c] == (h.path[c] + [k])[..|h.path[c]|];
    forall u | 0 <= u < |calls|
      ensures Placing(s', h', calls, u)
    {
      assert Placing(s, h, calls, u);
    }
  }

  lemma CreatePromises(s: State, h: Hist, h': Hist, calls: seq<Call>, t: nat, s': State, c: Ref, k: string, n: Ref)
    requires Creating(s, h, h', calls, t, s', c, k, n) && Sized(s'.g, h')
    requires Threads(s, h, calls) && Promises(s, h, calls)
    ensures Promises(s', h', calls)
  {
    forall x, kk | x in s'.g && h'.pos[x] == |h'.log| && kk in s'.g[x] && s'.g[x][kk].Sub?
      ensures Promised(s', h', calls, x, kk)
    {
      var z := h'.path[x] + [kk];
      if x == c && kk == k {
        assert k == calls[t].path[|h.path[c]|];
        assert Carries(s', h', calls, t, z);
      } else {
        assert Promised(s, h, calls, x, kk);
        if z !in h.views[|h.log|] {
          var u: nat :| Carries(s, h, calls, u, z);
          CreateCarries(s, h, h', calls, t, s', c, k, n, z, u);
        }
      }
    }
  }

  lemma CreateCarries(s: State, h: Hist, h': Hist, calls: seq<Call>, t: nat, s': State, c: Ref, k: string, n: Ref, z: Path, u: nat)
    requires Creating(s, h, h', calls, t, s', c, k, n) && Threads(s, h, calls) && Carries(s, h, calls, u, z)
    ensures Carries(s', h', calls, u, z)
  {
    assert Placing(s, h, calls, u);
    if u == t {
      assert k == calls[t].path[|h.path[c]|];
      AboveChild(z, h.path[c], k);
    }
  }

  lemma CreateOrder(s: State, h: Hist, h': Hist, calls: seq<Call>, t: nat, s': State, c: Ref, k: string, n: Ref)
    requires Creating(s, h, h', calls, t, s', c, k, n) && Results(s, h, calls) && Order(s, h) && Threads(s, h, calls)
    ensures Results(s', h', calls) && Order(s', h')
  {
    assert Returned(s') == Returned(s);
    forall u, i | 0 <= u < |s'.pcs| && InFlight(s'.pcs[u]) && 0 <= i < |h'.log| && h'.log[i] in s'.before[u]
                  && s'.pcs[u].node in h'.pos
      ensures i < h'.pos[s'.pcs[u].node]
    {
      assert InFlight(s.pcs[u]);
      assert Placing(s, h, calls, u);
    }
  }
}
