/** Concurrent Set is linearizable, and loading pairwise equal or incomparable paths
    is confluent. */
module Linearizable {
  import opened Text
  import opened Views
  import opened Graphs
  import opened Trees
  import opened ConcurrentSet
  import opened Linearize
  import opened LinearizeWrite
  import opened LinearizeSteps
  import opened LinearizeCreate

  /** Some history justifies the state. */
  ghost predicate Explained(s: State, root: Ref, t0: View, calls: seq<Call>)
  {
    exists h :: Inv(s, h, root, t0, calls)
  }

  lemma WriteKeeps(s: State, h: Hist, root: Ref, t0: View, calls: seq<Call>, t: nat, s': State, c: Ref, k: string) returns (h': Hist)
    requires Inv(s, h, root, t0, calls) && t < |calls| && c in s.g && calls[t].path == h.path[c] + [k]
    requires s.pcs[t] == Locking(c, |h.path[c]|)
    requires s' == s.(g := Put1(s.g, c, k, Leaf(calls[t].leaf)), pcs := s.pcs[t := Done(true)])
    ensures Inv(s', h', root, t0, calls)
  {
    h' := Insert(h, calls, t, h.pos[c]);
    WriteUnblocked(s, h, h', root, calls, t, s', c, k);
    WriteFits(s, h, h', t0, root, calls, t, s', c, k);
    WriteNodes(s, h, h', root, calls, t, s', c, k);
    InsertChain(h, h', t0, calls, t, h.pos[c]);
    WriteSpread(s, h, h', calls, t, s', c, k);
    WriteCells(s, h, h', calls, t, s', c, k);
    InsertResults(s, h, h', calls, t, h.pos[c], s');
    InsertOrder(s, h, h', calls, t, h.pos[c], s');
    WriteThreads(s, h, h', calls, t, s', c, k);
    WritePromises(s, h, h', calls, t, s', c, k);
  }

  lemma FailKeeps(s: State, h: Hist, root: Ref, t0: View, calls: seq<Call>, t: nat, s': State, c: Ref, k: string) returns (h': Hist)
    requires Inv(s, h, root, t0, calls) && t < |calls| && c in s.g && k in s.g[c] && s.g[c][k].Leaf?
    requires StrictlyAbove(h.path[c] + [k], calls[t].path)
    requires s.pcs[t] == Reread(c, |h.path[c]|)
    requires s' == s.(pcs := s.pcs[t := Done(false)])
    ensures Inv(s', h', root, t0, calls)
  {
    h' := Insert(h, calls, t, h.pos[c]);
    FailBlocked(s, h, h', calls, t, s', c, k);
    FailNodes(s, h, h', root, t0, calls, t, s', c, k);
    InsertChain(h, h', t0, calls, t, h.pos[c]);
    FailSpread(s, h, h', root, calls, t, s', c, k);
    FailCells(s, h, h', root, calls, t, s', c, k);
    InsertResults(s, h, h', calls, t, h.pos[c], s');
    InsertOrder(s, h, h', calls, t, h.pos[c], s');
    FailThreads(s, h, h', calls, t, s', c, k);
    FailPromises(s, h, h', root, t0, calls, t, s', c, k);
  }

  lemma CreateKeeps(s: State, h: Hist, root: Ref, t0: View, calls: seq<Call>, t: nat, s': State, c: Ref, k: string, n: Ref) returns (h': Hist)
    requires Inv(s, h, root, t0, calls) && t < |calls| && c in s.g && k !in s.g[c] && n !in s.g
    requires s.pcs[t] == Locking(c, |h.path[c]|) && StrictlyAbove(h.path[c] + [k], calls[t].path)
    requires s' == State(Put1(s.g, c, k, Sub(n))[n := map[]], s.pcs[t := Reread(c, |h.path[c]|)], s.before)
    ensures Inv(s', h', root, t0, calls)
  {
    h' := h.(pos := h.pos[n := h.pos[c]], path := h.path[n := h.path[c] + [k]]);
    CreateNodes(s, h, h', root, t0, calls, t, s', c, k, n);
    CreateCells(s, h, h', t0, calls, t, s', c, k, n);
    CreateSpread(s, h, h', calls, t, s', c, k, n);
    CreateThreads(s, h, h', calls, t, s', c, k, n);
    CreatePromises(s, h, h', calls, t, s', c, k, n);
    CreateOrder(s, h, h', calls, t, s', c, k, n);
  }

  /** The locked section finds an entry and leaves it alone. */
  lemma PassKeeps(s: State, h: Hist, root: Ref, t0: View, calls: seq<Call>, t: nat, s': State, c: Ref, d: nat)
    requires Inv(s, h, root, t0, calls) && t < |calls| && c in s.g && d + 1 < |calls[t].path|
    requires s.pcs[t] == Locking(c, d) && h.path[c] == calls[t].path[..d] && calls[t].path[d] in s.g[c]
    requires s' == s.(pcs := s.pcs[t := Reread(c, d)])
    ensures Inv(s', h, root, t0, calls)
  {
    AboveChild(h.path[c], h.path[c], calls[t].path[d]);
    assert Placing(s', h, calls, t);
    MoveKeeps(s, h, calls, t, Reread(c, d));
  }

  lemma LockKeeps(s: State, h: Hist, root: Ref, t0: View, calls: seq<Call>, t: nat, s': State)
    requires Inv(s, h, root, t0, calls) && t < |calls| && Locks(s, s', calls, t)
    ensures Explained(s', root, t0, calls)
  {
    assert Placing(s, h, calls, t);
    var c, d, p := s.pcs[t].node, s.pcs[t].depth, calls[t].path;
    TakeNext(p, d);
    if d + 1 == |p| {
      var _ := WriteKeeps(s, h, root, t0, calls, t, s', c, p[d]);
    } else if p[d] in s.g[c] {
      PassKeeps(s, h, root, t0, calls, t, s', c, d);
    } else {
      var n: Ref :| n !in s.g && s'.g == Put1(s.g, c, p[d], Sub(n))[n := map[]];
      var _ := CreateKeeps(s, h, root, t0, calls, t, s', c, p[d], n);
    }
  }

  lemma RereadKeeps(s: State, h: Hist, root: Ref, t0: View, calls: seq<Call>, t: nat, s': State)
    requires Inv(s, h, root, t0, calls) && t < |calls| && Rereads(s, s', calls, t)
    ensures Explained(s', root, t0, calls)
  {
    var c, d := s.pcs[t].node, s.pcs[t].depth;
    RereadAt(s, h, calls, t, c, d);
    if s.g[c][calls[t].path[d]].Leaf? {
      RereadFails(s, h, root, t0, calls, t, s', c, d);
    } else {
      EnterKeeps(s, h, root, t0, calls, t, s', c, d, s.g[c][calls[t].path[d]].node);
    }
  }

  lemma RereadFails(s: State, h: Hist, root: Ref, t0: View, calls: seq<Call>, t: nat, s': State, c: Ref, d: nat)
    requires Inv(s, h, root, t0, calls) && t < |calls| && s.pcs[t] == Reread(c, d) && Rereads(s, s', calls, t)
    requires s.g[c][calls[t].path[d]].Leaf?
    ensures Explained(s', root, t0, calls)
  {
    RereadAt(s, h, calls, t, c, d);
    var _ := FailKeeps(s, h, root, t0, calls, t, s', c, calls[t].path[d]);
  }

  lemma RereadAt(s: State, h: Hist, calls: seq<Call>, t: nat, c: Ref, d: nat)
    requires |s.pcs| == |calls| && t < |calls| && Sized(s.g, h) && Threads(s, h, calls) && s.pcs[t] == Reread(c, d)
    ensures c in s.g && d + 1 < |calls[t].path| && calls[t].path[d] in s.g[c]
    ensures h.path[c] == calls[t].path[..d] && |h.path[c]| == d
    ensures StrictlyAbove(h.path[c] + [calls[t].path[d]], calls[t].path)
  {
    assert Placing(s, h, calls, t);
    TakeNext(calls[t].path, d);
  }

  lemma EnterKeeps(s: State, h: Hist, root: Ref, t0: View, calls: seq<Call>, t: nat, s': State, c: Ref, d: nat, e: Ref)
    requires Inv(s, h, root, t0, calls) && t < |calls| && c in s.g && d + 1 < |calls[t].path|
    requires s.pcs[t] == Reread(c, d) && h.path[c] == calls[t].path[..d] && calls[t].path[d] in s.g[c]
    requires s.g[c][calls[t].path[d]] == Sub(e) && s' == s.(pcs := s.pcs[t := Locking(e, d + 1)])
    ensures Inv(s', h, root, t0, calls)
  {
    TakeNext(calls[t].path, d);
    assert Cell(s.g, h, c, calls[t].path[d]);
    assert Placing(s', h, calls, t);
    MoveKeeps(s, h, calls, t, Locking(e, d + 1));
  }

  lemma StepKeeps(s: State, root: Ref, t0: View, calls: seq<Call>, t: nat, s': State)
    requires Explained(s, root, t0, calls)
    requires t < |calls| == |s.pcs| == |s.before| && Next(s, s', root, calls, t)
    ensures Explained(s', root, t0, calls)
  {
    var h :| Inv(s, h, root, t0, calls);
    if Starts(s, s', root, t) {
      StartKeeps(s, h, root, t0, calls, t, s');
    } else if Locks(s, s', calls, t) {
      LockKeeps(s, h, root, t0, calls, t, s');
    } else {
      RereadKeeps(s, h, root, t0, calls, t, s');
    }
  }

  /** An unshared tree starts the invariant with an empty log. */
  lemma InitHolds(s: State, root: Ref, calls: seq<Call>)
    requires ValidCalls(calls) && Init(s, root, calls)
    ensures root in s.g && Closed(s.g) && Explained(s, root, ViewOf(s.g, root), calls)
  {
    var addr :| Unshared(s.g, root, addr);
    var h := Hist([], [ViewOf(s.g, root)], map c | c in s.g :: 0, addr);
    InitShape(s.g, h, root, addr, calls);
    InitFlow(s, h, root, calls);
    assert Inv(s, h, root, ViewOf(s.g, root), calls);
  }

  lemma InitShape(g: Graph<Ref>, h: Hist, root: Ref, addr: map<Ref, Path>, calls: seq<Call>)
    requires ValidCalls(calls) && Unshared(g, root, addr)
    requires h == Hist([], [ViewOf(g, root)], map c | c in g :: 0, addr)
    ensures Shape(g, h, root, ViewOf(g, root), calls)
  {
    var t0 := ViewOf(g, root);
    ViewShaped(g, root);
    forall c, k | c in g
      ensures Cell(g, h, c, k)
    {
      InitCell(g, root, addr, c, k);
      assert PlacedAt(g, addr, c);
    }
    forall c, q | c in g && Above(q, addr[c]) && q in t0
      ensures t0[q] == NodeK
    {
      InitAbove(g, root, addr, c, q);
    }
    forall c, d | c in g && d in g && StrictlyAbove(addr[d], addr[c])
      ensures LeadsTo(g, d, addr[c][|addr[d]|])
    {
      InitLeads(g, root, addr, c, d);
    }
  }

  lemma InitFlow(s: State, h: Hist, root: Ref, calls: seq<Call>)
    requires ValidCalls(calls) && Init(s, root, calls) && Sized(s.g, h) && Cells(s.g, h)
    requires h.log == [] && h.views == [ViewOf(s.g, root)] && Unshared(s.g, root, h.path)
    ensures Flow(s, h, calls)
  {
    forall c, k | c in s.g && k in s.g[c] && s.g[c][k].Sub?
      ensures h.path[c] + [k] in h.views[0]
    {
      InitCell(s.g, root, h.path, c, k);
    }
  }

  lemma InitCell(g: Graph<Ref>, root: Ref, addr: map<Ref, Path>, c: Ref, k: string)
    requires Unshared(g, root, addr) && c in g
    ensures At(ViewOf(g, root), addr[c] + [k]) == if k in g[c] then Some(KindOf(g[c][k])) else None
  {
    assert Lookup(g, c, [k]) == if k in g[c] then Some(g[c][k]) else None;
    if c == root {
      assert addr[c] + [k] == [k];
    } else {
      LookupSplit(g, root, addr[c], [k]);
    }
  }

  lemma InitAbove(g: Graph<Ref>, root: Ref, addr: map<Ref, Path>, c: Ref, q: Path)
    requires Unshared(g, root, addr) && c in g && Above(q, addr[c]) && q in ViewOf(g, root)
    ensures ViewOf(g, root)[q] == NodeK
  {
    if q != addr[c] {
      LookupSplit(g, root, q, addr[c][|q|..]);
      assert addr[c] == q + addr[c][|q|..];
    }
  }

  lemma InitLeads(g: Graph<Ref>, root: Ref, addr: map<Ref, Path>, c: Ref, d: Ref)
    requires Unshared(g, root, addr) && c in g && d in g && StrictlyAbove(addr[d], addr[c])
    ensures LeadsTo(g, d, addr[c][|addr[d]|])
  {
    var rest := addr[c][|addr[d]|..];
    assert addr[c] == addr[d] + rest;
    if d == root {
      assert rest == addr[c];
    } else {
      LookupSplit(g, root, addr[d], rest);
    }
    assert Lookup(g, d, rest) == Some(Sub(c));
  }

  /** Every state of a run has a history. */
  lemma {:induction false} RunKeeps(run: seq<State>, root: Ref, calls: seq<Call>, i: nat)
    requires ValidCalls(calls) && Run(run, root, calls) && i < |run|
    ensures root in run[0].g && Closed(run[0].g) && Explained(run[i], root, ViewOf(run[0].g, root), calls)
  {
    if i == 0 {
      InitHolds(run[0], root, calls);
    } else {
      var j := i - 1;
      RunKeeps(run, root, calls, j);
      assert Step(run[j], run[i], root, calls);
      var t: nat :| t < |calls| && Next(run[j], run[i], root, calls, t);
      StepKeeps(run[j], root, ViewOf(run[0].g, root), calls, t, run[i]);
    }
  }

  lemma {:induction false} SerialIsChain(h: Hist, t0: View, calls: seq<Call>, j: nat)
    requires Chain(h, t0, calls) && j <= |h.log|
    ensures Serial(t0, calls, h.log[..j]) == h.views[j]
  {
    if j > 0 {
      SerialIsChain(h, t0, calls, j - 1);
      assert h.log[..j][..j - 1] == h.log[..j - 1];
      var i := j - 1;
      assert h.views[i + 1] == Ap(h.views[i], calls[h.log[i]]);
    }
  }

  lemma HistoryLinearizes(s: State, h: Hist, t0: View, calls: seq<Call>)
    requires Chain(h, t0, calls) && Results(s, h, calls) && Order(s, h)
    ensures Linearization(s, t0, calls, h.log)
    ensures Serial(t0, calls, h.log) == h.views[|h.log|]
  {
    forall j | 0 <= j <= |h.log|
      ensures Serial(t0, calls, h.log[..j]) == h.views[j]
    {
      SerialIsChain(h, t0, calls, j);
    }
    assert h.log[..|h.log|] == h.log;
  }

  /** Reading from an attached node agrees with the end of the log on plain values, and
      finds every configuration of it. */
  lemma {:induction false} AttachedReads(g: Graph<Ref>, h: Hist, root: Ref, calls: seq<Call>, c: Ref, q: Path)
    requires Sized(g, h) && Nodes(g, h, root, calls) && Cells(g, h) && Shaped(h.views[|h.log|])
    requires c in g && h.pos[c] == |h.log| && q != []
    ensures Agrees(Lookup(g, c, q), At(h.views[|h.log|], h.path[c] + q))
    decreases q
  {
    HeadTail(h.path[c], q);
    assert Cell(g, h, c, q[0]);
    if q[0] in g[c] && g[c][q[0]].Sub? {
      var d := g[c][q[0]].node;
      assert Above(h.path[d], h.path[d]);
      if |q| > 1 { AttachedReads(g, h, root, calls, d, q[1..]); }
    } else {
      AttachedEnds(g, h, c, q);
    }
  }

  ghost predicate Agrees(r: Option<Value<Ref>>, k: Option<Kind>)
  {
    match k
    case None => r.None? || r.value.Sub?
    case Some(LeafK(v)) => r == Some(Leaf(v))
    case Some(NodeK) => r.Some? && r.value.Sub?
  }

  lemma AttachedEnds(g: Graph<Ref>, h: Hist, c: Ref, q: Path)
    requires Sized(g, h) && Shaped(h.views[|h.log|]) && c in g && h.pos[c] == |h.log| && q != []
    requires Cell(g, h, c, q[0]) && (q[0] in g[c] ==> g[c][q[0]].Leaf?)
    ensures Agrees(Lookup(g, c, q), At(h.views[|h.log|], h.path[c] + q))
  {
    HeadTail(h.path[c], q);
  }

  /** Once no call is running, every attached configuration is in the sequential view. */
  lemma {:induction false} QuietReads(s: State, h: Hist, calls: seq<Call>, c: Ref, q: Path)
    requires Sized(s.g, h) && Cells(s.g, h) && Promises(s, h, calls)
    requires c in s.g && h.pos[c] == |h.log| && q != []
    requires forall u :: 0 <= u < |s.pcs| ==> !InFlight(s.pcs[u])
    requires Lookup(s.g, c, q).Some?
    ensures h.path[c] + q in h.views[|h.log|]
    decreases q
  {
    HeadTail(h.path[c], q);
    assert Cell(s.g, h, c, q[0]);
    if |q| == 1 {
      if s.g[c][q[0]].Sub? { assert Promised(s, h, calls, c, q[0]); }
    } else {
      QuietReads(s, h, calls, s.g[c][q[0]].node, q[1..]);
    }
  }

  /** log explains a state: it linearizes the returned calls, plain values read as after
      its sequential execution, and so does everything once every call has returned. */
  ghost predicate Explains(s: State, root: Ref, t0: View, calls: seq<Call>, log: seq<nat>)
  {
    && Linearization(s, t0, calls, log)
    && Closed(s.g) && root in s.g
    && (forall q, v :: q != [] ==>
         (Lookup(s.g, root, q) == Some(Leaf(v)) <==> At(Serial(t0, calls, log), q) == Some(LeafK(v))))
    && ((forall t :: 0 <= t < |s.pcs| ==> s.pcs[t].Done?) ==> ViewOf(s.g, root) == Serial(t0, calls, log))
  }

  lemma HistoryReads(g: Graph<Ref>, h: Hist, root: Ref, t0: View, calls: seq<Call>, q: Path)
    requires Shape(g, h, root, t0, calls) && q != []
    ensures Agrees(Lookup(g, root, q), At(h.views[|h.log|], q))
  {
    AttachedReads(g, h, root, calls, root, q);
    assert h.path[root] + q == q;
  }

  lemma HistoryQuiet(s: State, h: Hist, root: Ref, t0: View, calls: seq<Call>)
    requires Inv(s, h, root, t0, calls)
    requires forall t :: 0 <= t < |s.pcs| ==> s.pcs[t].Done?
    ensures ViewOf(s.g, root) == h.views[|h.log|]
  {
    forall q: Path
      ensures At(ViewOf(s.g, root), q) == At(h.views[|h.log|], q)
    {
      if q != [] {
        HistoryReads(s.g, h, root, t0, calls, q);
        if Lookup(s.g, root, q).Some? { QuietRoot(s, h, root, calls, q); }
        AgreesFully(s.g, root, h.views[|h.log|], q);
      }
    }
    SameView(ViewOf(s.g, root), h.views[|h.log|]);
  }

  lemma AgreesFully(g: Graph<Ref>, root: Ref, t: View, q: Path)
    requires Closed(g) && root in g && q != [] && Agrees(Lookup(g, root, q), At(t, q))
    requires Lookup(g, root, q).Some? ==> q in t
    ensures At(ViewOf(g, root), q) == At(t, q)
  {
  }

  lemma QuietRoot(s: State, h: Hist, root: Ref, calls: seq<Call>, q: Path)
    requires Sized(s.g, h) && Cells(s.g, h) && Promises(s, h, calls)
    requires root in s.g && h.pos[root] == |h.log| && h.path[root] == [] && q != []
    requires forall t :: 0 <= t < |s.pcs| ==> s.pcs[t].Done?
    requires Lookup(s.g, root, q).Some?
    ensures q in h.views[|h.log|]
  {
    QuietReads(s, h, calls, root, q);
    assert h.path[root] + q == q;
  }

  lemma HistoryExplains(s: State, h: Hist, root: Ref, t0: View, calls: seq<Call>)
    requires Inv(s, h, root, t0, calls)
    ensures Explains(s, root, t0, calls, h.log)
  {
    HistoryLinearizes(s, h, t0, calls);
    forall q: Path, v | q != []
      ensures Lookup(s.g, root, q) == Some(Leaf(v)) <==> At(h.views[|h.log|], q) == Some(LeafK(v))
    {
      HistoryReads(s.g, h, root, t0, calls, q);
    }
    if forall u :: 0 <= u < |s.pcs| ==> s.pcs[u].Done? {
      HistoryQuiet(s, h, root, t0, calls);
    }
  }

  /** Concurrent Set is linearizable: whatever the interleaving, after every step the
      returned calls are explained by one sequential order that respects real time. */
  lemma SetIsLinearizable(run: seq<State>, root: Ref, calls: seq<Call>, i: nat)
    requires ValidCalls(calls) && Run(run, root, calls) && i < |run|
    ensures root in run[0].g && Closed(run[0].g)
    ensures exists log :: Explains(run[i], root, ViewOf(run[0].g, root), calls, log)
  {
    RunKeeps(run, root, calls, i);
    var h :| Inv(run[i], h, root, ViewOf(run[0].g, root), calls);
    HistoryExplains(run[i], h, root, ViewOf(run[0].g, root), calls);
  }

  /** A call that has not returned always has a step. */
  lemma SetNeverBlocks(s: State, h: Hist, root: Ref, calls: seq<Call>, t: nat) returns (s': State)
    requires t < |s.pcs| == |s.before| == |calls| && Sized(s.g, h) && Placing(s, h, calls, t) && !s.pcs[t].Done?
    ensures Next(s, s', root, calls, t)
  {
    match s.pcs[t] {
      case Idle =>
        s' := State(s.g, s.pcs[t := Locking(root, 0)], s.before[t := Returned(s)]);
        assert Starts(s, s', root, t);
      case Reread(c, d) =>
        var pc := match s.g[c][calls[t].path[d]] case Leaf(_) => Done(false) case Sub(e) => Locking(e, d + 1);
        s' := s.(pcs := s.pcs[t := pc]);
        assert Rereads(s, s', calls, t);
      case Locking(c, d) =>
        s' := LockNeverBlocks(s, calls, t);
    }
  }
}
