/** The invariant behind the linearization of concurrent Set. Each node carries an
    address and a position in the log: the sequential view at that position agrees
    with the node's entries. Attached nodes sit at the end of the log; a detached
    subtree stays just before the call that overwrote it, and calls that finish
    inside it are inserted there. */
module Linearize {
  import opened Text
  import opened Views
  import opened Graphs
  import opened ConcurrentSet

  datatype Hist = Hist(log: seq<nat>, views: seq<View>, pos: map<Ref, nat>, path: map<Ref, Path>)

  ghost function Ap(t: View, call: Call): View
    requires call.path != []
  {
    Apply(t, call.path, PutLeaf(call.leaf))
  }

  /** views lists what the log has produced before each of its calls, and at its end. */
  ghost predicate Chain(h: Hist, t0: View, calls: seq<Call>)
  {
    && ValidCalls(calls) && |h.views| == |h.log| + 1 && h.views[0] == t0
    && (forall j :: 0 <= j < |h.log| ==> h.log[j] < |calls|)
    && (forall j :: 0 <= j < |h.log| ==> h.views[j + 1] == Ap(h.views[j], calls[h.log[j]]))
    && (forall j :: 0 <= j <= |h.log| ==> Shaped(h.views[j]))
  }

  ghost predicate Results(s: State, h: Hist, calls: seq<Call>)
    requires |h.views| == |h.log| + 1
  {
    && |s.pcs| == |s.before| == |calls|
    && (forall j :: 0 <= j < |h.log| ==> h.log[j] < |calls| && s.pcs[h.log[j]].Done?)
    && (forall t :: 0 <= t < |calls| && s.pcs[t].Done? ==> t in h.log)
    && (forall i, j :: 0 <= i < j < |h.log| ==> h.log[i] != h.log[j])
    && (forall j :: 0 <= j < |h.log| ==>
         (s.pcs[h.log[j]].ok <==> !Blocked(h.views[j], calls[h.log[j]].path)))
  }

  /** Calls that had returned when t started are in the log before t's call, and
      before the position of the node t is working on. */
  ghost predicate Order(s: State, h: Hist)
    requires |s.pcs| == |s.before|
  {
    && (forall t :: 0 <= t < |s.pcs| ==> s.before[t] <= Returned(s) && t !in s.before[t])
    && (forall i, j ::
         (0 <= i < |h.log| && 0 <= j < |h.log| && h.log[j] < |s.pcs| && h.log[i] in s.before[h.log[j]])
         ==> i < j)
    && (forall t, i ::
         (0 <= t < |s.pcs| && InFlight(s.pcs[t]) && 0 <= i < |h.log| && h.log[i] in s.before[t]
          && s.pcs[t].node in h.pos)
         ==> i < h.pos[s.pcs[t].node])
  }

  ghost predicate Sized(g: Graph<Ref>, h: Hist)
  {
    && Closed(g) && h.pos.Keys == g.Keys && h.path.Keys == g.Keys
    && |h.views| == |h.log| + 1
    && forall c :: c in g ==> h.pos[c] <= |h.log|
  }

  ghost predicate Detached(h: Hist, calls: seq<Call>, c: Ref)
    requires c in h.pos && c in h.path && h.pos[c] < |h.log| == |h.views| - 1
  {
    var i := h.pos[c];
    h.log[i] < |calls| && Above(calls[h.log[i]].path, h.path[c]) && !Blocked(h.views[i], calls[h.log[i]].path)
  }

  ghost predicate Nodes(g: Graph<Ref>, h: Hist, root: Ref, calls: seq<Call>)
    requires Sized(g, h)
  {
    && root in g && h.pos[root] == |h.log| && h.path[root] == []
    && (forall c :: c in g && h.pos[c] < |h.log| ==> Detached(h, calls, c))
    && (forall c, q :: c in g && Above(q, h.path[c]) && q in h.views[h.pos[c]] ==> h.views[h.pos[c]][q] == NodeK)
  }

  /** Nodes at one position have different addresses, and a node above another leads to it. */
  ghost predicate Spread(g: Graph<Ref>, h: Hist)
    requires Sized(g, h)
  {
    && (forall c, d :: c in g && d in g && h.pos[c] == h.pos[d] && h.path[c] == h.path[d] ==> c == d)
    && (forall c, d :: c in g && d in g && h.pos[c] == h.pos[d] && StrictlyAbove(h.path[d], h.path[c]) ==>
         LeadsTo(g, d, h.path[c][|h.path[d]|]))
  }

  ghost predicate LeadsTo(g: Graph<Ref>, d: Ref, k: string)
    requires d in g
  {
    k in g[d] && g[d][k].Sub?
  }

  /** An entry agrees with the sequential view at its node's position. A configuration
      may be missing from that view: then it was made for a call that is still running. */
  ghost predicate Cell(g: Graph<Ref>, h: Hist, c: Ref, k: string)
    requires c in g && c in h.pos && c in h.path && h.pos[c] < |h.views|
  {
    var t, z := h.views[h.pos[c]], h.path[c] + [k];
    if k !in g[c] then z !in t
    else match g[c][k]
      case Leaf(v) => z in t && t[z] == LeafK(v)
      case Sub(d) => d in h.pos && d in h.path && h.pos[d] == h.pos[c] && h.path[d] == z
  }

  ghost predicate Cells(g: Graph<Ref>, h: Hist)
    requires Sized(g, h)
  {
    forall c, k :: c in g ==> Cell(g, h, c, k)
  }

  ghost predicate Placing(s: State, h: Hist, calls: seq<Call>, t: nat)
    requires t < |s.pcs| == |calls| && Sized(s.g, h)
  {
    match s.pcs[t]
    case Locking(c, d) => c in s.g && d < |calls[t].path| && h.path[c] == calls[t].path[..d]
    case Reread(c, d) => c in s.g && d + 1 < |calls[t].path| && h.path[c] == calls[t].path[..d] && calls[t].path[d] in s.g[c]
    case _ => true
  }

  ghost predicate Threads(s: State, h: Hist, calls: seq<Call>)
    requires |s.pcs| == |calls| && Sized(s.g, h)
  {
    forall t :: 0 <= t < |calls| ==> Placing(s, h, calls, t)
  }

  /** The running call t will complete below z in the attached tree. */
  ghost predicate Carries(s: State, h: Hist, calls: seq<Call>, t: nat, z: Path)
  {
    && t < |s.pcs| && t < |calls| && InFlight(s.pcs[t])
    && s.pcs[t].node in h.pos && s.pcs[t].node in h.path && h.pos[s.pcs[t].node] == |h.log|
    && Above(z, Route(s.pcs[t], h.path[s.pcs[t].node], calls[t]))
  }

  ghost function Route(pc: Pc, at: Path, call: Call): Path
    requires InFlight(pc)
  {
    if pc.Locking? then at
    else if pc.depth < |call.path| then at + [call.path[pc.depth]]
    else at
  }

  ghost predicate Promised(s: State, h: Hist, calls: seq<Call>, c: Ref, k: string)
    requires c in h.path && |h.views| == |h.log| + 1
  {
    || h.path[c] + [k] in h.views[|h.log|]
    || exists t: nat :: Carries(s, h, calls, t, h.path[c] + [k])
  }

  ghost predicate Promises(s: State, h: Hist, calls: seq<Call>)
    requires Sized(s.g, h)
  {
    forall c, k :: c in s.g && h.pos[c] == |h.log| && k in s.g[c] && s.g[c][k].Sub? ==> Promised(s, h, calls, c, k)
  }

  /** What the invariant says about the nodes and the log. */
  ghost predicate Shape(g: Graph<Ref>, h: Hist, root: Ref, t0: View, calls: seq<Call>)
  {
    Chain(h, t0, calls) && Sized(g, h) && Nodes(g, h, root, calls) && Spread(g, h) && Cells(g, h)
  }

  /** What it says about the calls. */
  ghost predicate Flow(s: State, h: Hist, calls: seq<Call>)
  {
    && |h.views| == |h.log| + 1 && Results(s, h, calls) && Order(s, h)
    && Sized(s.g, h) && Threads(s, h, calls) && Promises(s, h, calls)
  }

  ghost predicate Inv(s: State, h: Hist, root: Ref, t0: View, calls: seq<Call>)
  {
    Shape(s.g, h, root, t0, calls) && Flow(s, h, calls)
  }

  // ---------------------------------------------------------------- a call enters the log

  /** h' is the history after call t enters the log at position i. */
  ghost predicate Inserted(h: Hist, h': Hist, calls: seq<Call>, t: nat, i: nat)
  {
    && t < |calls| && calls[t].path != [] && i <= |h.log| && |h.views| == |h.log| + 1
    && |h'.log| == |h.log| + 1 && |h'.views| == |h.views| + 1
    && (forall j {:trigger h'.log[j]} :: 0 <= j < |h'.log| ==>
         h'.log[j] == if j < i then h.log[j] else if j == i then t else h.log[j - 1])
    && (forall j {:trigger h'.views[j]} :: 0 <= j < |h'.views| ==>
         h'.views[j] == if j <= i then h.views[j] else if j == i + 1 then Ap(h.views[i], calls[t]) else h.views[j - 1])
    && h'.path == h.path && h'.pos.Keys == h.pos.Keys
    && (forall c {:trigger h'.pos[c]} {:trigger c in h.pos} :: c in h.pos ==> h'.pos[c] == Shifted(h, calls[t].path, i, c))
  }

  /** Nodes below the call's path stay before it, the rest of that position moves past it. */
  ghost function Shifted(h: Hist, p: Path, i: nat, c: Ref): nat
    requires c in h.pos
  {
    if h.pos[c] < i || (h.pos[c] == i && c in h.path && Above(p, h.path[c])) then h.pos[c] else h.pos[c] + 1
  }

  lemma Insert(h: Hist, calls: seq<Call>, t: nat, i: nat) returns (h': Hist)
    requires t < |calls| && calls[t].path != [] && i <= |h.log| && |h.views| == |h.log| + 1
    ensures Inserted(h, h', calls, t, i)
  {
    h' := Hist(h.log[..i] + [t] + h.log[i..],
               h.views[..i + 1] + [Ap(h.views[i], calls[t])] + h.views[i + 1..],
               map c | c in h.pos :: Shifted(h, calls[t].path, i, c),
               h.path);
  }

  /** The call can enter at i without disturbing the call that follows. */
  ghost predicate Fits(h: Hist, calls: seq<Call>, t: nat, i: nat)
    requires t < |calls| && calls[t].path != [] && i <= |h.log| && |h.views| == |h.log| + 1
  {
    i < |h.log| ==>
      var u := Ap(h.views[i], calls[t]);
      && h.log[i] < |calls| && calls[h.log[i]].path != []
      && Ap(u, calls[h.log[i]]) == h.views[i + 1]
      && (Blocked(u, calls[h.log[i]].path) <==> Blocked(h.views[i], calls[h.log[i]].path))
  }

  lemma InsertChain(h: Hist, h': Hist, t0: View, calls: seq<Call>, t: nat, i: nat)
    requires Chain(h, t0, calls) && Inserted(h, h', calls, t, i) && Fits(h, calls, t, i)
    ensures Chain(h', t0, calls)
  {
    ApplyShaped(h.views[i], calls[t].path, PutLeaf(calls[t].leaf));
    forall j | 0 <= j < |h'.log|
      ensures h'.log[j] < |calls| && h'.views[j + 1] == Ap(h'.views[j], calls[h'.log[j]])
    {
      if j > i { assert h'.views[j + 1] == h.views[j - 1 + 1]; }
    }
  }

  lemma InsertResults(s: State, h: Hist, h': Hist, calls: seq<Call>, t: nat, i: nat, s': State)
    requires Inserted(h, h', calls, t, i) && Results(s, h, calls) && Fits(h, calls, t, i)
    requires !s.pcs[t].Done?
    requires s'.pcs == s.pcs[t := Done(!Blocked(h.views[i], calls[t].path))] && s'.before == s.before
    ensures Results(s', h', calls)
  {
    InsertedLog(s, h, h', calls, t, i, s');
    forall j | 0 <= j < |h'.log|
      ensures s'.pcs[h'.log[j]].ok <==> !Blocked(h'.views[j], calls[h'.log[j]].path)
    {
      if j < i {
        assert h'.log[j] == h.log[j] && h'.views[j] == h.views[j];
      } else if j > i {
        assert h'.log[j] == h.log[j - 1];
        assert j > i + 1 ==> h'.views[j] == h.views[j - 1];
      }
    }
  }

  lemma InsertedLog(s: State, h: Hist, h': Hist, calls: seq<Call>, t: nat, i: nat, s': State)
    requires Inserted(h, h', calls, t, i) && Results(s, h, calls)
    requires !s.pcs[t].Done? && |s'.pcs| == |s.pcs| && s'.pcs[t].Done?
    requires forall u :: 0 <= u < |s.pcs| && u != t ==> s'.pcs[u] == s.pcs[u]
    ensures forall j :: 0 <= j < |h'.log| ==> h'.log[j] < |calls| && s'.pcs[h'.log[j]].Done?
    ensures forall u :: 0 <= u < |calls| && s'.pcs[u].Done? ==> u in h'.log
    ensures forall a, b :: 0 <= a < b < |h'.log| ==> h'.log[a] != h'.log[b]
  {
    forall u | 0 <= u < |calls| && s'.pcs[u].Done?
      ensures u in h'.log
    {
      if u != t {
        var j :| 0 <= j < |h.log| && h.log[j] == u;
        assert h'.log[if j < i then j else j + 1] == u;
      } else {
        assert h'.log[i] == t;
      }
    }
  }

  lemma InsertOrder(s: State, h: Hist, h': Hist, calls: seq<Call>, t: nat, i: nat, s': State)
    requires Inserted(h, h', calls, t, i) && Results(s, h, calls) && Order(s, h)
    requires InFlight(s.pcs[t]) && s.pcs[t].node in h.pos && h.pos[s.pcs[t].node] == i
    requires s'.pcs == s.pcs[t := Done(!Blocked(h.views[i], calls[t].path))] && s'.before == s.before
    ensures Order(s', h')
  {
    assert Returned(s) <= Returned(s');
    forall a, b | 0 <= a < |h'.log| && 0 <= b < |h'.log| && h'.log[b] < |s.pcs| && h'.log[a] in s.before[h'.log[b]]
      ensures a < b
    {
      InsertBefore(s, h, h', calls, t, i, a, b);
    }
    forall u, a | 0 <= u < |s'.pcs| && InFlight(s'.pcs[u]) && 0 <= a < |h'.log| && h'.log[a] in s'.before[u]
                  && s'.pcs[u].node in h'.pos
      ensures a < h'.pos[s'.pcs[u].node]
    {
      assert s.pcs[u] == s'.pcs[u];
      InsertAhead(s, h, h', calls, t, i, u, a);
    }
  }

  lemma InsertBefore(s: State, h: Hist, h': Hist, calls: seq<Call>, t: nat, i: nat, a: nat, b: nat)
    requires Inserted(h, h', calls, t, i) && Results(s, h, calls) && Order(s, h)
    requires InFlight(s.pcs[t]) && s.pcs[t].node in h.pos && h.pos[s.pcs[t].node] == i
    requires a < |h'.log| && b < |h'.log| && h'.log[b] < |s.pcs| && h'.log[a] in s.before[h'.log[b]]
    ensures a < b
  {
    var x, y := if a < i then a else a - 1, if b < i then b else b - 1;
    assert a != i ==> h'.log[a] == h.log[x];
    assert b != i ==> h'.log[b] == h.log[y];
    assert s.before[h'.log[b]] <= Returned(s);
  }

  lemma InsertAhead(s: State, h: Hist, h': Hist, calls: seq<Call>, t: nat, i: nat, u: nat, a: nat)
    requires Inserted(h, h', calls, t, i) && Results(s, h, calls) && Order(s, h)
    requires InFlight(s.pcs[t]) && u < |s.pcs| && u != t && InFlight(s.pcs[u]) && s.pcs[u].node in h.pos
    requires a < |h'.log| && h'.log[a] in s.before[u]
    ensures a < h'.pos[s.pcs[u].node]
  {
    var was := if a < i then a else a - 1;
    assert a != i ==> h'.log[a] == h.log[was];
    assert s.before[u] <= Returned(s);
  }

  /** Which view a node is compared with after the insertion. */
  lemma InsertedView(h: Hist, h': Hist, calls: seq<Call>, t: nat, i: nat, c: Ref)
    requires Inserted(h, h', calls, t, i)
    requires c in h.pos && c in h.path && h.pos[c] <= |h.log|
    ensures h'.pos[c] <= |h'.log|
    ensures h'.views[h'.pos[c]] ==
            if h.pos[c] == i && !Above(calls[t].path, h.path[c]) then Ap(h.views[i], calls[t]) else h.views[h.pos[c]]
  {
  }
}
