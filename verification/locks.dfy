/** Get and Set with their read-write locks. Get keeps the read locks of all ancestors
    until it returns; Set holds one write lock at a time, and a writer that waits for a
    lock blocks new readers of it. */
module Locks {
  import opened Text
  import opened Views
  import opened Graphs
  import opened Mounts
  import opened ConcurrentSet
  import opened Sums

  /** How far a writer is with the lock of the node it works on. */
  datatype Mode = Outside | Pending | Holding

  /** Where a reader is; held lists the read-locked nodes, outermost first. */
  datatype RPc =
    | Wait(held: seq<Ref>, node: Ref)                               // about to lock node
    | Look(held: seq<Ref>)                                          // holds the last node, about to read it
    | Unwind(held: seq<Ref>, result: Option<Value<Ref>>)            // releasing, innermost first
    | Finished(result: Option<Value<Ref>>)

  datatype Reader = Reader(from: Ref, path: Path, pc: RPc)

  /** The writers are the calls of the set machine m. */
  datatype LState = LState(m: State, modes: seq<Mode>, readers: seq<Reader>)

  ghost function HeldBy(pc: RPc): seq<Ref>
  {
    if pc.Finished? then [] else pc.held
  }

  ghost predicate ReadLocked(s: LState, c: Ref)
  {
    exists r :: 0 <= r < |s.readers| && c in HeldBy(s.readers[r].pc)
  }

  /** Some writer other than t has announced itself on c or holds it. */
  ghost predicate WriteClaimed(s: LState, c: Ref, t: int)
    requires |s.modes| == |s.m.pcs|
  {
    exists u :: 0 <= u < |s.modes| && u != t && s.modes[u] != Outside && s.m.pcs[u].Locking? && s.m.pcs[u].node == c
  }

  ghost predicate Sized(s: LState, calls: seq<Call>)
  {
    && |s.modes| == |s.m.pcs| == |s.m.before| == |calls|
    && ValidCalls(calls)
    && forall r :: 0 <= r < |s.readers| ==> s.readers[r].path != []
  }

  ghost predicate WriterStep(s: LState, s': LState, root: Ref, calls: seq<Call>, t: nat)
    requires Sized(s, calls) && t < |calls|
  {
    && s'.readers == s.readers
    && match s.m.pcs[t]
       case Idle => Starts(s.m, s'.m, root, t) && s'.modes == s.modes
       case Locking(c, _) =>
         (match s.modes[t]
          case Outside => !WriteClaimed(s, c, t) && s'.m == s.m && s'.modes == s.modes[t := Pending]
          case Pending => !ReadLocked(s, c) && s'.m == s.m && s'.modes == s.modes[t := Holding]
          case Holding => ConcurrentSet.Locks(s.m, s'.m, calls, t) && s'.modes == s.modes[t := Outside])
       case Reread(_, _) => Rereads(s.m, s'.m, calls, t) && s'.modes == s.modes
       case Done(_) => false
  }

  ghost predicate ReaderStep(s: LState, s': LState, r: nat)
    requires |s.modes| == |s.m.pcs| && r < |s.readers| && s.readers[r].path != []
  {
    && s'.m == s.m && s'.modes == s.modes
    && var rd := s.readers[r];
       match rd.pc
       case Wait(held, c) =>
         !WriteClaimed(s, c, -1) && s'.readers == s.readers[r := rd.(pc := Look(held + [c]))]
       case Look(held) =>
         && held != [] && |held| <= |rd.path| && held[|held| - 1] in s.m.g
         && s'.readers == s.readers[r := rd.(pc := AfterLook(s.m.g, rd.path, held))]
       case Unwind(held, result) =>
         s'.readers == s.readers[r := rd.(pc := if held == [] then Finished(result) else Unwind(held[..|held| - 1], result))]
       case Finished(_) => false
  }

  /** One level of getRecursive, on the node locked last. */
  ghost function AfterLook(g: Graph<Ref>, p: Path, held: seq<Ref>): RPc
    requires 0 < |held| <= |p| && held[|held| - 1] in g
  {
    var c, k := held[|held| - 1], p[|held| - 1];
    if k !in g[c] then Unwind(held, None)
    else if |held| == |p| then Unwind(held, Some(g[c][k]))
    else match g[c][k]
      case Leaf(_) => Unwind(held, None)
      case Sub(e) => Wait(held, e)
  }

  ghost predicate LStep(s: LState, s': LState, root: Ref, calls: seq<Call>)
    requires Sized(s, calls)
  {
    || (exists t: nat :: t < |calls| && WriterStep(s, s', root, calls, t))
    || (exists r: nat :: r < |s.readers| && ReaderStep(s, s', r))
  }

  /** The held nodes are the walk from the receiver along the path. */
  ghost predicate Walk(g: Graph<Ref>, from: Ref, p: Path, nodes: seq<Ref>)
  {
    && 0 < |nodes| <= |p| && nodes[0] == from
    && (forall j :: 0 <= j < |nodes| ==> nodes[j] in g)
    && forall i :: 0 <= i < |nodes| - 1 ==> Link(g, p[i], nodes[i], nodes[i + 1])
  }

  ghost predicate Link(g: Graph<Ref>, k: string, c: Ref, d: Ref)
  {
    c in g && k in g[c] && g[c][k] == Sub(d)
  }

  ghost predicate ReaderOk(s: LState, r: nat)
    requires r < |s.readers|
  {
    var rd := s.readers[r];
    match rd.pc
    case Wait(held, c) => Walk(s.m.g, rd.from, rd.path, held + [c])
    case Look(held) => Walk(s.m.g, rd.from, rd.path, held)
    case _ => true
  }

  ghost predicate WriterOk(s: LState, root: Ref, calls: seq<Call>, t: nat)
    requires Sized(s, calls) && t < |calls|
  {
    && (match s.m.pcs[t]
        case Locking(c, d) => c in s.m.g && d < |calls[t].path|
        case Reread(c, d) => c in s.m.g && d + 1 < |calls[t].path| && calls[t].path[d] in s.m.g[c]
        case _ => true)
    && (s.modes[t] == Holding ==> s.m.pcs[t].Locking? && !ReadLocked(s, s.m.pcs[t].node))
    && (s.modes[t] == Pending ==> s.m.pcs[t].Locking?)
  }

  ghost predicate LInv(s: LState, root: Ref, calls: seq<Call>)
  {
    && Sized(s, calls) && Closed(s.m.g) && root in s.m.g
    && (forall r :: 0 <= r < |s.readers| ==> ReaderOk(s, r))
    && (forall t :: 0 <= t < |calls| ==> WriterOk(s, root, calls, t))
  }

  // ---------------------------------------------------------------- exactness

  /** A walk reads its path. */
  lemma {:induction false} WalkReads(g: Graph<Ref>, from: Ref, p: Path, nodes: seq<Ref>)
    requires Closed(g) && Walk(g, from, p, nodes)
    ensures var n := |nodes| - 1; Lookup(g, from, p) == Lookup(g, nodes[n], p[n..])
    decreases |nodes|
  {
    if |nodes| > 1 {
      assert Link(g, p[0], nodes[0], nodes[0 + 1]);
      forall i | 0 <= i < |nodes[1..]| - 1
        ensures Link(g, p[1..][i], nodes[1..][i], nodes[1..][i + 1])
      {
        var j := i + 1;
        assert Link(g, p[j], nodes[j], nodes[j + 1]);
      }
      WalkReads(g, nodes[1], p[1..], nodes[1..]);
      assert p[1..][|nodes[1..]| - 1..] == p[|nodes| - 1..];
    }
  }

  /** Get is exact: when it reads the last node it needs, the result it will return is
      what its path reads as, from its receiver, in the graph of that instant. */
  lemma GetIsExact(s: LState, root: Ref, calls: seq<Call>, r: nat)
    requires LInv(s, root, calls) && r < |s.readers| && s.readers[r].pc.Look?
    requires AfterLook'(s, r).Unwind?
    ensures s.readers[r].from in s.m.g
    ensures AfterLook'(s, r).result == Lookup(s.m.g, s.readers[r].from, s.readers[r].path)
  {
    assert ReaderOk(s, r);
    var rd := s.readers[r];
    WalkReads(s.m.g, rd.from, rd.path, rd.pc.held);
  }

  ghost function AfterLook'(s: LState, r: nat): RPc
    requires r < |s.readers| && s.readers[r].pc.Look? && ReaderOk(s, r)
  {
    AfterLook(s.m.g, s.readers[r].path, s.readers[r].pc.held)
  }

  // ---------------------------------------------------------------- the invariant over every run

  /** Nobody has started, and each reader has its receiver. */
  ghost predicate Fresh(s: LState, root: Ref, calls: seq<Call>)
  {
    && Sized(s, calls) && Closed(s.m.g) && root in s.m.g
    && (forall t :: 0 <= t < |calls| ==> s.m.pcs[t] == Idle && s.modes[t] == Outside && s.m.before[t] == {})
    && (forall r :: 0 <= r < |s.readers| ==> s.readers[r].from in s.m.g && s.readers[r].pc == Wait([], s.readers[r].from))
  }

  lemma LInitHolds(s: LState, root: Ref, calls: seq<Call>)
    requires Fresh(s, root, calls)
    ensures LInv(s, root, calls)
  {
    forall r | 0 <= r < |s.readers|
      ensures ReaderOk(s, r)
    {
      assert [] + [s.readers[r].from] == [s.readers[r].from];
    }
    forall t | 0 <= t < |calls|
      ensures WriterOk(s, root, calls, t)
    {
    }
  }

  /** A walk survives any change to nodes that are not on it, except at its last node. */
  lemma WalkKept(g: Graph<Ref>, g': Graph<Ref>, from: Ref, p: Path, nodes: seq<Ref>)
    requires Walk(g, from, p, nodes) && g.Keys <= g'.Keys
    requires forall i :: 0 <= i < |nodes| - 1 ==> g'[nodes[i]] == g[nodes[i]]
    ensures Walk(g', from, p, nodes)
  {
    forall i | 0 <= i < |nodes| - 1
      ensures Link(g', p[i], nodes[i], nodes[i + 1])
    {
      assert Link(g, p[i], nodes[i], nodes[i + 1]);
    }
  }

  lemma ReaderKeeps(s: LState, s': LState, root: Ref, calls: seq<Call>, r: nat)
    requires LInv(s, root, calls) && r < |s.readers| && ReaderStep(s, s', r)
    ensures LInv(s', root, calls)
  {
    assert ReaderOk(s, r);
    forall q | 0 <= q < |s'.readers|
      ensures ReaderOk(s', q)
    {
      assert ReaderOk(s, q);
      if q == r && s.readers[r].pc.Look? { LookKeeps(s, s', r); }
    }
    forall t | 0 <= t < |calls|
      ensures WriterOk(s', root, calls, t)
    {
      assert WriterOk(s, root, calls, t);
      if s.modes[t] == Holding { StillUnread(s, s', r, s.m.pcs[t].node, t); }
    }
  }

  lemma LookKeeps(s: LState, s': LState, r: nat)
    requires |s.modes| == |s.m.pcs| && r < |s.readers| && s.readers[r].path != [] && s.readers[r].pc.Look?
    requires ReaderStep(s, s', r) && ReaderOk(s, r) && Closed(s.m.g)
    ensures ReaderOk(s', r)
  {
    var rd, rd' := s.readers[r], s'.readers[r];
    var held := rd.pc.held;
    if rd'.pc.Wait? {
      var nodes := held + [rd'.pc.node];
      forall i | 0 <= i < |nodes| - 1
        ensures Link(s.m.g, rd.path[i], nodes[i], nodes[i + 1])
      {
        if i + 1 < |held| { assert Link(s.m.g, rd.path[i], held[i], held[i + 1]); }
      }
    }
  }

  /** No reader gets a lock that a writer holds. */
  lemma StillUnread(s: LState, s': LState, r: nat, c: Ref, t: nat)
    requires |s.modes| == |s.m.pcs| && r < |s.readers| && s.readers[r].path != [] && ReaderStep(s, s', r)
    requires t < |s.modes| && s.modes[t] == Holding && s.m.pcs[t].Locking? && s.m.pcs[t].node == c
    requires !ReadLocked(s, c)
    ensures !ReadLocked(s', c)
  {
    assert WriteClaimed(s, c, -1);
    forall q | 0 <= q < |s'.readers|
      ensures c !in HeldBy(s'.readers[q].pc)
    {
      assert c !in HeldBy(s.readers[q].pc);
      if q == r && s.readers[r].pc.Unwind? && s.readers[r].pc.held != [] {
        var held := s.readers[r].pc.held;
        assert forall x :: x in held[..|held| - 1] ==> x in held;
      }
    }
  }

  /** A locked section changes its own node only, which no reader holds. */
  lemma SectionKeeps(s: LState, s': LState, root: Ref, calls: seq<Call>, t: nat)
    requires LInv(s, root, calls) && t < |calls| && WriterStep(s, s', root, calls, t)
    requires s.m.pcs[t].Locking? && s.modes[t] == Holding
    ensures LInv(s', root, calls)
  {
    var c, d, p := s.m.pcs[t].node, s.m.pcs[t].depth, calls[t].path;
    assert WriterOk(s, root, calls, t);
    SectionChanges(s.m, s'.m, calls, t);
    forall r | 0 <= r < |s'.readers|
      ensures ReaderOk(s', r)
    {
      assert ReaderOk(s, r);
      var rd := s.readers[r];
      assert c !in HeldBy(rd.pc);
      if rd.pc.Wait? {
        WalkKept(s.m.g, s'.m.g, rd.from, rd.path, rd.pc.held + [rd.pc.node]);
      } else if rd.pc.Look? {
        WalkKept(s.m.g, s'.m.g, rd.from, rd.path, rd.pc.held);
      }
    }
    forall u | 0 <= u < |calls|
      ensures WriterOk(s', root, calls, u)
    {
      assert WriterOk(s, root, calls, u);
      assert forall x :: ReadLocked(s', x) ==> ReadLocked(s, x);
    }
  }

  lemma SectionChanges(m: State, m': State, calls: seq<Call>, t: nat)
    requires t < |m.pcs| == |calls| && ConcurrentSet.Locks(m, m', calls, t) && Closed(m.g)
    ensures Closed(m'.g) && m.g.Keys <= m'.g.Keys
    ensures forall e :: e in m.g && e != m.pcs[t].node ==> m'.g[e] == m.g[e]
    ensures var c := m.pcs[t].node; forall k :: k in m.g[c] ==> k in m'.g[c]
    ensures m'.pcs[t].Reread? ==> calls[t].path[m'.pcs[t].depth] in m'.g[m'.pcs[t].node]
  {
  }

  lemma WriterKeeps(s: LState, s': LState, root: Ref, calls: seq<Call>, t: nat)
    requires LInv(s, root, calls) && t < |calls| && WriterStep(s, s', root, calls, t)
    ensures LInv(s', root, calls)
  {
    assert WriterOk(s, root, calls, t);
    if s.m.pcs[t].Locking? && s.modes[t] == Holding {
      SectionKeeps(s, s', root, calls, t);
    } else {
      forall r | 0 <= r < |s'.readers|
        ensures ReaderOk(s', r)
      {
        assert ReaderOk(s, r);
      }
      forall u | 0 <= u < |calls|
        ensures WriterOk(s', root, calls, u)
      {
        assert WriterOk(s, root, calls, u);
        assert forall x :: ReadLocked(s', x) <==> ReadLocked(s, x);
      }
    }
  }

  ghost predicate LSteps(run: seq<LState>, root: Ref, calls: seq<Call>)
  {
    && run != [] && (forall i :: 0 <= i < |run| ==> Sized(run[i], calls))
    && forall i, j :: 0 <= i && j == i + 1 < |run| ==> LStep(run[i], run[j], root, calls)
  }

  ghost predicate LRun(run: seq<LState>, root: Ref, calls: seq<Call>)
  {
    LSteps(run, root, calls) && Fresh(run[0], root, calls)
  }

  lemma {:induction false} LRunKeeps(run: seq<LState>, root: Ref, calls: seq<Call>, i: nat)
    requires LRun(run, root, calls) && i < |run|
    ensures LInv(run[i], root, calls)
  {
    if i == 0 {
      LInitHolds(run[0], root, calls);
    } else {
      var j := i - 1;
      LRunKeeps(run, root, calls, j);
      assert LStep(run[j], run[i], root, calls);
      if t: nat :| t < |calls| && WriterStep(run[j], run[i], root, calls, t) {
        WriterKeeps(run[j], run[i], root, calls, t);
      } else {
        var r: nat :| r < |run[j].readers| && ReaderStep(run[j], run[i], r);
        ReaderKeeps(run[j], run[i], root, calls, r);
      }
    }
  }

  // ---------------------------------------------------------------- what Get returns

  /** What a reader has come to return, if it has. */
  ghost function Outcome(pc: RPc): Option<Option<Value<Ref>>>
  {
    match pc
    case Unwind(_, result) => Some(result)
    case Finished(result) => Some(result)
    case _ => None
  }

  /** In state s the path of rd, read from its receiver, gives result. */
  ghost predicate ReadsAs(s: LState, rd: Reader, result: Option<Value<Ref>>)
  {
    Closed(s.m.g) && rd.from in s.m.g && rd.path != [] && Lookup(s.m.g, rd.from, rd.path) == result
  }

  /** A reader that comes to a result by a step has just read it. */
  lemma ResultIsRead(s: LState, s': LState, root: Ref, calls: seq<Call>, r: nat)
    requires LInv(s, root, calls) && LStep(s, s', root, calls) && r < |s.readers|
    ensures |s'.readers| == |s.readers|
    ensures s'.readers[r].from == s.readers[r].from && s'.readers[r].path == s.readers[r].path
    ensures var was, now := Outcome(s.readers[r].pc), Outcome(s'.readers[r].pc);
            now.Some? ==> was == now || ReadsAs(s, s.readers[r], now.value)
  {
    if q: nat :| q < |s.readers| && ReaderStep(s, s', q) {
      if q == r && s.readers[r].pc.Look? && s'.readers[r].pc.Unwind? {
        GetIsExact(s, root, calls, r);
      }
    }
  }

  /** Get is exact over whole runs: what it returns is what its path read as, from its
      receiver, in the graph of some earlier state of the run. */
  lemma {:induction false} GetReturnsExactly(run: seq<LState>, root: Ref, calls: seq<Call>, i: nat, r: nat) returns (j: nat)
    requires LRun(run, root, calls) && i < |run| && r < |run[i].readers|
    requires Outcome(run[i].readers[r].pc).Some?
    ensures j < i && ReadsAs(run[j], run[i].readers[r], Outcome(run[i].readers[r].pc).value)
  {
    ReadersStay(run, root, calls, i);
    if i > 0 {
      var k := i - 1;
      ReadersStay(run, root, calls, k);
      LRunKeeps(run, root, calls, k);
      assert LStep(run[k], run[i], root, calls);
      ResultIsRead(run[k], run[i], root, calls, r);
      if Outcome(run[k].readers[r].pc) == Outcome(run[i].readers[r].pc) {
        j := GetReturnsExactly(run, root, calls, k, r);
      } else {
        j := k;
      }
    }
  }

  lemma {:induction false} ReadersStay(run: seq<LState>, root: Ref, calls: seq<Call>, i: nat)
    requires LRun(run, root, calls) && i < |run|
    ensures |run[i].readers| == |run[0].readers|
  {
    if i > 0 {
      var k := i - 1;
      ReadersStay(run, root, calls, k);
      assert LStep(run[k], run[i], root, calls);
    }
  }

  // ---------------------------------------------------------------- nothing is nested in itself

  /** Acyclicity of a part of the graph that nesting does not leave, as a rank that it increases. */
  ghost predicate Climbs(g: Graph<Ref>, rank: map<Ref, nat>)
  {
    forall c, k :: c in g && c in rank && k in g[c] && g[c][k].Sub? ==>
      g[c][k].node in rank && rank[c] < rank[g[c][k].node]
  }

  /** The root and all nodes that writers work on are ranked. */
  ghost predicate Climbing(s: LState, root: Ref, rank: map<Ref, nat>)
  {
    && root in rank && Climbs(s.m.g, rank)
    && forall t :: 0 <= t < |s.m.pcs| && InFlight(s.m.pcs[t]) ==> s.m.pcs[t].node in rank
  }

  lemma SectionClimbs(m: State, m': State, calls: seq<Call>, rank: map<Ref, nat>, t: nat) returns (rank': map<Ref, nat>)
    requires t < |m.pcs| == |calls| && ConcurrentSet.Locks(m, m', calls, t) && Closed(m.g) && Climbs(m.g, rank)
    requires m.pcs[t].node in rank
    ensures Climbs(m'.g, rank') && rank.Keys <= rank'.Keys
  {
    var c, d, p := m.pcs[t].node, m.pcs[t].depth, calls[t].path;
    rank' := rank;
    if d + 1 < |p| && p[d] !in m.g[c] {
      var n: Ref :| n !in m.g && m'.g == Put1(m.g, c, p[d], Sub(n))[n := map[]];
      rank' := rank[n := rank[c] + 1];
      forall e, k | e in m'.g && e in rank' && k in m'.g[e] && m'.g[e][k].Sub?
        ensures m'.g[e][k].node in rank' && rank'[e] < rank'[m'.g[e][k].node]
      {
        if !(e == c && k == p[d]) { assert k in m.g[e] && m.g[e][k].Sub? && m.g[e][k].node in m.g; }
      }
    }
  }

  /** No step nests a ranked node in itself. */
  lemma ClimbingKept(s: LState, s': LState, root: Ref, calls: seq<Call>, rank: map<Ref, nat>) returns (rank': map<Ref, nat>)
    requires LInv(s, root, calls) && Climbing(s, root, rank) && LStep(s, s', root, calls)
    ensures Climbing(s', root, rank')
  {
    rank' := rank;
    if t: nat :| t < |calls| && WriterStep(s, s', root, calls, t) {
      assert WriterOk(s, root, calls, t);
      if s.m.pcs[t].Locking? && s.modes[t] == Holding {
        rank' := SectionClimbs(s.m, s'.m, calls, rank, t);
      }
    }
  }

  lemma {:induction false} RunClimbs(run: seq<LState>, root: Ref, calls: seq<Call>, rank0: map<Ref, nat>, i: nat) returns (rank: map<Ref, nat>)
    requires LRun(run, root, calls) && root in rank0 && Climbs(run[0].m.g, rank0) && i < |run|
    ensures LInv(run[i], root, calls) && Climbing(run[i], root, rank)
  {
    LRunKeeps(run, root, calls, i);
    if i == 0 {
      rank := rank0;
    } else {
      var j := i - 1;
      rank := RunClimbs(run, root, calls, rank0, j);
      assert LStep(run[j], run[i], root, calls);
      rank := ClimbingKept(run[j], run[i], root, calls, rank);
    }
  }

  // ---------------------------------------------------------------- no deadlock

  ghost predicate Ended(s: LState)
  {
    && (forall t :: 0 <= t < |s.m.pcs| ==> s.m.pcs[t].Done?)
    && (forall r :: 0 <= r < |s.readers| ==> s.readers[r].pc.Finished?)
  }

  /** Thread states that can always step: no lock is involved, or the lock is already held. */
  ghost predicate FreeWriter(s: LState, t: nat)
    requires t < |s.m.pcs| == |s.modes|
  {
    s.m.pcs[t].Idle? || s.m.pcs[t].Reread? || (s.m.pcs[t].Locking? && s.modes[t] == Holding)
  }

  lemma FreeWriterSteps(s: LState, root: Ref, calls: seq<Call>, t: nat) returns (s': LState)
    requires LInv(s, root, calls) && t < |calls| && FreeWriter(s, t)
    ensures WriterStep(s, s', root, calls, t)
  {
    assert WriterOk(s, root, calls, t);
    match s.m.pcs[t] {
      case Idle =>
        var m' := State(s.m.g, s.m.pcs[t := Locking(root, 0)], s.m.before[t := Returned(s.m)]);
        s' := s.(m := m');
      case Reread(c, d) =>
        var pc := match s.m.g[c][calls[t].path[d]] case Leaf(_) => Done(false) case Sub(e) => Locking(e, d + 1);
        s' := s.(m := s.m.(pcs := s.m.pcs[t := pc]));
      case Locking(_, _) =>
        var m' := LockNeverBlocks(s.m, calls, t);
        s' := s.(m := m', modes := s.modes[t := Outside]);
    }
  }

  lemma FreeReaderSteps(s: LState, root: Ref, calls: seq<Call>, r: nat) returns (s': LState)
    requires LInv(s, root, calls) && r < |s.readers| && (s.readers[r].pc.Look? || s.readers[r].pc.Unwind?)
    ensures ReaderStep(s, s', r)
  {
    assert ReaderOk(s, r);
    var rd := s.readers[r];
    match rd.pc {
      case Look(held) =>
        s' := s.(readers := s.readers[r := rd.(pc := AfterLook(s.m.g, rd.path, held))]);
      case Unwind(held, result) =>
        s' := s.(readers := s.readers[r := rd.(pc := if held == [] then Finished(result) else Unwind(held[..|held| - 1], result))]);
    }
  }

  ghost predicate Ranks(s: LState, rank: map<Ref, nat>, r: nat)
    requires r < |s.readers|
  {
    s.readers[r].pc.Wait? && s.readers[r].pc.node in rank
  }

  /** A reader waiting in the ranked part with greatest rank, among the first n readers. */
  lemma {:induction false} DeepestWaiting(s: LState, rank: map<Ref, nat>, n: nat) returns (best: int)
    requires n <= |s.readers|
    ensures best == -1 ==> forall r :: 0 <= r < n ==> !Ranks(s, rank, r)
    ensures best != -1 ==> 0 <= best < n && Ranks(s, rank, best)
    ensures best != -1 ==> forall r :: 0 <= r < n && Ranks(s, rank, r) ==>
              rank[s.readers[r].pc.node] <= rank[s.readers[best].pc.node]
  {
    if n == 0 {
      best := -1;
    } else {
      best := DeepestWaiting(s, rank, n - 1);
      if Ranks(s, rank, n - 1) && (best == -1 || rank[s.readers[best].pc.node] < rank[s.readers[n - 1].pc.node]) {
        best := n - 1;
      }
    }
  }

  /** A waiting reader ranks above every ranked node it holds. */
  lemma HeldBelow(s: LState, root: Ref, calls: seq<Call>, rank: map<Ref, nat>, r: nat, c: Ref)
    requires LInv(s, root, calls) && Climbing(s, root, rank) && r < |s.readers| && s.readers[r].pc.Wait? && c in s.readers[r].pc.held && c in rank
    ensures Ranks(s, rank, r) && rank[c] < rank[s.readers[r].pc.node]
  {
    assert ReaderOk(s, r);
    var nodes := s.readers[r].pc.held + [s.readers[r].pc.node];
    var held := s.readers[r].pc.held;
    var i :| 0 <= i < |held| && held[i] == c;
    assert nodes[i] == c;
    WalkClimbs(s.m.g, rank, s.readers[r].from, s.readers[r].path, nodes, i, |nodes| - 1);
  }

  lemma {:induction false} WalkClimbs(g: Graph<Ref>, rank: map<Ref, nat>, from: Ref, p: Path, nodes: seq<Ref>, i: nat, j: nat)
    requires Closed(g) && Climbs(g, rank) && Walk(g, from, p, nodes) && i < j < |nodes| && nodes[i] in rank
    ensures nodes[j] in rank && rank[nodes[i]] < rank[nodes[j]]
    decreases j
  {
    var k := j - 1;
    assert Link(g, p[k], nodes[k], nodes[k + 1]);
    if i < k { WalkClimbs(g, rank, from, p, nodes, i, k); }
  }

  /** With only waiting threads left, a pending writer of some node is blocked at most by
      readers that wait for a node of greater rank. */
  lemma PendingSteps(s: LState, root: Ref, calls: seq<Call>, rank: map<Ref, nat>, t: nat) returns (s': LState)
    requires LInv(s, root, calls) && Climbing(s, root, rank) && t < |calls| && s.modes[t] == Pending && s.m.pcs[t].Locking? && s.m.pcs[t].node in rank
    requires forall r :: 0 <= r < |s.readers| ==> s.readers[r].pc.Wait? || s.readers[r].pc.Finished?
    requires forall r :: 0 <= r < |s.readers| && Ranks(s, rank, r) ==> rank[s.readers[r].pc.node] <= rank[s.m.pcs[t].node]
    ensures WriterStep(s, s', root, calls, t)
  {
    var c := s.m.pcs[t].node;
    forall r | 0 <= r < |s.readers|
      ensures c !in HeldBy(s.readers[r].pc)
    {
      if s.readers[r].pc.Wait? && c in s.readers[r].pc.held { HeldBelow(s, root, calls, rank, r, c); }
    }
    s' := s.(modes := s.modes[t := Holding]);
  }

  /** No deadlock: when nothing below the root is nested in itself, some thread can always
      step, until all have ended. */
  lemma NoDeadlock(s: LState, root: Ref, calls: seq<Call>, rank: map<Ref, nat>) returns (s': LState)
    requires LInv(s, root, calls) && Climbing(s, root, rank) && !Ended(s)
    ensures LStep(s, s', root, calls)
  {
    if t: nat :| t < |calls| && FreeWriter(s, t) {
      s' := FreeWriterSteps(s, root, calls, t);
    } else if r: nat :| r < |s.readers| && (s.readers[r].pc.Look? || s.readers[r].pc.Unwind?) {
      s' := FreeReaderSteps(s, root, calls, r);
    } else {
      s' := WaitingSteps(s, root, calls, rank);
    }
  }

  lemma WaitingSteps(s: LState, root: Ref, calls: seq<Call>, rank: map<Ref, nat>) returns (s': LState)
    requires LInv(s, root, calls) && Climbing(s, root, rank) && !Ended(s)
    requires forall t :: 0 <= t < |calls| ==> !FreeWriter(s, t)
    requires forall r :: 0 <= r < |s.readers| ==> s.readers[r].pc.Wait? || s.readers[r].pc.Finished?
    ensures LStep(s, s', root, calls)
  {
    var best := DeepestWaiting(s, rank, |s.readers|);
    if best != -1 {
      s' := ReaderOrBlocker(s, root, calls, rank, best);
    } else if r: nat :| r < |s.readers| && s.readers[r].pc.Wait? {
      s' := ReaderOrBlocker(s, root, calls, rank, r);
    } else if t: nat :| t < |calls| && s.modes[t] == Pending {
      assert WriterOk(s, root, calls, t);
      s' := PendingSteps(s, root, calls, rank, t);
    } else {
      s' := ArrivingSteps(s, root, calls);
    }
  }

  /** Writers only claim ranked nodes, so a reader that waits elsewhere can step; one that
      waits deepest can step, or the writer that blocks it can. */
  lemma ReaderOrBlocker(s: LState, root: Ref, calls: seq<Call>, rank: map<Ref, nat>, best: nat) returns (s': LState)
    requires LInv(s, root, calls) && Climbing(s, root, rank) && best < |s.readers| && s.readers[best].pc.Wait?
    requires forall t :: 0 <= t < |calls| ==> !FreeWriter(s, t)
    requires forall r :: 0 <= r < |s.readers| ==> s.readers[r].pc.Wait? || s.readers[r].pc.Finished?
    requires forall r :: 0 <= r < |s.readers| && Ranks(s, rank, r) ==>
               Ranks(s, rank, best) && rank[s.readers[r].pc.node] <= rank[s.readers[best].pc.node]
    ensures LStep(s, s', root, calls)
  {
    var rd := s.readers[best];
    var c := rd.pc.node;
    if WriteClaimed(s, c, -1) {
      var t :| 0 <= t < |s.modes| && s.modes[t] != Outside && s.m.pcs[t].Locking? && s.m.pcs[t].node == c;
      assert !FreeWriter(s, t) && WriterOk(s, root, calls, t);
      s' := PendingSteps(s, root, calls, rank, t);
    } else {
      s' := s.(readers := s.readers[best := rd.(pc := Look(rd.pc.held + [c]))]);
      assert ReaderStep(s, s', best);
    }
  }

  lemma ArrivingSteps(s: LState, root: Ref, calls: seq<Call>) returns (s': LState)
    requires LInv(s, root, calls) && !Ended(s)
    requires forall t :: 0 <= t < |calls| ==> !FreeWriter(s, t) && s.modes[t] != Pending
    requires forall r :: 0 <= r < |s.readers| ==> s.readers[r].pc.Finished?
    ensures LStep(s, s', root, calls)
  {
    var t :| 0 <= t < |calls| && !s.m.pcs[t].Done?;
    assert !FreeWriter(s, t);
    forall u | 0 <= u < |s.modes|
      ensures s.modes[u] == Outside
    {
      assert WriterOk(s, root, calls, u) && !FreeWriter(s, u);
    }
    s' := s.(modes := s.modes[t := Pending]);
    assert WriterStep(s, s', root, calls, t);
  }

  // ---------------------------------------------------------------- every schedule ends

  ghost function WriterLeft(pc: Pc, mode: Mode, call: Call): nat
  {
    4 * Remaining(pc, call) + match mode case Outside => 3 case Pending => 2 case Holding => 1
  }

  ghost function ReaderLeft(rd: Reader): nat
  {
    var n := |rd.path|;
    match rd.pc
    case Wait(held, _) => if |held| <= n then 4 * (n - |held|) + |held| + 3 else 0
    case Look(held) => if |held| <= n then 4 * (n - |held|) + |held| + 4 else 0
    case Unwind(held, _) => |held| + 1
    case Finished(_) => 0
  }

  ghost function StepsLeft(s: LState, calls: seq<Call>): nat
    requires Sized(s, calls)
  {
    Sum(seq(|calls|, t requires 0 <= t < |calls| => WriterLeft(s.m.pcs[t], s.modes[t], calls[t])))
    + Sum(seq(|s.readers|, r requires 0 <= r < |s.readers| => ReaderLeft(s.readers[r])))
  }

  /** Each step uses up a bounded budget, so every schedule is finite. */
  lemma StepsRunOut(s: LState, s': LState, root: Ref, calls: seq<Call>)
    requires LInv(s, root, calls) && Sized(s', calls) && LStep(s, s', root, calls)
    ensures StepsLeft(s', calls) < StepsLeft(s, calls)
  {
    var ws := seq(|calls|, t requires 0 <= t < |calls| => WriterLeft(s.m.pcs[t], s.modes[t], calls[t]));
    var ws' := seq(|calls|, t requires 0 <= t < |calls| => WriterLeft(s'.m.pcs[t], s'.modes[t], calls[t]));
    var rs := seq(|s.readers|, r requires 0 <= r < |s.readers| => ReaderLeft(s.readers[r]));
    var rs' := seq(|s'.readers|, r requires 0 <= r < |s'.readers| => ReaderLeft(s'.readers[r]));
    if t: nat :| t < |calls| && WriterStep(s, s', root, calls, t) {
      assert WriterOk(s, root, calls, t);
      assert rs' == rs;
      assert ws' == ws[t := ws'[t]];
      SumUpdate(ws, t, ws'[t]);
      WriterShrinks(s, s', root, calls, t);
    } else {
      var r: nat :| r < |s.readers| && ReaderStep(s, s', r);
      assert ReaderOk(s, r);
      assert ws' == ws;
      assert rs' == rs[r := rs'[r]];
      SumUpdate(rs, r, rs'[r]);
    }
  }

  lemma WriterShrinks(s: LState, s': LState, root: Ref, calls: seq<Call>, t: nat)
    requires Sized(s, calls) && Sized(s', calls) && t < |calls| && WriterStep(s, s', root, calls, t) && WriterOk(s, root, calls, t)
    ensures WriterLeft(s'.m.pcs[t], s'.modes[t], calls[t]) < WriterLeft(s.m.pcs[t], s.modes[t], calls[t])
  {
    if s'.m != s.m { SetStepsShrink(s.m, s'.m, root, calls, t); }
  }

  /** Forgetting locks and readers, a step is a step of the set machine or nothing: the
      locks only remove interleavings. */
  lemma LockedStepsAreSteps(s: LState, s': LState, root: Ref, calls: seq<Call>)
    requires Sized(s, calls) && LStep(s, s', root, calls)
    ensures s'.m == s.m || Step(s.m, s'.m, root, calls)
  {
    if t: nat :| t < |calls| && WriterStep(s, s', root, calls, t) {
      assert s'.m == s.m || Next(s.m, s'.m, root, calls, t);
    }
  }

  /** Hence a run with locks and readers contains a run of the set machine. */
  lemma {:induction false} LockedRunsAreRuns(run: seq<LState>, root: Ref, calls: seq<Call>, i: nat) returns (inner: seq<State>)
    requires LRun(run, root, calls) && i < |run| && Init(run[0].m, root, calls)
    ensures Run(inner, root, calls) && inner[0] == run[0].m && inner[|inner| - 1] == run[i].m
  {
    if i == 0 {
      inner := [run[0].m];
    } else {
      var k := i - 1;
      inner := LockedRunsAreRuns(run, root, calls, k);
      assert LStep(run[k], run[i], root, calls);
      LockedStepsAreSteps(run[k], run[i], root, calls);
      if run[i].m != run[k].m {
        inner := RunExtends(inner, run[i].m, root, calls);
      }
    }
  }
}
