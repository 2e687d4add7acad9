/** When readers and writers can block each other for good: exactly when some
    configuration below the root is nested in itself. */
module Deadlock {
  import opened Text
  import opened Views
  import opened Graphs
  import opened ConcurrentSet
  import opened Locks

  ghost predicate Leads(g: Graph<Ref>, c: Ref, d: Ref)
    requires Closed(g) && c in g
  {
    exists p :: p != [] && Lookup(g, c, p) == Some(Sub(d))
  }

  ghost predicate AtOrBelow(g: Graph<Ref>, root: Ref, c: Ref)
    requires Closed(g) && root in g
  {
    c == root || Leads(g, root, c)
  }

  /** Something at or below the root is nested in itself. */
  ghost predicate Cyclic(g: Graph<Ref>, root: Ref)
    requires Closed(g) && root in g
  {
    exists c :: c in g && AtOrBelow(g, root, c) && Leads(g, c, c)
  }

  /** Some thread has not ended and none can step. */
  ghost predicate Stuck(s: LState, root: Ref, calls: seq<Call>)
    requires Sized(s, calls)
  {
    !Ended(s) && forall s' :: !LStep(s, s', root, calls)
  }

  /** No schedule of any calls on the root and any readers gets stuck. */
  ghost predicate DeadlockFree(g: Graph<Ref>, root: Ref)
  {
    forall run: seq<LState>, calls: seq<Call> :: LSteps(run, root, calls) && Fresh(run[0], root, calls) && run[0].m.g == g ==>
      !Stuck(run[|run| - 1], root, calls)
  }

  // ---------------------------------------------------------------- without a cycle

  lemma LeadsOn(g: Graph<Ref>, c: Ref, d: Ref, k: string)
    requires Closed(g) && c in g && d in g && k in g[d] && g[d][k].Sub? && (c == d || Leads(g, c, d))
    ensures Leads(g, c, g[d][k].node)
  {
    assert Lookup(g, d, [k]) == Some(g[d][k]);
    if c != d {
      var p :| p != [] && Lookup(g, c, p) == Some(Sub(d));
      LookupSplit(g, c, p, [k]);
      assert p + [k] != [];
    }
  }

  ghost function LeadingTo(g: Graph<Ref>, c: Ref): set<Ref>
    requires Closed(g)
  {
    set d | d in g && Leads(g, d, c)
  }

  lemma MoreAbove(g: Graph<Ref>, c: Ref, k: string)
    requires Closed(g) && c in g && k in g[c] && g[c][k].Sub? && !Leads(g, c, c)
    ensures |LeadingTo(g, c)| < |LeadingTo(g, g[c][k].node)|
  {
    var e := g[c][k].node;
    forall d | d in LeadingTo(g, c) + {c}
      ensures d in LeadingTo(g, e)
    {
      LeadsOn(g, d, c, k);
    }
    Smaller(LeadingTo(g, c) + {c}, LeadingTo(g, e));
  }

  lemma {:induction false} Smaller(a: set<Ref>, b: set<Ref>)
    requires a <= b
    ensures |a| <= |b|
  {
    if x :| x in a { Smaller(a - {x}, b - {x}); }
  }

  /** Without a cycle, the number of nodes that lead to a node is a rank. */
  lemma Acyclic(g: Graph<Ref>, root: Ref) returns (rank: map<Ref, nat>)
    requires Closed(g) && root in g && !Cyclic(g, root)
    ensures root in rank && Climbs(g, rank)
  {
    rank := map c | c in g && AtOrBelow(g, root, c) :: |LeadingTo(g, c)|;
    forall c, k | c in g && c in rank && k in g[c] && g[c][k].Sub?
      ensures g[c][k].node in rank && rank[c] < rank[g[c][k].node]
    {
      LeadsOn(g, root, c, k);
      MoreAbove(g, c, k);
    }
  }

  lemma AcyclicIsFree(g: Graph<Ref>, root: Ref)
    requires Closed(g) && root in g && !Cyclic(g, root)
    ensures DeadlockFree(g, root)
  {
    var rank0 := Acyclic(g, root);
    forall run: seq<LState>, calls: seq<Call> | LSteps(run, root, calls) && Fresh(run[0], root, calls) && run[0].m.g == g
      ensures !Stuck(run[|run| - 1], root, calls)
    {
      var s := run[|run| - 1];
      var rank := RunClimbs(run, root, calls, rank0, |run| - 1);
      if !Ended(s) { var s' := NoDeadlock(s, root, calls, rank); }
    }
  }

  // ---------------------------------------------------------------- with a cycle

  /** The nodes that the walk from c along p visits. */
  ghost predicate Trail(g: Graph<Ref>, c: Ref, p: Path, nodes: seq<Ref>)
  {
    && |nodes| == |p| + 1 && nodes[0] == c
    && (forall i :: 0 <= i < |nodes| ==> nodes[i] in g)
    && forall i :: 0 <= i < |p| ==> Link(g, p[i], nodes[i], nodes[i + 1])
  }

  lemma {:induction false} TrailTo(g: Graph<Ref>, c: Ref, p: Path, d: Ref) returns (nodes: seq<Ref>)
    requires Closed(g) && c in g && (if p == [] then c == d else Lookup(g, c, p) == Some(Sub(d)))
    ensures Trail(g, c, p, nodes) && nodes[|p|] == d
    decreases p
  {
    if p == [] {
      nodes := [c];
    } else {
      var e := g[c][p[0]].node;
      var rest := TrailTo(g, e, p[1..], d);
      nodes := [c] + rest;
      forall i | 0 <= i < |p|
        ensures Link(g, p[i], nodes[i], nodes[i + 1])
      {
        if i > 0 {
          var j := i - 1;
          assert Link(g, p[1..][j], rest[j], rest[j + 1]);
        }
      }
    }
  }

  /** One writer, whose progress is pc and mode, and one reader. */
  ghost function Pair(g: Graph<Ref>, pc: Pc, mode: Mode, rd: Reader): LState
  {
    LState(State(g, [pc], [{}]), [mode], [rd])
  }

  ghost predicate OneCall(calls: seq<Call>, q: Path, rd: Reader)
  {
    |calls| == 1 && |calls[0].path| == |q| + 1 && calls[0].path[..|q|] == q && rd.path != []
  }

  lemma RunOn(run: seq<LState>, s: LState, root: Ref, calls: seq<Call>) returns (run': seq<LState>)
    requires LSteps(run, root, calls) && Sized(s, calls) && LStep(run[|run| - 1], s, root, calls)
    ensures LSteps(run', root, calls) && run'[0] == run[0] && run'[|run'| - 1] == s
  {
    run' := run + [s];
    forall i, j | 0 <= i && j == i + 1 < |run'|
      ensures LStep(run'[i], run'[j], root, calls)
    {
      if j < |run| { assert LStep(run[i], run[j], root, calls); }
    }
  }

  lemma PairWriter(g: Graph<Ref>, pc: Pc, mode: Mode, pc': Pc, mode': Mode, rd: Reader, root: Ref, calls: seq<Call>, run: seq<LState>)
    returns (run': seq<LState>)
    requires LSteps(run, root, calls) && run[|run| - 1] == Pair(g, pc, mode, rd) && |calls| == 1
    requires Sized(Pair(g, pc, mode, rd), calls) && WriterStep(Pair(g, pc, mode, rd), Pair(g, pc', mode', rd), root, calls, 0)
    ensures LSteps(run', root, calls) && run'[0] == run[0] && run'[|run'| - 1] == Pair(g, pc', mode', rd)
  {
    run' := RunOn(run, Pair(g, pc', mode', rd), root, calls);
  }

  /** While the reader holds nothing, the writer enters a child: it takes the lock, finds
      the entry there, and reads it again. */
  lemma WriterEnters(g: Graph<Ref>, root: Ref, calls: seq<Call>, rd: Reader, c: Ref, d: nat, e: Ref, run: seq<LState>) returns (run': seq<LState>)
    requires LSteps(run, root, calls) && run[|run| - 1] == Pair(g, Locking(c, d), Outside, rd) && |calls| == 1
    requires c in g && d + 1 < |calls[0].path| && Link(g, calls[0].path[d], c, e) && HeldBy(rd.pc) == []
    ensures LSteps(run', root, calls) && run'[0] == run[0] && run'[|run'| - 1] == Pair(g, Locking(e, d + 1), Outside, rd)
  {
    assert Sized(run[|run| - 1], calls);
    assert !WriteClaimed(Pair(g, Locking(c, d), Outside, rd), c, 0);
    var run1 := PairWriter(g, Locking(c, d), Outside, Locking(c, d), Pending, rd, root, calls, run);
    assert !ReadLocked(Pair(g, Locking(c, d), Pending, rd), c);
    var run2 := PairWriter(g, Locking(c, d), Pending, Locking(c, d), Holding, rd, root, calls, run1);
    var run3 := PairWriter(g, Locking(c, d), Holding, Reread(c, d), Outside, rd, root, calls, run2);
    run' := PairWriter(g, Reread(c, d), Outside, Locking(e, d + 1), Outside, rd, root, calls, run3);
  }

  lemma {:induction false} WriterArrives(g: Graph<Ref>, root: Ref, calls: seq<Call>, rd: Reader, q: Path, nodes: seq<Ref>, d: nat) returns (run: seq<LState>)
    requires Trail(g, root, q, nodes) && OneCall(calls, q, rd) && HeldBy(rd.pc) == [] && d <= |q|
    ensures LSteps(run, root, calls) && run[0] == Pair(g, Idle, Outside, rd)
    ensures run[|run| - 1] == Pair(g, Locking(nodes[d], d), Outside, rd)
  {
    if d == 0 {
      run := [Pair(g, Idle, Outside, rd)];
      assert Returned(run[0].m) == {};
      run := PairWriter(g, Idle, Outside, Locking(root, 0), Outside, rd, root, calls, run);
    } else {
      run := WriterArrives(g, root, calls, rd, q, nodes, d - 1);
      var i := d - 1;
      assert Link(g, q[i], nodes[i], nodes[i + 1]) && calls[0].path[i] == calls[0].path[..|q|][i];
      run := WriterEnters(g, root, calls, rd, nodes[i], i, nodes[d], run);
    }
  }

  /** While the writer has no lock, the reader walks along p, locking as it goes. */
  lemma {:induction false} ReaderArrives(g: Graph<Ref>, root: Ref, calls: seq<Call>, pc: Pc, rd: Reader, p: Path, nodes: seq<Ref>, j: nat, run: seq<LState>)
    returns (run': seq<LState>)
    requires Trail(g, rd.from, p, nodes) && |calls| == 1 && |rd.path| == |p| + 1 && rd.path[..|p|] == p && j <= |p|
    requires LSteps(run, root, calls) && run[|run| - 1] == Pair(g, pc, Outside, rd) && rd.pc == Wait([], rd.from)
    ensures LSteps(run', root, calls) && run'[0] == run[0]
    ensures run'[|run'| - 1] == Pair(g, pc, Outside, rd.(pc := Wait(nodes[..j], nodes[j])))
  {
    if j == 0 {
      run' := run;
      assert nodes[..0] == [];
    } else {
      var i := j - 1;
      run' := ReaderArrives(g, root, calls, pc, rd, p, nodes, i, run);
      assert Link(g, p[i], nodes[i], nodes[i + 1]) && rd.path[i] == rd.path[..|p|][i];
      assert nodes[..i] + [nodes[i]] == nodes[..j];
      run' := ReaderAdvances(g, root, calls, pc, rd, nodes[..i], nodes[i], nodes[j], run');
    }
  }

  lemma ReaderAdvances(g: Graph<Ref>, root: Ref, calls: seq<Call>, pc: Pc, rd: Reader, held: seq<Ref>, c: Ref, e: Ref, run: seq<LState>)
    returns (run': seq<LState>)
    requires |calls| == 1 && |held| + 1 < |rd.path| && c in g && Link(g, rd.path[|held|], c, e)
    requires LSteps(run, root, calls) && run[|run| - 1] == Pair(g, pc, Outside, rd.(pc := Wait(held, c)))
    ensures LSteps(run', root, calls) && run'[0] == run[0]
    ensures run'[|run'| - 1] == Pair(g, pc, Outside, rd.(pc := Wait(held + [c], e)))
  {
    var s0 := Pair(g, pc, Outside, rd.(pc := Wait(held, c)));
    var s1 := Pair(g, pc, Outside, rd.(pc := Look(held + [c])));
    var s2 := Pair(g, pc, Outside, rd.(pc := Wait(held + [c], e)));
    assert Sized(s0, calls);
    assert !WriteClaimed(s0, c, -1);
    assert s1.readers == s0.readers[0 := rd.(pc := Look(held + [c]))];
    assert ReaderStep(s0, s1, 0);
    assert AfterLook(g, rd.path, held + [c]) == Wait(held + [c], e);
    assert ReaderStep(s1, s2, 0);
    var run1 := RunOn(run, s1, root, calls);
    run' := RunOn(run1, s2, root, calls);
  }

  /** The reader waits for a node it holds, behind a writer that waits for the reader. */
  lemma BothBlocked(g: Graph<Ref>, root: Ref, calls: seq<Call>, c: Ref, d: nat, rd: Reader)
    requires Sized(Pair(g, Locking(c, d), Pending, rd), calls) && rd.pc.Wait? && rd.pc.node == c && c in rd.pc.held
    ensures Stuck(Pair(g, Locking(c, d), Pending, rd), root, calls)
  {
    var s := Pair(g, Locking(c, d), Pending, rd);
    assert c in HeldBy(s.readers[0].pc) && s.modes[0] == Pending;
    assert ReadLocked(s, c) && WriteClaimed(s, c, -1);
    forall s'
      ensures !LStep(s, s', root, calls)
    {
      assert !WriterStep(s, s', root, calls, 0);
      assert !ReaderStep(s, s', 0);
    }
  }

  /** On any graph with a cycle below the root a writer and a reader can block each other:
      the writer walks to the cycle, the reader goes round it once, and the writer announces itself. */
  lemma CycleDeadlocks(g: Graph<Ref>, root: Ref, c: Ref) returns (run: seq<LState>, calls: seq<Call>)
    requires Closed(g) && root in g && c in g && AtOrBelow(g, root, c) && Leads(g, c, c)
    ensures LSteps(run, root, calls) && Fresh(run[0], root, calls) && run[0].m.g == g
    ensures Stuck(run[|run| - 1], root, calls)
  {
    var q: Path := [];
    if c != root { q :| q != [] && Lookup(g, root, q) == Some(Sub(c)); }
    var p :| p != [] && Lookup(g, c, p) == Some(Sub(c));
    var there := TrailTo(g, root, q, c);
    var round := TrailTo(g, c, p, c);
    var rd := Reader(c, p + ["x"], Wait([], c));
    calls := [Call(q + ["x"], Num(0))];
    run := WriterArrives(g, root, calls, rd, q, there, |q|);
    run := ReaderArrives(g, root, calls, Locking(c, |q|), rd, p, round, |p|, run);
    var rd' := rd.(pc := Wait(round[..|p|], c));
    assert c == round[..|p|][0];
    assert !WriteClaimed(Pair(g, Locking(c, |q|), Outside, rd'), c, 0);
    run := PairWriter(g, Locking(c, |q|), Outside, Locking(c, |q|), Pending, rd', root, calls, run);
    BothBlocked(g, root, calls, c, |q|, rd');
  }

  /** Readers and writers can deadlock exactly when something at or below the root is nested in itself. */
  lemma DeadlockFreeExactly(g: Graph<Ref>, root: Ref)
    requires Closed(g) && root in g
    ensures DeadlockFree(g, root) <==> !Cyclic(g, root)
  {
    if Cyclic(g, root) {
      var c :| c in g && AtOrBelow(g, root, c) && Leads(g, c, c);
      var run, calls := CycleDeadlocks(g, root, c);
      assert LSteps(run, root, calls) && Fresh(run[0], root, calls) && run[0].m.g == g;
    } else {
      AcyclicIsFree(g, root);
    }
  }
}
