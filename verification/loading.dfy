/** Loading is confluent: paths that are pairwise equal or incomparable never collide,
    whatever the interleaving of the goroutines that set them. */
module Loading {
  import opened Text
  import opened Views
  import opened Graphs
  import opened ConcurrentSet
  import opened Linearize
  import opened Linearizable
  import opened Trees

  /** No path is a proper prefix of another. */
  ghost predicate Loadable(calls: seq<Call>)
  {
    forall i, j :: 0 <= i < |calls| && 0 <= j < |calls| ==> !StrictlyAbove(calls[i].path, calls[j].path)
  }

  /** Some listed call writes v at q. */
  ghost predicate Written(calls: seq<Call>, log: seq<nat>, q: Path, v: Scalar)
  {
    exists j :: 0 <= j < |log| && log[j] < |calls| && calls[log[j]] == Call(q, v)
  }

  ghost predicate PathOfSome(calls: seq<Call>, log: seq<nat>, q: Path)
  {
    exists j :: 0 <= j < |log| && log[j] < |calls| && calls[log[j]].path == q
  }

  ghost predicate AboveSome(calls: seq<Call>, log: seq<nat>, q: Path)
  {
    exists j :: 0 <= j < |log| && log[j] < |calls| && StrictlyAbove(q, calls[log[j]].path)
  }

  /** Exactly the listed paths hold values, each one written to it, and exactly their
      proper prefixes are configurations. */
  ghost predicate Holds(t: View, calls: seq<Call>, log: seq<nat>)
  {
    && (forall q, v :: At(t, q) == Some(LeafK(v)) ==> Written(calls, log, q, v))
    && (forall q :: PathOfSome(calls, log, q) ==> q in t && t[q].LeafK?)
    && (forall q :: At(t, q) == Some(NodeK) <==> q != [] && AboveSome(calls, log, q))
  }

  lemma {:induction false} SerialHolds(calls: seq<Call>, log: seq<nat>)
    requires ValidCalls(calls) && Loadable(calls) && forall j :: 0 <= j < |log| ==> log[j] < |calls|
    ensures Holds(Serial(imap[], calls, log), calls, log)
  {
    if log != [] {
      var n := |log| - 1;
      var t := Serial(imap[], calls, log[..n]);
      SerialHolds(calls, log[..n]);
      NotBlocked(t, calls, log[..n], log[n]);
      HoldsStep(t, calls, log);
    }
  }

  /** No value sits above the path of a loadable call. */
  lemma NotBlocked(t: View, calls: seq<Call>, log: seq<nat>, i: nat)
    requires Loadable(calls) && Holds(t, calls, log) && i < |calls|
    ensures !Blocked(t, calls[i].path)
  {
    forall q | StrictlyAbove(q, calls[i].path) && q in t
      ensures !t[q].LeafK?
    {
      assert At(t, q) == Some(t[q]);
      assert t[q].LeafK? ==> Written(calls, log, q, t[q].leaf);
    }
  }

  lemma HoldsStep(t: View, calls: seq<Call>, log: seq<nat>)
    requires ValidCalls(calls) && Loadable(calls) && log != [] && forall j :: 0 <= j < |log| ==> log[j] < |calls|
    requires Holds(t, calls, log[..|log| - 1])
    ensures Holds(SetView(t, calls[log[|log| - 1]].path, PutLeaf(calls[log[|log| - 1]].leaf)), calls, log)
  {
    var n := |log| - 1;
    var call := calls[log[n]];
    var u := SetView(t, call.path, PutLeaf(call.leaf));
    forall q
      ensures AboveSome(calls, log, q) <==> AboveSome(calls, log[..n], q) || StrictlyAbove(q, call.path)
      ensures PathOfSome(calls, log, q) <==> PathOfSome(calls, log[..n], q) || q == call.path
    {
      Extend(calls, log, q);
    }
    forall q, v | At(u, q) == Some(LeafK(v))
      ensures Written(calls, log, q, v)
    {
      if q == call.path {
        assert calls[log[n]] == Call(q, v);
      } else {
        assert Written(calls, log[..n], q, v);
        var j :| 0 <= j < n && log[..n][j] < |calls| && calls[log[..n][j]] == Call(q, v);
        assert calls[log[j]] == Call(q, v);
      }
    }
    forall q | PathOfSome(calls, log, q)
      ensures q in u && u[q].LeafK?
    {
      if q != call.path {
        var j :| 0 <= j < n && log[..n][j] < |calls| && calls[log[..n][j]].path == q;
        assert !StrictlyAbove(q, call.path) && !StrictlyAbove(call.path, q);
      }
    }
    forall q
      ensures At(u, q) == Some(NodeK) <==> q != [] && AboveSome(calls, log, q)
    {
      NodesStep(t, calls, log, q);
    }
  }

  lemma NodesStep(t: View, calls: seq<Call>, log: seq<nat>, q: Path)
    requires ValidCalls(calls) && Loadable(calls) && log != [] && forall j :: 0 <= j < |log| ==> log[j] < |calls|
    requires Holds(t, calls, log[..|log| - 1])
    ensures At(SetView(t, calls[log[|log| - 1]].path, PutLeaf(calls[log[|log| - 1]].leaf)), q) == Some(NodeK)
            <==> q != [] && AboveSome(calls, log, q)
  {
    var n := |log| - 1;
    var p := calls[log[n]].path;
    Extend(calls, log, q);
    if AboveSome(calls, log[..n], q) {
      var j :| 0 <= j < n && log[..n][j] < |calls| && StrictlyAbove(q, calls[log[..n][j]].path);
      var r := calls[log[j]].path;
      assert !StrictlyAbove(p, r);
      assert q != p;
      StrictTrans(p, q, r);
    }
  }

  lemma Extend(calls: seq<Call>, log: seq<nat>, q: Path)
    requires log != [] && forall j :: 0 <= j < |log| ==> log[j] < |calls|
    ensures var n := |log| - 1;
      && (AboveSome(calls, log, q) <==> AboveSome(calls, log[..n], q) || StrictlyAbove(q, calls[log[n]].path))
      && (PathOfSome(calls, log, q) <==> PathOfSome(calls, log[..n], q) || q == calls[log[n]].path)
  {
    var n := |log| - 1;
    var short := log[..n];
    assert forall j :: 0 <= j < n ==> short[j] == log[j];
    if AboveSome(calls, log, q) && !StrictlyAbove(q, calls[log[n]].path) {
      var j :| 0 <= j < |log| && log[j] < |calls| && StrictlyAbove(q, calls[log[j]].path);
      assert short[j] == log[j];
    }
    if PathOfSome(calls, log, q) && q != calls[log[n]].path {
      var j :| 0 <= j < |log| && log[j] < |calls| && calls[log[j]].path == q;
      assert short[j] == log[j];
    }
  }

  ghost predicate AllDone(s: State)
  {
    forall t :: 0 <= t < |s.pcs| ==> s.pcs[t].Done?
  }

  ghost predicate FromEmpty(run: seq<State>, root: Ref, calls: seq<Call>)
  {
    ValidCalls(calls) && Run(run, root, calls) && run[0].g == map[root := map[]]
  }

  ghost predicate EmptyStart(run: seq<State>, root: Ref, calls: seq<Call>)
  {
    FromEmpty(run, root, calls) && Loadable(calls)
  }

  lemma EmptyView(g: Graph<Ref>, root: Ref)
    requires g == map[root := map[]]
    ensures ViewOf(g, root) == imap[]
  {
  }

  /** A call index in the whole list rather than in the log. */
  lemma LogCoversAll(s: State, t0: View, calls: seq<Call>, log: seq<nat>, t: nat)
    requires Linearization(s, t0, calls, log) && t < |calls| && s.pcs[t].Done?
    ensures PathOfSome(calls, log, calls[t].path)
  {
    var j :| 0 <= j < |log| && log[j] == t;
  }

  /** No interleaving makes a loading call fail. */
  lemma LoadingNeverFails(run: seq<State>, root: Ref, calls: seq<Call>, i: nat, t: nat)
    requires EmptyStart(run, root, calls) && i < |run| && t < |calls| && run[i].pcs[t].Done?
    ensures run[i].pcs[t].ok
  {
    EmptyView(run[0].g, root);
    SetIsLinearizable(run, root, calls, i);
    var log :| Explains(run[i], root, imap[], calls, log);
    LinearizedSucceeds(run[i], calls, log, t);
  }

  lemma LinearizedSucceeds(s: State, calls: seq<Call>, log: seq<nat>, t: nat)
    requires Loadable(calls) && Linearization(s, imap[], calls, log) && t < |calls| && s.pcs[t].Done?
    ensures s.pcs[t].ok
  {
    var j :| 0 <= j < |log| && log[j] == t;
    SerialHolds(calls, log[..j]);
    NotBlocked(Serial(imap[], calls, log[..j]), calls, log[..j], t);
  }

  /** What every finished load shows: exactly the calls' paths hold values, each one
      written to it, and exactly their proper prefixes are configurations. */
  ghost predicate Loaded(t: View, calls: seq<Call>)
  {
    && (forall q, v :: At(t, q) == Some(LeafK(v)) ==> Call(q, v) in calls)
    && (forall i :: 0 <= i < |calls| ==> calls[i].path in t && t[calls[i].path].LeafK?)
    && (forall q :: At(t, q) == Some(NodeK) <==> q != [] && exists i :: 0 <= i < |calls| && StrictlyAbove(q, calls[i].path))
  }

  lemma LoadingHolds(run: seq<State>, root: Ref, calls: seq<Call>)
    requires EmptyStart(run, root, calls) && AllDone(run[|run| - 1])
    ensures var s := run[|run| - 1]; Closed(s.g) && root in s.g && Loaded(ViewOf(s.g, root), calls)
  {
    var s := run[|run| - 1];
    EmptyView(run[0].g, root);
    SetIsLinearizable(run, root, calls, |run| - 1);
    var log :| Explains(s, root, imap[], calls, log);
    LinearizedHolds(s, calls, log);
  }

  lemma LinearizedHolds(s: State, calls: seq<Call>, log: seq<nat>)
    requires Loadable(calls) && Linearization(s, imap[], calls, log) && AllDone(s)
    ensures Loaded(Serial(imap[], calls, log), calls)
  {
    var t := Serial(imap[], calls, log);
    SerialHolds(calls, log);
    forall i | 0 <= i < |calls|
      ensures calls[i].path in t && t[calls[i].path].LeafK?
    {
      LogCoversAll(s, imap[], calls, log, i);
    }
    forall q, v | At(t, q) == Some(LeafK(v))
      ensures Call(q, v) in calls
    {
      assert Written(calls, log, q, v);
    }
    forall q
      ensures AboveSome(calls, log, q) <==> exists i :: 0 <= i < |calls| && StrictlyAbove(q, calls[i].path)
    {
      LogCoversAbove(s, calls, log, q);
    }
  }

  lemma LogCoversAbove(s: State, calls: seq<Call>, log: seq<nat>, q: Path)
    requires |s.pcs| == |calls| && AllDone(s)
    requires forall j :: 0 <= j < |log| ==> log[j] < |calls|
    requires forall t :: 0 <= t < |calls| && s.pcs[t].Done? ==> t in log
    ensures AboveSome(calls, log, q) <==> exists i :: 0 <= i < |calls| && StrictlyAbove(q, calls[i].path)
  {
    if i :| 0 <= i < |calls| && StrictlyAbove(q, calls[i].path) {
      assert s.pcs[i].Done?;
      var j :| 0 <= j < |log| && log[j] == i;
      assert StrictlyAbove(q, calls[log[j]].path);
    }
  }

  /** With distinct paths the loaded view does not depend on the interleaving. */
  lemma LoadingIsConfluent(run: seq<State>, run': seq<State>, root: Ref, calls: seq<Call>)
    requires EmptyStart(run, root, calls) && AllDone(run[|run| - 1])
    requires EmptyStart(run', root, calls) && AllDone(run'[|run'| - 1])
    requires forall i, j :: 0 <= i < j < |calls| ==> calls[i].path != calls[j].path
    ensures var s, s' := run[|run| - 1], run'[|run'| - 1];
      Closed(s.g) && Closed(s'.g) && root in s.g && root in s'.g && ViewOf(s.g, root) == ViewOf(s'.g, root)
  {
    LoadingHolds(run, root, calls);
    LoadingHolds(run', root, calls);
    LoadedUnique(ViewOf(run[|run| - 1].g, root), ViewOf(run'[|run'| - 1].g, root), calls);
  }

  lemma LoadedUnique(t: View, u: View, calls: seq<Call>)
    requires Loaded(t, calls) && Loaded(u, calls)
    requires forall i, j :: 0 <= i < j < |calls| ==> calls[i].path != calls[j].path
    ensures t == u
  {
    forall q
      ensures At(t, q) == At(u, q)
    {
      assert At(t, q) == Some(NodeK) <==> At(u, q) == Some(NodeK);
      if At(t, q).Some? && At(t, q).value.LeafK? {
        LoadedLeaf(t, u, calls, q, t[q].leaf);
      }
      if At(u, q).Some? && At(u, q).value.LeafK? {
        LoadedLeaf(u, t, calls, q, u[q].leaf);
      }
    }
    SameView(t, u);
  }

  lemma LoadedLeaf(t: View, u: View, calls: seq<Call>, q: Path, v: Scalar)
    requires Loaded(t, calls) && Loaded(u, calls) && At(t, q) == Some(LeafK(v))
    requires forall i, j :: 0 <= i < j < |calls| ==> calls[i].path != calls[j].path
    ensures At(u, q) == Some(LeafK(v))
  {
    var i :| 0 <= i < |calls| && calls[i] == Call(q, v);
    assert At(u, q) == Some(u[calls[i].path]);
    var j :| 0 <= j < |calls| && calls[j] == Call(q, u[q].leaf);
    assert i == j;
  }

  // ---------------------------------------------------------------- the condition is exact

  /** In no run from an empty configuration does a call fail. */
  ghost predicate NeverFails(root: Ref, calls: seq<Call>)
  {
    forall run: seq<State>, i, t :: FromEmpty(run, root, calls) && 0 <= i < |run| && 0 <= t < |calls| ==> run[i].pcs[t] != Done(false)
  }

  lemma EmptyRun(root: Ref, calls: seq<Call>) returns (run: seq<State>)
    requires ValidCalls(calls)
    ensures FromEmpty(run, root, calls) && |run| == 1
    ensures forall t :: 0 <= t < |calls| ==> run[0].pcs[t] == Idle
  {
    var g: Graph<Ref> := map[root := map[]];
    var s := State(g, seq(|calls|, _ => Idle), seq(|calls|, _ => {}));
    var addr: map<Ref, Path> := map[root := []];
    assert Unshared(g, root, addr);
    run := [s];
  }

  /** A call can run to its end while all others rest. */
  lemma {:induction false} RunsAlone(run: seq<State>, root: Ref, calls: seq<Call>, t: nat) returns (run': seq<State>)
    requires FromEmpty(run, root, calls) && t < |calls|
    ensures FromEmpty(run', root, calls) && run'[0] == run[0]
    ensures var s, s' := run[|run| - 1], run'[|run'| - 1];
      && s'.pcs[t].Done?
      && (forall u :: 0 <= u < |calls| && u != t ==> s'.pcs[u] == s.pcs[u] && s'.before[u] == s.before[u])
      && (s.pcs[t].Idle? ==> s'.before[t] == Returned(s))
      && (!s.pcs[t].Idle? ==> s'.before[t] == s.before[t])
    decreases Remaining(run[|run| - 1].pcs[t], calls[t])
  {
    var s := run[|run| - 1];
    if s.pcs[t].Done? {
      run' := run;
    } else {
      var s' := NextAlone(run, root, calls, t);
      SetStepsShrink(s, s', root, calls, t);
      StepLeavesBefore(s, s', root, calls, t);
      var longer := RunExtends(run, s', root, calls);
      run' := RunsAlone(longer, root, calls, t);
    }
  }

  lemma NextAlone(run: seq<State>, root: Ref, calls: seq<Call>, t: nat) returns (s': State)
    requires FromEmpty(run, root, calls) && t < |calls| && !run[|run| - 1].pcs[t].Done?
    ensures Next(run[|run| - 1], s', root, calls, t) && |s'.pcs| == |s'.before| == |calls|
  {
    var s := run[|run| - 1];
    RunKeeps(run, root, calls, |run| - 1);
    var h :| Inv(s, h, root, ViewOf(run[0].g, root), calls);
    s' := SetNeverBlocks(s, h, root, calls, t);
    StepLeavesBefore(s, s', root, calls, t);
  }

  lemma StepLeavesBefore(s: State, s': State, root: Ref, calls: seq<Call>, t: nat)
    requires t < |s.pcs| == |s.before| == |calls| && Next(s, s', root, calls, t)
    ensures |s'.pcs| == |s'.before| == |calls| && !s'.pcs[t].Idle?
    ensures s'.before == if s.pcs[t].Idle? then s.before[t := Returned(s)] else s.before
  {
  }

  /** If one path lies strictly above another, running its call first makes the other fail. */
  lemma UpperFirstFails(root: Ref, calls: seq<Call>, i: nat, j: nat) returns (run: seq<State>)
    requires ValidCalls(calls) && i < |calls| && j < |calls| && StrictlyAbove(calls[i].path, calls[j].path)
    ensures FromEmpty(run, root, calls) && run[|run| - 1].pcs[j] == Done(false)
    ensures forall t :: 0 <= t < |calls| ==> run[0].pcs[t] == Idle
  {
    run := EmptyRun(root, calls);
    run := RunsAlone(run, root, calls, i);
    var mid := run[|run| - 1];
    assert i in Returned(mid);
    run := RunsAlone(run, root, calls, j);
    EmptyView(run[0].g, root);
    SetIsLinearizable(run, root, calls, |run| - 1);
    var log :| Explains(run[|run| - 1], root, imap[], calls, log);
    SecondFails(run[|run| - 1], calls, log, i, j);
  }

  lemma SecondFails(s: State, calls: seq<Call>, log: seq<nat>, i: nat, j: nat)
    requires Linearization(s, imap[], calls, log) && i < |calls| && j < |calls|
    requires StrictlyAbove(calls[i].path, calls[j].path)
    requires s.pcs[i].Done? && s.pcs[j].Done? && forall u :: 0 <= u < |calls| && u != i && u != j ==> !s.pcs[u].Done?
    requires i in s.before[j]
    ensures s.pcs[j] == Done(false)
  {
    LogOfTwo(s, calls, log, i, j);
    UpperBlocks(calls, i, j);
    assert log[..1] == [i] && log[1] == j;
  }

  lemma LogOfTwo(s: State, calls: seq<Call>, log: seq<nat>, i: nat, j: nat)
    requires Linearization(s, imap[], calls, log) && i < |calls| && j < |calls| && i != j
    requires s.pcs[i].Done? && s.pcs[j].Done? && forall u :: 0 <= u < |calls| && u != i && u != j ==> !s.pcs[u].Done?
    requires i in s.before[j]
    ensures log == [i, j]
  {
    var a :| 0 <= a < |log| && log[a] == i;
    var b :| 0 <= b < |log| && log[b] == j;
    forall c | 0 <= c < |log|
      ensures log[c] == i || log[c] == j
    {
    }
    assert a < b;
    assert log[0] == i && log[1] == j;
    assert log[|log| - 1] == j;
  }

  lemma UpperBlocks(calls: seq<Call>, i: nat, j: nat)
    requires ValidCalls(calls) && i < |calls| && j < |calls| && StrictlyAbove(calls[i].path, calls[j].path)
    ensures Blocked(Serial(imap[], calls, [i]), calls[j].path)
  {
    var log := [i];
    assert log[..|log| - 1] == [] && log[|log| - 1] == i;
    var t := Serial(imap[], calls, log);
    assert Serial(imap[], calls, log[..|log| - 1]) == imap[];
    assert t == Apply(imap[], calls[i].path, PutLeaf(calls[i].leaf));
    assert calls[i].path in t && t[calls[i].path].LeafK?;
  }

  /** Concurrent loading never meets ErrFieldNotConfig exactly when no path lies above another. */
  lemma NeverFailsExactly(root: Ref, calls: seq<Call>)
    requires ValidCalls(calls)
    ensures NeverFails(root, calls) <==> Loadable(calls)
  {
    if Loadable(calls) {
      forall run: seq<State>, i, t | FromEmpty(run, root, calls) && 0 <= i < |run| && 0 <= t < |calls|
        ensures run[i].pcs[t] != Done(false)
      {
        if run[i].pcs[t].Done? { LoadingNeverFails(run, root, calls, i, t); }
      }
    } else {
      var i, j :| 0 <= i < |calls| && 0 <= j < |calls| && StrictlyAbove(calls[i].path, calls[j].path);
      var run := UpperFirstFails(root, calls, i, j);
      assert run[|run| - 1].pcs[j] == Done(false);
    }
  }
}
