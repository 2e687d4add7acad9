/** When a load panics: some schedule does exactly when some selected variable does not
    parse, or one variable's path lies strictly above another's. */
module Panics {
  import opened Text
  import opened Views
  import opened Graphs
  import opened ConcurrentSet
  import opened Linearizable
  import opened Loading
  import opened EnvVars
  import opened Pipeline

  /** Some run leads to s. */
  ghost predicate Reachable(env: Env, calls: seq<Call>, s: Pipe)
  {
    exists run :: PipeRun(env, calls, run) && run[|run| - 1] == s
  }

  ghost predicate PanicFree(env: Env, calls: seq<Call>)
  {
    forall s :: Reachable(env, calls, s) ==> !s.panicked
  }

  lemma ReachableKeeps(env: Env, calls: seq<Call>, s: Pipe)
    requires Reachable(env, calls, s) && !s.panicked
    ensures PipeInv(env, calls, s)
  {
    var run :| PipeRun(env, calls, run) && run[|run| - 1] == s;
    PipeRunKeeps(env, calls, run, |run| - 1);
  }

  // ---------------------------------------------------------------- when nothing can go wrong

  /** With parsable variables and separate paths no step panics. */
  lemma StepIsSafe(env: Env, calls: seq<Call>, s: Pipe, s': Pipe)
    requires PipeInv(env, calls, s) && PipeStep(env, calls, s, s') && Parsable(env) && Loadable(calls)
    ensures !s'.panicked
  {
    if t: nat :| SetterStep(calls, s, s', t) {
      SetterIsSafe(calls, s, s', t);
    } else if ParserStep(env, s, s') {
      ParserIsSafe(env, s, s');
    } else {
      OthersAreSafe(env, s, s');
    }
  }

  lemma SetterIsSafe(calls: seq<Call>, s: Pipe, s': Pipe, t: nat)
    requires Setters(calls, s) && Explained(s.m, ROOT, imap[], calls) && Loadable(calls)
    requires !s.panicked && SetterStep(calls, s, s', t)
    ensures !s'.panicked
  {
    if s.m.pcs[t].Done? { NoneFails(calls, s.m, t); }
  }

  lemma OthersAreSafe(env: Env, s: Pipe, s': Pipe)
    requires !s.panicked && (LoaderStep(env, s, s') || ProducerStep(env, s, s'))
    ensures !s'.panicked
  {
  }

  lemma ParserIsSafe(env: Env, s: Pipe, s': Pipe)
    requires Unreceived(env, s) && !s.panicked && ParserStep(env, s, s') && Parsable(env)
    ensures !s'.panicked
  {
    if s.parser.PReceiving? && s.stream != [] { assert s.stream[0] in Selected(env.environ, env.prefix); }
  }

  lemma SafeRuns(env: Env, calls: seq<Call>, run: seq<Pipe>)
    requires PipeRun(env, calls, run) && Parsable(env) && Loadable(calls)
    ensures !run[|run| - 1].panicked
  {
    var i := |run| - 1;
    if i > 0 {
      var j := i - 1;
      assert PipeStep(env, calls, run[j], run[i]);
      PipeRunKeeps(env, calls, run, j);
      StepIsSafe(env, calls, run[j], run[i]);
    }
  }

  // ---------------------------------------------------------------- when something can

  lemma ReachesNext(env: Env, calls: seq<Call>, s: Pipe, s': Pipe)
    requires Reachable(env, calls, s) && PipeStep(env, calls, s, s')
    ensures Reachable(env, calls, s')
  {
    var run :| PipeRun(env, calls, run) && run[|run| - 1] == s;
    PipeExtends(env, calls, run, s');
    assert (run + [s'])[|run|] == s';
  }

  lemma PipeExtends(env: Env, calls: seq<Call>, run: seq<Pipe>, s: Pipe)
    requires PipeRun(env, calls, run) && PipeStep(env, calls, run[|run| - 1], s)
    ensures PipeRun(env, calls, run + [s])
  {
    var run' := run + [s];
    forall i, j | 0 <= i && j == i + 1 < |run'|
      ensures PipeStep(env, calls, run'[i], run'[j])
    {
      if j < |run| { assert PipeStep(env, calls, run[i], run[j]); }
    }
  }

  lemma ReachesStart(env: Env, calls: seq<Call>, s: Pipe)
    requires PipeInit(env, calls, s)
    ensures Reachable(env, calls, s)
  {
    assert PipeRun(env, calls, [s]) && [s][|[s]| - 1] == s;
  }

  /** Until all setters are spawned one of the other goroutines can step. */
  lemma SpawningMoves(env: Env, calls: seq<Call>, s: Pipe) returns (s': Pipe)
    requires PipeInv(env, calls, s) && s.spawned < |calls|
    ensures LoaderStep(env, s, s') || ProducerStep(env, s, s') || ParserStep(env, s, s')
  {
    if s.loader.CreatesProducer? || s.loader.CreatesParser? || s.loader.Spawning?
       || (s.loader.Receiving? && (s.entries != [] || s.entriesClosed)) {
      s' := LoaderMoves(env, s);
    } else if s.parser.PSending? || s.parser.PClosing? || s.parser.PLastDone?
              || (s.parser.PReceiving? && (s.stream != [] || s.streamClosed)) {
      s' := ParserMoves(env, s);
    } else {
      if s.producer.Exited? { NothingComing(env, s); }
      s' := ProducerMoves(env, s);
    }
  }

  /** The other goroutines can spawn every setter, or panic, before any setter starts. */
  lemma {:induction false} SpawnsAll(env: Env, calls: seq<Call>, s: Pipe) returns (s': Pipe)
    requires Reachable(env, calls, s) && !s.panicked && |s.m.pcs| == |s.exited| == |calls|
    ensures Reachable(env, calls, s') && s'.m == s.m && (s'.panicked || s'.spawned >= |calls|)
    decreases Budget(env, calls, s)
  {
    s' := s;
    if s.spawned < |calls| {
      s' := SpawnsMore(env, calls, s);
      if !s'.panicked { s' := SpawnsAll(env, calls, s'); }
    }
  }

  lemma SpawnsMore(env: Env, calls: seq<Call>, s: Pipe) returns (s': Pipe)
    requires Reachable(env, calls, s) && !s.panicked && s.spawned < |calls|
    ensures Reachable(env, calls, s') && s'.m == s.m && |s.m.pcs| == |s.exited| == |s'.exited| == |calls|
    ensures Budget(env, calls, s') < Budget(env, calls, s)
  {
    ReachableKeeps(env, calls, s);
    s' := SpawningMoves(env, calls, s);
    PipeEnds(env, calls, s, s');
    GoroutineSpends(env, s, s');
    ReachesNext(env, calls, s, s');
  }

  /** Once all setters are spawned, they can follow any run of the set machine. */
  lemma {:induction false} Follows(env: Env, calls: seq<Call>, s: Pipe, sets: seq<State>, k: nat)
    requires Reachable(env, calls, s) && Run(sets, ROOT, calls) && k < |sets|
    requires !s.panicked && s.spawned == |calls| == |s.exited| && s.m == sets[0]
    ensures Reachable(env, calls, s.(m := sets[k]))
  {
    if k > 0 {
      var j := k - 1;
      Follows(env, calls, s, sets, j);
      assert Step(sets[j], sets[k], ROOT, calls);
      var t: nat :| t < |calls| && Next(sets[j], sets[k], ROOT, calls, t);
      assert SetterStep(calls, s.(m := sets[j]), s.(m := sets[k]), t);
      ReachesNext(env, calls, s.(m := sets[j]), s.(m := sets[k]));
    }
  }

  /** No setter has started. */
  ghost predicate Untouched(calls: seq<Call>, m: State)
  {
    && |m.pcs| == |m.before| == |calls| && m.g == map[ROOT := map[]]
    && forall t :: 0 <= t < |calls| ==> m.pcs[t] == Idle && m.before[t] == {}
  }

  /** A load that spawns every setter, or panics, before any of them starts. */
  lemma StartAndSpawn(env: Env, calls: seq<Call>) returns (s: Pipe)
    requires CallsFor(env, calls)
    ensures Reachable(env, calls, s) && Untouched(calls, s.m) && (s.panicked || s.spawned >= |calls|)
  {
    var s0 := StartOf(env, calls);
    ReachesStart(env, calls, s0);
    s := SpawnsAll(env, calls, s0);
  }

  lemma StartOf(env: Env, calls: seq<Call>) returns (s: Pipe)
    requires CallsFor(env, calls)
    ensures PipeInit(env, calls, s)
  {
    var m := State(map[ROOT := map[]], seq(|calls|, _ => Idle), seq(|calls|, _ => {}));
    s := Pipe(NotStarted, PNotStarted, CreatesProducer, 0, [], false, [], false, 0, seq(|calls|, _ => false), m, false);
  }

  /** A variable that does not parse is met on the way to spawning all setters. */
  lemma UnparsablePanics(env: Env, calls: seq<Call>) returns (s: Pipe)
    requires CallsFor(env, calls) && !Parsable(env)
    ensures Reachable(env, calls, s) && s.panicked
  {
    s := StartAndSpawn(env, calls);
    if !s.panicked {
      ReachableKeeps(env, calls, s);
      AllSpawnedParse(env, s);
    }
  }

  lemma AllSpawnedParse(env: Env, s: Pipe)
    requires InOrder(env, s) && Unreceived(env, s) && s.spawned == |AllEntries(env)|
    ensures Parsable(env)
  {
    assert Coming(env, s) == [];
    assert |s.stream| == 0 && |Selected(env.environ[Scanned(env, s.producer)..], env.prefix)| == 0;
  }

  /** A path above another's panics when its call runs first. */
  lemma UnloadablePanics(env: Env, calls: seq<Call>) returns (s: Pipe)
    requires CallsFor(env, calls) && !Loadable(calls)
    ensures Reachable(env, calls, s) && s.panicked
  {
    s := StartAndSpawn(env, calls);
    if !s.panicked {
      ReachableKeeps(env, calls, s);
      CallsAreValid(env, calls);
      var i, j :| 0 <= i < |calls| && 0 <= j < |calls| && StrictlyAbove(calls[i].path, calls[j].path);
      s := FailsThenPanics(env, calls, s, i, j);
    }
  }

  lemma FailsThenPanics(env: Env, calls: seq<Call>, s: Pipe, i: nat, j: nat) returns (s': Pipe)
    requires Reachable(env, calls, s) && ValidCalls(calls)
    requires !s.panicked && s.spawned == |calls| == |s.exited| && Untouched(calls, s.m)
    requires i < |calls| && j < |calls| && StrictlyAbove(calls[i].path, calls[j].path)
    ensures Reachable(env, calls, s') && s'.panicked
  {
    var sets := UpperFirstFails(ROOT, calls, i, j);
    assert s.m.pcs == sets[0].pcs && s.m.before == sets[0].before;
    var last := s.(m := sets[|sets| - 1]);
    Follows(env, calls, s, sets, |sets| - 1);
    s' := last.(panicked := true);
    assert SetterStep(calls, last, s', j);
    ReachesNext(env, calls, last, s');
  }

  /** No schedule of a load panics exactly when every selected variable parses and no path
      lies strictly above another. */
  lemma PanicFreeExactly(env: Env, calls: seq<Call>)
    requires CallsFor(env, calls)
    ensures PanicFree(env, calls) <==> Parsable(env) && Loadable(calls)
  {
    if Parsable(env) && Loadable(calls) {
      forall s | Reachable(env, calls, s)
        ensures !s.panicked
      {
        var run :| PipeRun(env, calls, run) && run[|run| - 1] == s;
        SafeRuns(env, calls, run);
      }
    } else if !Parsable(env) {
      var s := UnparsablePanics(env, calls);
    } else {
      var s := UnloadablePanics(env, calls);
    }
  }
}
