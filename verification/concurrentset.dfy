/** Concurrent calls of Set as a step machine. A goroutine runs one call; the body
    of setRecursive between Lock and Unlock is one step, and the re-read of the child
    after Unlock is another, so other goroutines act in between. */
module ConcurrentSet {
  import opened Text
  import opened Views
  import opened Graphs
  import opened Trees

  type Ref = nat

  /** One call of Set on the root with a plain value. */
  datatype Call = Call(path: Path, leaf: Scalar)

  /** Where a goroutine is; depth counts the components it has consumed. */
  datatype Pc =
    | Idle                              // not started
    | Locking(node: Ref, depth: nat)    // about to run the locked section on node
    | Reread(node: Ref, depth: nat)     // unlocked node, about to read the child again
    | Done(ok: bool)

  /** before[t] records which calls had returned when call t started. */
  datatype State = State(g: Graph<Ref>, pcs: seq<Pc>, before: seq<set<nat>>)

  ghost predicate ValidCalls(calls: seq<Call>)
  {
    forall t :: 0 <= t < |calls| ==> calls[t].path != []
  }

  ghost function Returned(s: State): set<nat>
  {
    set t | 0 <= t < |s.pcs| && s.pcs[t].Done?
  }

  ghost predicate InFlight(pc: Pc) { pc.Locking? || pc.Reread? }

  ghost function Put1(g: Graph<Ref>, c: Ref, k: string, v: Value<Ref>): Graph<Ref>
    requires c in g
  {
    g[c := g[c][k := v]]
  }

  ghost predicate Starts(s: State, s': State, root: Ref, t: nat)
    requires t < |s.pcs| == |s.before|
  {
    && s.pcs[t].Idle?
    && s' == State(s.g, s.pcs[t := Locking(root, 0)], s.before[t := Returned(s)])
  }

  /** The locked section stores the value when this is the last component, and
      otherwise makes sure that something is stored under the component. */
  ghost predicate Locks(s: State, s': State, calls: seq<Call>, t: nat)
    requires t < |s.pcs| == |calls|
  {
    && s.pcs[t].Locking? && s.pcs[t].node in s.g && s.pcs[t].depth < |calls[t].path|
    && var c, d, p := s.pcs[t].node, s.pcs[t].depth, calls[t].path;
       if d + 1 == |p| then
         s' == s.(g := Put1(s.g, c, p[d], Leaf(calls[t].leaf)), pcs := s.pcs[t := Done(true)])
       else if p[d] in s.g[c] then
         s' == s.(pcs := s.pcs[t := Reread(c, d)])
       else
         && s'.pcs == s.pcs[t := Reread(c, d)] && s'.before == s.before
         && exists n: Ref :: n !in s.g && s'.g == Put1(s.g, c, p[d], Sub(n))[n := map[]]
  }

  /** The re-read enters the child, or fails when a plain value is stored there. */
  ghost predicate Rereads(s: State, s': State, calls: seq<Call>, t: nat)
    requires t < |s.pcs| == |calls|
  {
    && s.pcs[t].Reread? && s.pcs[t].node in s.g && s.pcs[t].depth < |calls[t].path|
    && var c, d, p := s.pcs[t].node, s.pcs[t].depth, calls[t].path;
       && p[d] in s.g[c]
       && match s.g[c][p[d]]
          case Leaf(_) => s' == s.(pcs := s.pcs[t := Done(false)])
          case Sub(e) => s' == s.(pcs := s.pcs[t := Locking(e, d + 1)])
  }

  ghost predicate Next(s: State, s': State, root: Ref, calls: seq<Call>, t: nat)
    requires t < |s.pcs| == |s.before| == |calls|
  {
    Starts(s, s', root, t) || Locks(s, s', calls, t) || Rereads(s, s', calls, t)
  }

  ghost predicate Step(s: State, s': State, root: Ref, calls: seq<Call>)
    requires |s.pcs| == |s.before| == |calls|
  {
    exists t: nat :: t < |calls| && Next(s, s', root, calls, t)
  }

  ghost predicate Init(s: State, root: Ref, calls: seq<Call>)
  {
    && |s.pcs| == |s.before| == |calls|
    && (forall t :: 0 <= t < |calls| ==> s.pcs[t] == Idle && s.before[t] == {})
    && exists addr :: Unshared(s.g, root, addr)
  }

  /** A run of the machine: any interleaving of the goroutines' steps. */
  ghost predicate Run(run: seq<State>, root: Ref, calls: seq<Call>)
  {
    && run != [] && Init(run[0], root, calls)
    && (forall i :: 0 <= i < |run| ==> |run[i].pcs| == |run[i].before| == |calls|)
    && forall i, j :: 0 <= i && j == i + 1 < |run| ==> Step(run[i], run[j], root, calls)
  }

  /** A run goes on with any step from its last state. */
  lemma RunExtends(run: seq<State>, m: State, root: Ref, calls: seq<Call>) returns (run': seq<State>)
    requires Run(run, root, calls) && Step(run[|run| - 1], m, root, calls) && |m.pcs| == |m.before| == |calls|
    ensures Run(run', root, calls) && run'[0] == run[0] && run'[|run'| - 1] == m
  {
    run' := run + [m];
    forall i, j | 0 <= i && j == i + 1 < |run'|
      ensures Step(run'[i], run'[j], root, calls)
    {
      if j < |run| { assert Step(run[i], run[j], root, calls); }
    }
  }

  /** The sequential execution of the calls named by log, in that order. */
  ghost function Serial(t0: View, calls: seq<Call>, log: seq<nat>): View
    requires ValidCalls(calls) && forall j :: 0 <= j < |log| ==> log[j] < |calls|
  {
    if log == [] then t0
    else
      var call := calls[log[|log| - 1]];
      Apply(Serial(t0, calls, log[..|log| - 1]), call.path, PutLeaf(call.leaf))
  }

  /** log orders exactly the returned calls: executed one after the other they give
      the recorded results, and a call that returned before another started comes first. */
  ghost predicate Linearization(s: State, t0: View, calls: seq<Call>, log: seq<nat>)
  {
    && ValidCalls(calls) && |s.pcs| == |s.before| == |calls|
    && (forall j :: 0 <= j < |log| ==> log[j] < |calls| && s.pcs[log[j]].Done?)
    && (forall t :: 0 <= t < |calls| && s.pcs[t].Done? ==> t in log)
    && (forall i, j :: 0 <= i < j < |log| ==> log[i] != log[j])
    && (forall j :: 0 <= j < |log| ==>
         (s.pcs[log[j]].ok <==> !Blocked(Serial(t0, calls, log[..j]), calls[log[j]].path)))
    && (forall i, j :: 0 <= i < |log| && 0 <= j < |log| && log[i] in s.before[log[j]] ==> i < j)
  }

  // ---------------------------------------------------------------- progress

  /** Steps a goroutine still has to take. */
  ghost function Remaining(pc: Pc, call: Call): nat
  {
    match pc
    case Idle => 2 * |call.path| + 1
    case Locking(_, d) => if d < |call.path| then 2 * (|call.path| - d) else 0
    case Reread(_, d) => if d < |call.path| then 2 * (|call.path| - d) - 1 else 0
    case Done(_) => 0
  }

  lemma LockNeverBlocks(s: State, calls: seq<Call>, t: nat) returns (s': State)
    requires t < |s.pcs| == |s.before| == |calls|
    requires s.pcs[t].Locking? && s.pcs[t].node in s.g && s.pcs[t].depth < |calls[t].path|
    ensures Locks(s, s', calls, t)
  {
    var c, d, p := s.pcs[t].node, s.pcs[t].depth, calls[t].path;
    if d + 1 == |p| {
      s' := s.(g := Put1(s.g, c, p[d], Leaf(calls[t].leaf)), pcs := s.pcs[t := Done(true)]);
    } else if p[d] in s.g[c] {
      s' := s.(pcs := s.pcs[t := Reread(c, d)]);
    } else {
      var n := Unallocated(s.g);
      s' := State(Put1(s.g, c, p[d], Sub(n))[n := map[]], s.pcs[t := Reread(c, d)], s.before);
    }
  }

  lemma Unallocated(g: Graph<Ref>) returns (n: Ref)
    ensures n !in g
  {
    n := Bound(g.Keys);
  }

  lemma {:induction false} Bound(s: set<Ref>) returns (n: Ref)
    ensures forall m :: m in s ==> m < n
  {
    if s == {} {
      n := 0;
    } else {
      var x :| x in s;
      n := Bound(s - {x});
      if n <= x { n := x + 1; }
      assert forall m :: m in s ==> m == x || m in s - {x};
    }
  }

  /** Every step of a call brings it closer to its return and moves no other call. */
  lemma SetStepsShrink(s: State, s': State, root: Ref, calls: seq<Call>, t: nat)
    requires t < |s.pcs| == |s.before| == |calls| && calls[t].path != [] && Next(s, s', root, calls, t)
    ensures |s'.pcs| == |s.pcs| && Remaining(s'.pcs[t], calls[t]) < Remaining(s.pcs[t], calls[t])
    ensures forall u :: 0 <= u < |s.pcs| && u != t ==> s'.pcs[u] == s.pcs[u]
  {
  }
}
