/** What a load leaves behind, told on the text of the environment: which value stands at
    which path of the configuration. */
module LoadedValues {
  import opened Text
  import opened Views
  import opened Graphs
  import opened ConcurrentSet
  import opened Linearizable
  import opened EnvVars
  import opened Pipeline

  /** A whole load of env that ends in s: some run with the setters it needs. */
  ghost predicate LoadEnds(env: Env, s: Pipe)
  {
    && s.loader.Finished? && !s.panicked
    && exists calls, run :: PipeRun(env, calls, run) && run[|run| - 1] == s
  }

  /** The path at which the j-th entry of the environment is stored. */
  ghost function PathOfEntry(env: Env, j: nat): Path
    requires j < |env.environ|
  {
    EntryPath(EntryOf(env, Emitted(env.environ[j], env.prefix)))
  }

  /** No other selected entry is stored at, above or below p. */
  ghost predicate Alone(env: Env, i: nat, p: Path)
  {
    forall j :: 0 <= j < |env.environ| && j != i && Keeps(env.environ[j], env.prefix) ==> Incomparable(PathOfEntry(env, j), p)
  }

  // ---------------------------------------------------------------- which call belongs to which entry

  lemma {:induction false} SelectedConcat(a: seq<string>, b: seq<string>, prefix: string)
    ensures Selected(a + b, prefix) == Selected(a, prefix) + Selected(b, prefix)
  {
    if a == [] {
      assert a + b == b;
    } else {
      assert (a + b)[1..] == a[1..] + b;
      SelectedConcat(a[1..], b, prefix);
    }
  }

  /** The place of entry i among the selected ones. */
  function Place(environ: seq<string>, prefix: string, i: nat): nat
    requires i <= |environ|
  {
    |Selected(environ[..i], prefix)|
  }

  lemma PlaceHolds(environ: seq<string>, prefix: string, i: nat)
    requires i < |environ| && Keeps(environ[i], prefix)
    ensures Place(environ, prefix, i) < |Selected(environ, prefix)|
    ensures Selected(environ, prefix)[Place(environ, prefix, i)] == Emitted(environ[i], prefix)
  {
    assert environ == environ[..i] + environ[i..];
    SelectedConcat(environ[..i], environ[i..], prefix);
    SelectedSnoc(environ, prefix, i);
  }

  lemma {:induction false} EntryAt(environ: seq<string>, prefix: string, n: nat, u: nat) returns (j: nat)
    requires n <= |environ| && u < Place(environ, prefix, n)
    ensures j < n && Keeps(environ[j], prefix) && Place(environ, prefix, j) == u
  {
    var m := n - 1;
    assert environ[..n] == environ[..m] + [environ[m]];
    SelectedConcat(environ[..m], [environ[m]], prefix);
    assert [environ[m]][1..] == [];
    if u < Place(environ, prefix, m) {
      j := EntryAt(environ, prefix, m, u);
    } else {
      j := m;
    }
  }

  // ---------------------------------------------------------------- what a serial order leaves

  ghost predicate Succeeds(t0: View, calls: seq<Call>, log: seq<nat>)
  {
    && ValidCalls(calls) && (forall j :: 0 <= j < |log| ==> log[j] < |calls|)
    && forall j :: 0 <= j < |log| ==> !Blocked(Serial(t0, calls, log[..j]), calls[log[j]].path)
  }

  /** A value stays where it was written when no other call comes near. */
  lemma {:induction false} SerialKeepsValue(calls: seq<Call>, log: seq<nat>, t: nat, n: nat)
    requires Succeeds(imap[], calls, log) && n <= |log| && t < |calls|
    requires forall u :: 0 <= u < |calls| && u != t ==> Incomparable(calls[u].path, calls[t].path)
    ensures t in log[..n] ==> At(Serial(imap[], calls, log[..n]), calls[t].path) == Some(LeafK(calls[t].leaf))
  {
    if n > 0 {
      var m := n - 1;
      SerialKeepsValue(calls, log, t, m);
      SerialNext(calls, log, m);
      LastOrBefore(log, m, t);
      ApplyKeepsValue(Serial(imap[], calls, log[..m]), calls[log[m]], calls[t]);
    }
  }

  lemma SerialNext(calls: seq<Call>, log: seq<nat>, m: nat)
    requires ValidCalls(calls) && (forall j :: 0 <= j < |log| ==> log[j] < |calls|) && m < |log|
    ensures Serial(imap[], calls, log[..m + 1])
         == Apply(Serial(imap[], calls, log[..m]), calls[log[m]].path, PutLeaf(calls[log[m]].leaf))
  {
    assert log[..m + 1][..m] == log[..m];
  }

  lemma LastOrBefore(log: seq<nat>, m: nat, t: nat)
    requires m < |log|
    ensures t in log[..m + 1] <==> t in log[..m] || t == log[m]
  {
    assert log[..m + 1] == log[..m] + [log[m]];
  }

  lemma ApplyKeepsValue(t: View, call: Call, own: Call)
    requires call.path != [] && !Blocked(t, call.path)
    ensures call == own ==> At(Apply(t, call.path, PutLeaf(call.leaf)), own.path) == Some(LeafK(own.leaf))
    ensures Incomparable(call.path, own.path) ==> At(Apply(t, call.path, PutLeaf(call.leaf)), own.path) == At(t, own.path)
  {
    assert SetView(t, call.path, PutLeaf(call.leaf)) == Apply(t, call.path, PutLeaf(call.leaf));
  }

  // ---------------------------------------------------------------- the value that is read

  /** The root reads the entry's value at the entry's path. */
  lemma EntryIsRead(env: Env, s: Pipe, i: nat)
    requires LoadEnds(env, s) && i < |env.environ| && Keeps(env.environ[i], env.prefix)
    requires Alone(env, i, PathOfEntry(env, i))
    ensures ParseEnvVar(Emitted(env.environ[i], env.prefix), env.files).Some?
    ensures Closed(s.m.g) && ROOT in s.m.g
    ensures Lookup(s.m.g, ROOT, PathOfEntry(env, i)) == Some(Leaf(Str(EntryOf(env, Emitted(env.environ[i], env.prefix)).value)))
  {
    var calls, run :| PipeRun(env, calls, run) && run[|run| - 1] == s;
    ClosesAfterLoading(env, calls, run);
    var t := Place(env.environ, env.prefix, i);
    PlaceHolds(env.environ, env.prefix, i);
    assert Selected(env.environ, env.prefix)[t] in Selected(env.environ, env.prefix);
    assert CallsFor(env, calls);
    assert calls[t] == CallOf(EntryOf(env, Emitted(env.environ[i], env.prefix)));
    OthersAside(env, calls, i);
    CallIsRead(s.m, calls, t);
  }

  lemma OthersAside(env: Env, calls: seq<Call>, i: nat)
    requires CallsFor(env, calls) && i < |env.environ| && Keeps(env.environ[i], env.prefix) && Alone(env, i, PathOfEntry(env, i))
    ensures var t := Place(env.environ, env.prefix, i);
            forall u :: 0 <= u < |calls| && u != t ==> Incomparable(calls[u].path, PathOfEntry(env, i))
  {
    var t := Place(env.environ, env.prefix, i);
    forall u | 0 <= u < |calls| && u != t
      ensures Incomparable(calls[u].path, PathOfEntry(env, i))
    {
      assert env.environ[..|env.environ|] == env.environ;
      var j := EntryAt(env.environ, env.prefix, |env.environ|, u);
      PlaceHolds(env.environ, env.prefix, j);
      assert calls[u] == CallOf(EntryOf(env, Emitted(env.environ[j], env.prefix)));
    }
  }

  lemma CallIsRead(m: State, calls: seq<Call>, t: nat)
    requires |m.pcs| == |calls| && t < |calls| && forall u :: 0 <= u < |calls| ==> m.pcs[u] == Done(true)
    requires exists log :: Explains(m, ROOT, imap[], calls, log)
    requires forall u :: 0 <= u < |calls| && u != t ==> Incomparable(calls[u].path, calls[t].path)
    ensures Closed(m.g) && ROOT in m.g && Lookup(m.g, ROOT, calls[t].path) == Some(Leaf(calls[t].leaf))
  {
    var log :| Explains(m, ROOT, imap[], calls, log);
    SerialKeepsValue(calls, log, t, |log|);
    assert log[..|log|] == log && t in log;
    assert At(Serial(imap[], calls, log), calls[t].path) == Some(LeafK(calls[t].leaf));
    assert calls[t].path != [];
  }

  /** Loading stores what the environment says: after a load without a panic, a variable
      PREFIX_A_B=v that nothing else comes near reads as the text v at a.b. */
  lemma VariableIsLoaded(env: Env, s: Pipe, i: nat, components: seq<string>, v: string)
    requires LoadEnds(env, s) && '_' !in env.prefix && '=' !in env.prefix && i < |env.environ|
    requires components != [] && AllFree(components, '_') && AllFree(components, '=') && AllFree(components, '.')
    requires !exists n :: Join(components, '_') == n + "_FILE"
    requires env.environ[i] == env.prefix + "_" + Join(components, '_') + "=" + v
    requires Alone(env, i, LowerAll(components))
    ensures Closed(s.m.g) && ROOT in s.m.g
    ensures Lookup(s.m.g, ROOT, LowerAll(components)) == Some(Leaf(Str(v)))
    ensures LowerAll(components) in ViewOf(s.m.g, ROOT) && ViewOf(s.m.g, ROOT)[LowerAll(components)] == LeafK(Str(v))
  {
    FourParts(env.prefix + "_", Join(components, '_'), "=", v);
    Emits(env, i, Join(components, '_') + "=" + v);
    VariableRoundTrip(components, v, env.files);
    EntryIsRead(env, s, i);
    ViewReads(s.m.g, LowerAll(components), Str(v));
  }

  /** A variable PREFIX_A_B_FILE=f reads as the contents of f. */
  lemma FileVariableIsLoaded(env: Env, s: Pipe, i: nat, components: seq<string>, f: string)
    requires LoadEnds(env, s) && '_' !in env.prefix && '=' !in env.prefix && i < |env.environ|
    requires components != [] && AllFree(components, '_') && AllFree(components, '=') && AllFree(components, '.')
    requires env.environ[i] == env.prefix + "_" + Join(components, '_') + "_FILE=" + f
    requires f in env.files ==> Alone(env, i, LowerAll(components))
    ensures f in env.files && Closed(s.m.g) && ROOT in s.m.g
    ensures Lookup(s.m.g, ROOT, LowerAll(components)) == Some(Leaf(Str(env.files[f])))
    ensures LowerAll(components) in ViewOf(s.m.g, ROOT) && ViewOf(s.m.g, ROOT)[LowerAll(components)] == LeafK(Str(env.files[f]))
  {
    FourParts(env.prefix + "_", Join(components, '_'), "_FILE=", f);
    Emits(env, i, Join(components, '_') + "_FILE=" + f);
    FileVariableRoundTrip(components, f, env.files);
    SelectedParses(env, s, i);
    EntryIsRead(env, s, i);
    ViewReads(s.m.g, LowerAll(components), Str(env.files[f]));
  }

  lemma FourParts(a: string, b: string, c: string, d: string)
    ensures a + b + c + d == a + (b + c + d)
  {
  }

  lemma ViewReads(g: Graph<Ref>, p: Path, v: Scalar)
    requires Closed(g) && ROOT in g && p != [] && Lookup(g, ROOT, p) == Some(Leaf(v))
    ensures p in ViewOf(g, ROOT) && ViewOf(g, ROOT)[p] == LeafK(v)
  {
  }

  lemma SelectedParses(env: Env, s: Pipe, i: nat)
    requires LoadEnds(env, s) && i < |env.environ| && Keeps(env.environ[i], env.prefix)
    ensures ParseEnvVar(Emitted(env.environ[i], env.prefix), env.files).Some?
  {
    var calls, run :| PipeRun(env, calls, run) && run[|run| - 1] == s;
    ClosesAfterLoading(env, calls, run);
    PlaceHolds(env.environ, env.prefix, i);
    assert Selected(env.environ, env.prefix)[Place(env.environ, env.prefix, i)] in Selected(env.environ, env.prefix);
  }

  lemma Emits(env: Env, i: nat, rest: string)
    requires '_' !in env.prefix && '=' !in env.prefix && i < |env.environ| && '=' in rest
    requires env.environ[i] == env.prefix + "_" + rest
    ensures Keeps(env.environ[i], env.prefix) && Emitted(env.environ[i], env.prefix) == rest
  {
    var whole := env.environ[i];
    assert whole[..|env.prefix + "_"|] == env.prefix + "_" && whole[|env.prefix + "_"|..] == rest;
    assert '=' in whole;
    KeepsIsPrefixTest(whole, env.prefix);
  }
}
