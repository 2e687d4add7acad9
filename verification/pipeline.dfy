/** loadVarsFromEnv: a producer, a parser and the setters, connected by channels and
    counted by a wait group. Every interleaving is allowed. */
module Pipeline {
  import opened Text
  import opened Views
  import opened Graphs
  import opened ConcurrentSet
  import opened Linearize
  import opened Linearizable
  import opened Loading
  import opened EnvVars
  import opened Sums
  import Trees

  /** The environment and the readable files, stable while loading. */
  datatype Env = Env(environ: seq<string>, prefix: string, files: map<string, string>)

  /** getVarStream's goroutine. The deferred calls run last to first: one Done per
      variable, then the close, then the goroutine's own Done. */
  datatype Producer = NotStarted | Adding | Scanning(next: nat) | Unwinding(left: nat) | LastDone | Exited

  /** parseVarStream's goroutine. */
  datatype Parser = PNotStarted | PReceiving | PSending(e: ConfigEntry) | PClosing | PLastDone | PExited

  /** loadVarsFromEnv itself. */
  datatype Loader = CreatesProducer | CreatesParser | Receiving | Spawning(e: ConfigEntry) | Waiting | Finished

  datatype Pipe = Pipe(
    producer: Producer, parser: Parser, loader: Loader,
    wg: int,
    stream: seq<string>, streamClosed: bool,
    entries: seq<ConfigEntry>, entriesClosed: bool,
    spawned: nat, exited: seq<bool>,
    m: State,
    panicked: bool)

  const ROOT: Ref := 0

  ghost predicate LoaderStep(env: Env, s: Pipe, s': Pipe)
  {
    match s.loader
    case CreatesProducer => s' == s.(wg := s.wg + 1, producer := Adding, loader := CreatesParser)
    case CreatesParser => s' == s.(wg := s.wg + 1, parser := PReceiving, loader := Receiving)
    case Receiving =>
      if s.entries != [] then s' == s.(entries := s.entries[1..], loader := Spawning(s.entries[0]))
      else s.entriesClosed && s' == s.(loader := Waiting)
    case Spawning(_) => s' == s.(wg := s.wg + 1, spawned := s.spawned + 1, loader := Receiving)
    case Waiting => s.wg == 0 && s' == s.(loader := Finished)
    case Finished => false
  }

  /** The stream's buffer has room for the whole environment. */
  ghost predicate ProducerStep(env: Env, s: Pipe, s': Pipe)
  {
    match s.producer
    case Adding => s' == s.(wg := s.wg + |env.environ|, producer := Scanning(0))
    case Scanning(i) =>
      if i >= |env.environ| then s' == s.(producer := Unwinding(|env.environ|))
      else if Keeps(env.environ[i], env.prefix) then
        |s.stream| < |env.environ|
        && s' == s.(stream := s.stream + [Emitted(env.environ[i], env.prefix)], producer := Scanning(i + 1))
      else s' == s.(producer := Scanning(i + 1))
    case Unwinding(left) =>
      if left > 0 then s' == s.(wg := s.wg - 1, producer := Unwinding(left - 1))
      else s' == s.(streamClosed := true, producer := LastDone)
    case LastDone => s' == s.(wg := s.wg - 1, producer := Exited)
    case _ => false
  }

  /** The entries channel has room for one. */
  ghost predicate ParserStep(env: Env, s: Pipe, s': Pipe)
  {
    match s.parser
    case PReceiving =>
      if s.stream != [] then
        s' == match ParseEnvVar(s.stream[0], env.files)
              case Some(e) => s.(stream := s.stream[1..], parser := PSending(e))
              case None => s.(stream := s.stream[1..], panicked := true)
      else s.streamClosed && s' == s.(parser := PClosing)
    case PSending(e) => s.entries == [] && s' == s.(entries := [e], parser := PReceiving)
    case PClosing => s' == s.(entriesClosed := true, parser := PLastDone)
    case PLastDone => s' == s.(wg := s.wg - 1, parser := PExited)
    case _ => false
  }

  /** A setter works on its call of Set, panics when that fails, and counts down at the end. */
  ghost predicate SetterStep(calls: seq<Call>, s: Pipe, s': Pipe, t: nat)
    requires |s.m.pcs| == |s.m.before| == |s.exited| == |calls|
  {
    && t < s.spawned && t < |calls|
    && match s.m.pcs[t]
       case Done(true) => !s.exited[t] && s' == s.(wg := s.wg - 1, exited := s.exited[t := true])
       case Done(false) => s' == s.(panicked := true)
       case _ => s' == s.(m := s'.m) && Next(s.m, s'.m, ROOT, calls, t)
  }

  ghost predicate SomeSetterStep(calls: seq<Call>, s: Pipe, s': Pipe)
    requires |s.m.pcs| == |s.m.before| == |s.exited| == |calls|
  {
    exists t: nat :: SetterStep(calls, s, s', t)
  }

  ghost predicate PipeStep(env: Env, calls: seq<Call>, s: Pipe, s': Pipe)
  {
    && |s.m.pcs| == |s.m.before| == |s.exited| == |calls| && !s.panicked
    && (LoaderStep(env, s, s') || ProducerStep(env, s, s') || ParserStep(env, s, s') || SomeSetterStep(calls, s, s'))
  }

  // ---------------------------------------------------------------- what is loaded

  ghost function EntryOf(env: Env, v: string): ConfigEntry
  {
    match ParseEnvVar(v, env.files) case Some(e) => e case None => ConfigEntry([], "")
  }

  ghost function ParseAll(env: Env, vs: seq<string>): (es: seq<ConfigEntry>)
    ensures |es| == |vs|
    ensures forall i :: 0 <= i < |vs| ==> es[i] == EntryOf(env, vs[i])
  {
    if vs == [] then [] else [EntryOf(env, vs[0])] + ParseAll(env, vs[1..])
  }

  /** The selected variables' entries, in the order of the environment. */
  ghost function AllEntries(env: Env): seq<ConfigEntry>
  {
    ParseAll(env, Selected(env.environ, env.prefix))
  }

  ghost function CallOf(e: ConfigEntry): Call
  {
    Call(EntryPath(e), Str(e.value))
  }

  /** One call of Set per selected variable. */
  ghost predicate CallsFor(env: Env, calls: seq<Call>)
  {
    && |calls| == |AllEntries(env)|
    && forall t :: 0 <= t < |calls| ==> calls[t] == CallOf(AllEntries(env)[t])
  }

  /** Every selected variable parses: it has an '=', and its file, if it names one, opens. */
  ghost predicate Parsable(env: Env)
  {
    forall v :: v in Selected(env.environ, env.prefix) ==> ParseEnvVar(v, env.files).Some?
  }

  ghost predicate PipeInit(env: Env, calls: seq<Call>, s: Pipe)
  {
    && CallsFor(env, calls)
    && s.producer == NotStarted && s.parser == PNotStarted && s.loader == CreatesProducer && s.wg == 0
    && s.stream == [] && !s.streamClosed && s.entries == [] && !s.entriesClosed
    && s.spawned == 0 && !s.panicked
    && |s.exited| == |calls| && (forall t :: 0 <= t < |calls| ==> !s.exited[t])
    && |s.m.pcs| == |s.m.before| == |calls|
    && (forall t :: 0 <= t < |calls| ==> s.m.pcs[t] == Idle && s.m.before[t] == {})
    && s.m.g == map[ROOT := map[]]
  }

  // ---------------------------------------------------------------- the invariant

  ghost function ProducerOwes(env: Env, p: Producer): int
  {
    match p
    case NotStarted => 0
    case Adding => 1
    case Scanning(_) => 1 + |env.environ|
    case Unwinding(left) => 1 + left
    case LastDone => 1
    case Exited => 0
  }

  ghost function ParserOwes(p: Parser): int
  {
    if p.PNotStarted? || p.PExited? then 0 else 1
  }

  /** Spawned setters that have not counted down yet. */
  ghost function Running(exited: seq<bool>, n: nat): nat
    requires n <= |exited|
  {
    if n == 0 then 0 else Running(exited, n - 1) + if exited[n - 1] then 0 else 1
  }

  ghost function Scanned(env: Env, p: Producer): nat
  {
    match p
    case NotStarted => 0
    case Adding => 0
    case Scanning(i) => i
    case _ => |env.environ|
  }

  ghost function LoaderHand(l: Loader): seq<ConfigEntry> { if l.Spawning? then [l.e] else [] }

  ghost function ParserHand(p: Parser): seq<ConfigEntry> { if p.PSending? then [p.e] else [] }

  /** The entries of the variables that have not been scanned yet. */
  ghost function Rest(env: Env, p: Producer): seq<ConfigEntry>
    requires Scanned(env, p) <= |env.environ|
  {
    ParseAll(env, Selected(env.environ[Scanned(env, p)..], env.prefix))
  }

  /** The entries still to come, in order. */
  ghost function Coming(env: Env, s: Pipe): seq<ConfigEntry>
    requires Scanned(env, s.producer) <= |env.environ|
  {
    Line(LoaderHand(s.loader), s.entries, ParserHand(s.parser), ParseAll(env, s.stream), Rest(env, s.producer))
  }

  ghost function Line(a: seq<ConfigEntry>, b: seq<ConfigEntry>, c: seq<ConfigEntry>, d: seq<ConfigEntry>, e: seq<ConfigEntry>): seq<ConfigEntry>
  {
    a + (b + (c + (d + e)))
  }

  /** Moving the first entry of one place to the end of the place before it. */
  lemma LineMoves(a: seq<ConfigEntry>, b: seq<ConfigEntry>, c: seq<ConfigEntry>, d: seq<ConfigEntry>, e: seq<ConfigEntry>, x: ConfigEntry)
    ensures Line([x], b, c, d, e) == [x] + Line([], b, c, d, e)
    ensures Line([], [x] + b, c, d, e) == Line([x], b, c, d, e)
    ensures Line(a, [], [x] + c, d, e) == Line(a, [x], c, d, e)
    ensures Line(a, b, [], [x] + d, e) == Line(a, b, [x], d, e)
  {
  }

  lemma LineScans(a: seq<ConfigEntry>, b: seq<ConfigEntry>, c: seq<ConfigEntry>, d: seq<ConfigEntry>, e: seq<ConfigEntry>, x: ConfigEntry)
    ensures Line(a, b, c, d, [x] + e) == Line(a, b, c, d + [x], e)
  {
    assert d + ([x] + e) == d + [x] + e;
  }

  /** What the loader has not spawned yet sits, in order, in its hand, the entries
      channel, the parser's hand, the stream, and the rest of the environment. */
  ghost predicate InOrder(env: Env, s: Pipe)
  {
    && Scanned(env, s.producer) <= |env.environ| && s.spawned <= |AllEntries(env)|
    && AllEntries(env)[s.spawned..] == Coming(env, s)
    && |s.stream| <= Scanned(env, s.producer)
  }

  /** The stream carries selected variables, and one that does not parse is still to be received. */
  ghost predicate Unreceived(env: Env, s: Pipe)
  {
    && Scanned(env, s.producer) <= |env.environ|
    && (forall v :: v in s.stream ==> v in Selected(env.environ, env.prefix))
    && (forall v :: v in Selected(env.environ, env.prefix) && ParseEnvVar(v, env.files).None? ==>
         v in s.stream || v in Selected(env.environ[Scanned(env, s.producer)..], env.prefix))
  }

  /** Channels close only after their last send, and the loader waits only after that. */
  ghost predicate Closings(env: Env, s: Pipe)
  {
    && (s.loader.CreatesProducer? <==> s.producer.NotStarted?)
    && (s.loader.CreatesProducer? || s.loader.CreatesParser? <==> s.parser.PNotStarted?)
    && (s.streamClosed <==> s.producer.LastDone? || s.producer.Exited?)
    && (s.entriesClosed <==> s.parser.PLastDone? || s.parser.PExited?)
    && (s.parser.PClosing? || s.parser.PLastDone? || s.parser.PExited? ==> s.streamClosed && s.stream == [])
    && (s.loader.Waiting? || s.loader.Finished? ==> s.entriesClosed && s.entries == [])
    && (s.parser.PNotStarted? ==> s.entries == [] && s.spawned == 0)
    && |s.entries| <= 1
  }

  ghost predicate Counted(env: Env, s: Pipe)
  {
    && s.spawned <= |s.exited|
    && s.wg == ProducerOwes(env, s.producer) + ParserOwes(s.parser) + Running(s.exited, s.spawned)
    && (s.loader.Finished? ==> s.wg == 0)
  }

  ghost predicate Setters(calls: seq<Call>, s: Pipe)
  {
    && |s.m.pcs| == |s.m.before| == |s.exited| == |calls| && s.spawned <= |calls|
    && (forall t :: s.spawned <= t < |calls| ==> s.m.pcs[t] == Idle && !s.exited[t])
    && (forall t :: 0 <= t < |calls| && s.exited[t] ==> s.m.pcs[t] == Done(true))
  }

  lemma ParseAllConcat(env: Env, a: seq<string>, b: seq<string>)
    ensures ParseAll(env, a + b) == ParseAll(env, a) + ParseAll(env, b)
  {
    var x, y := ParseAll(env, a + b), ParseAll(env, a) + ParseAll(env, b);
    forall i | 0 <= i < |x|
      ensures x[i] == y[i]
    {
      assert (a + b)[i] == if i < |a| then a[i] else b[i - |a|];
    }
  }

  lemma ParseAllHead(env: Env, vs: seq<string>)
    requires vs != []
    ensures ParseAll(env, vs) == [EntryOf(env, vs[0])] + ParseAll(env, vs[1..])
    ensures ParseAll(env, [vs[0]]) == [EntryOf(env, vs[0])]
  {
  }

  lemma {:induction false} ScannedIsSelected(env: Env, i: nat)
    requires i < |env.environ| && Keeps(env.environ[i], env.prefix)
    ensures Emitted(env.environ[i], env.prefix) in Selected(env.environ, env.prefix)
  {
    SelectedFrom(env.environ, env.prefix, i);
    SelectedSnoc(env.environ, env.prefix, i);
  }

  lemma {:induction false} SelectedFrom(environ: seq<string>, prefix: string, i: nat)
    requires i <= |environ|
    ensures forall v :: v in Selected(environ[i..], prefix) ==> v in Selected(environ, prefix)
  {
    if i == 0 {
      assert environ[0..] == environ;
    } else {
      SelectedFrom(environ, prefix, i - 1);
      SelectedSnoc(environ, prefix, i - 1);
    }
  }

  // Each step that moves an entry keeps the order of what is still to come.

  lemma ReceiveOrder(env: Env, s: Pipe)
    requires InOrder(env, s) && s.loader.Receiving? && s.entries != []
    ensures InOrder(env, s.(entries := s.entries[1..], loader := Spawning(s.entries[0])))
  {
    LineMoves([], s.entries[1..], ParserHand(s.parser), ParseAll(env, s.stream),
              Rest(env, s.producer), s.entries[0]);
    assert s.entries == [s.entries[0]] + s.entries[1..];
  }

  lemma SpawnOrder(env: Env, s: Pipe)
    requires InOrder(env, s) && s.loader.Spawning?
    ensures s.spawned < |AllEntries(env)| && s.loader.e == AllEntries(env)[s.spawned]
    ensures InOrder(env, s.(wg := s.wg + 1, spawned := s.spawned + 1, loader := Receiving))
  {
    var all := AllEntries(env);
    LineMoves([], s.entries, ParserHand(s.parser), ParseAll(env, s.stream),
              Rest(env, s.producer), s.loader.e);
    assert all[s.spawned..][0] == s.loader.e;
    assert all[s.spawned + 1..] == all[s.spawned..][1..];
  }

  lemma ScanOrder(env: Env, s: Pipe)
    requires InOrder(env, s) && s.producer.Scanning? && s.producer.next < |env.environ|
    requires Keeps(env.environ[s.producer.next], env.prefix)
    ensures var i := s.producer.next;
            InOrder(env, s.(stream := s.stream + [Emitted(env.environ[i], env.prefix)], producer := Scanning(i + 1)))
  {
    var i := s.producer.next;
    var v := Emitted(env.environ[i], env.prefix);
    RestScans(env, i);
    ParseAllSnoc(env, s.stream, v);
    LineScans(LoaderHand(s.loader), s.entries, ParserHand(s.parser), ParseAll(env, s.stream), Rest(env, Scanning(i + 1)), EntryOf(env, v));
    OrderIs(env, s, s.(stream := s.stream + [v], producer := Scanning(i + 1)));
  }

  lemma ParseAllSnoc(env: Env, vs: seq<string>, v: string)
    ensures ParseAll(env, vs + [v]) == ParseAll(env, vs) + [EntryOf(env, v)]
  {
    ParseAllConcat(env, vs, [v]);
    ParseAllHead(env, [v]);
  }

  lemma RestScans(env: Env, i: nat)
    requires i < |env.environ|
    ensures Keeps(env.environ[i], env.prefix) ==>
              Rest(env, Scanning(i)) == [EntryOf(env, Emitted(env.environ[i], env.prefix))] + Rest(env, Scanning(i + 1))
    ensures !Keeps(env.environ[i], env.prefix) ==> Rest(env, Scanning(i)) == Rest(env, Scanning(i + 1))
  {
    SelectedSnoc(env.environ, env.prefix, i);
    if Keeps(env.environ[i], env.prefix) {
      var v := Emitted(env.environ[i], env.prefix);
      ParseAllConcat(env, [v], Selected(env.environ[i + 1..], env.prefix));
      ParseAllHead(env, [v]);
    } else {
      assert [] + Selected(env.environ[i + 1..], env.prefix) == Selected(env.environ[i + 1..], env.prefix);
    }
  }

  lemma SkipOrder(env: Env, s: Pipe)
    requires InOrder(env, s) && s.producer.Scanning? && s.producer.next < |env.environ|
    requires !Keeps(env.environ[s.producer.next], env.prefix)
    ensures InOrder(env, s.(producer := Scanning(s.producer.next + 1)))
  {
    RestScans(env, s.producer.next);
    SameComing(env, s, Scanning(s.producer.next + 1));
    OrderIs(env, s, s.(producer := Scanning(s.producer.next + 1)));
  }

  lemma SameComing(env: Env, s: Pipe, p: Producer)
    requires Scanned(env, s.producer) <= |env.environ| && Scanned(env, p) <= |env.environ| && Rest(env, p) == Rest(env, s.producer)
    ensures Coming(env, s.(producer := p)) == Coming(env, s)
  {
  }

  /** InOrder only depends on what is still to come. */
  lemma OrderIs(env: Env, s: Pipe, s': Pipe)
    requires InOrder(env, s) && s'.spawned == s.spawned && Scanned(env, s.producer) <= Scanned(env, s'.producer) <= |env.environ|
    requires |s'.stream| <= Scanned(env, s'.producer) && Coming(env, s') == Coming(env, s)
    ensures InOrder(env, s')
  {
  }

  lemma ParseOrder(env: Env, s: Pipe)
    requires InOrder(env, s) && s.parser.PReceiving? && s.stream != []
    ensures InOrder(env, s.(stream := s.stream[1..], parser := PSending(EntryOf(env, s.stream[0]))))
  {
    ParseAllHead(env, s.stream);
    LineMoves(LoaderHand(s.loader), s.entries, [], ParseAll(env, s.stream[1..]), Rest(env, s.producer), EntryOf(env, s.stream[0]));
  }

  lemma SendOrder(env: Env, s: Pipe)
    requires InOrder(env, s) && s.parser.PSending? && s.entries == []
    ensures InOrder(env, s.(entries := [s.parser.e], parser := PReceiving))
  {
    LineMoves(LoaderHand(s.loader), [], [], ParseAll(env, s.stream),
              Rest(env, s.producer), s.parser.e);
    assert [s.parser.e] + [] == [s.parser.e];
  }

  /** The parts of the invariant about control: they mention no entries. */
  ghost predicate Control(env: Env, s: Pipe)
  {
    Closings(env, s) && Counted(env, s) && !s.panicked
  }

  /** Everything but the setters. */
  ghost predicate Plumbing(env: Env, s: Pipe)
  {
    InOrder(env, s) && Control(env, s)
  }

  lemma LoaderKeeps(env: Env, s: Pipe, s': Pipe)
    requires Plumbing(env, s) && |s.exited| == |AllEntries(env)| && LoaderStep(env, s, s')
    requires forall t :: s.spawned <= t < |s.exited| ==> !s.exited[t]
    ensures Plumbing(env, s')
  {
    LoaderOrder(env, s, s');
    LoaderControl(env, s, s');
  }

  lemma LoaderOrder(env: Env, s: Pipe, s': Pipe)
    requires InOrder(env, s) && Closings(env, s) && LoaderStep(env, s, s')
    ensures InOrder(env, s')
  {
    if s.loader.Receiving? && s.entries != [] {
      ReceiveOrder(env, s);
    } else if s.loader.Spawning? {
      SpawnOrder(env, s);
    } else {
      OrderSame(env, s, s');
    }
  }

  lemma OrderSame(env: Env, s: Pipe, s': Pipe)
    requires InOrder(env, s) && s'.spawned == s.spawned && s'.stream == s.stream && s'.entries == s.entries
    requires LoaderHand(s'.loader) == LoaderHand(s.loader) && ParserHand(s'.parser) == ParserHand(s.parser)
    requires Scanned(env, s'.producer) == Scanned(env, s.producer)
    ensures InOrder(env, s')
  {
  }

  lemma LoaderControl(env: Env, s: Pipe, s': Pipe)
    requires InOrder(env, s) && Control(env, s) && |s.exited| == |AllEntries(env)| && LoaderStep(env, s, s')
    requires forall t :: s.spawned <= t < |s.exited| ==> !s.exited[t]
    ensures Control(env, s')
  {
    if s.loader.Spawning? { SpawnOrder(env, s); }
    LoaderClosings(env, s, s');
    LoaderCounts(env, s, s');
  }

  lemma LoaderClosings(env: Env, s: Pipe, s': Pipe)
    requires Closings(env, s) && LoaderStep(env, s, s')
    ensures Closings(env, s')
  {
  }

  lemma LoaderCounts(env: Env, s: Pipe, s': Pipe)
    requires Closings(env, s) && Counted(env, s) && LoaderStep(env, s, s')
    requires s.loader.Spawning? ==> s.spawned < |s.exited| && !s.exited[s.spawned]
    ensures Counted(env, s')
  {
  }

  lemma ProducerKeeps(env: Env, s: Pipe, s': Pipe)
    requires Plumbing(env, s) && ProducerStep(env, s, s')
    ensures Plumbing(env, s')
  {
    ProducerOrder(env, s, s');
    ProducerControl(env, s, s');
  }

  lemma ProducerOrder(env: Env, s: Pipe, s': Pipe)
    requires InOrder(env, s) && ProducerStep(env, s, s')
    ensures InOrder(env, s')
  {
    if s.producer.Scanning? && s.producer.next < |env.environ| {
      if Keeps(env.environ[s.producer.next], env.prefix) { ScanOrder(env, s); } else { SkipOrder(env, s); }
    } else {
      OrderSame(env, s, s');
    }
  }

  lemma ProducerControl(env: Env, s: Pipe, s': Pipe)
    requires Control(env, s) && ProducerStep(env, s, s')
    ensures Control(env, s')
  {
    ProducerCounts(env, s, s');
  }

  lemma ProducerCounts(env: Env, s: Pipe, s': Pipe)
    requires Counted(env, s) && ProducerStep(env, s, s')
    ensures s'.wg - s.wg == ProducerOwes(env, s'.producer) - ProducerOwes(env, s.producer)
    ensures s'.parser == s.parser && s'.loader == s.loader && s'.exited == s.exited && s'.spawned == s.spawned
  {
  }

  lemma ParserKeeps(env: Env, s: Pipe, s': Pipe)
    requires Plumbing(env, s) && ParserStep(env, s, s') && !s'.panicked
    ensures Plumbing(env, s')
  {
    ParserOrder(env, s, s');
    ParserControl(env, s, s');
  }

  lemma ParserOrder(env: Env, s: Pipe, s': Pipe)
    requires InOrder(env, s) && ParserStep(env, s, s') && !s'.panicked
    ensures InOrder(env, s')
  {
    if s.parser.PReceiving? && s.stream != [] {
      ParseOrder(env, s);
    } else if s.parser.PSending? {
      SendOrder(env, s);
    } else {
      OrderSame(env, s, s');
    }
  }

  lemma ParserControl(env: Env, s: Pipe, s': Pipe)
    requires Control(env, s) && ParserStep(env, s, s') && !s'.panicked
    ensures Control(env, s')
  {
  }

  // What has not been received yet.

  lemma ProducerUnreceived(env: Env, s: Pipe, s': Pipe)
    requires Unreceived(env, s) && ProducerStep(env, s, s')
    ensures Unreceived(env, s')
  {
    if s.producer.Scanning? && s.producer.next < |env.environ| {
      var i := s.producer.next;
      SelectedSnoc(env.environ, env.prefix, i);
      if Keeps(env.environ[i], env.prefix) {
        ScannedIsSelected(env, i);
        assert s'.stream == s.stream + [Emitted(env.environ[i], env.prefix)];
      }
    }
  }

  lemma ParserUnreceived(env: Env, s: Pipe, s': Pipe)
    requires Unreceived(env, s) && ParserStep(env, s, s') && !s'.panicked
    ensures Unreceived(env, s')
  {
    if s.parser.PReceiving? && s.stream != [] {
      assert s.stream == [s.stream[0]] + s'.stream;
    }
  }

  // ---------------------------------------------------------------- every run

  ghost predicate PipeInv(env: Env, calls: seq<Call>, s: Pipe)
  {
    CallsFor(env, calls) && Plumbing(env, s) && Unreceived(env, s) && Setters(calls, s) && Explained(s.m, ROOT, imap[], calls)
  }

  lemma InitKeeps(env: Env, calls: seq<Call>, s: Pipe)
    requires PipeInit(env, calls, s)
    ensures PipeInv(env, calls, s)
  {
    InitExplained(calls, s.m);
    InitPlumbing(env, calls, s);
  }

  lemma InitPlumbing(env: Env, calls: seq<Call>, s: Pipe)
    requires PipeInit(env, calls, s)
    ensures Plumbing(env, s) && Unreceived(env, s)
  {
    assert env.environ[0..] == env.environ;
    assert Coming(env, s) == AllEntries(env);
  }

  lemma InitExplained(calls: seq<Call>, m: State)
    requires ValidCalls(calls) && |m.pcs| == |m.before| == |calls| && m.g == map[ROOT := map[]]
    requires forall t :: 0 <= t < |calls| ==> m.pcs[t] == Idle && m.before[t] == {}
    ensures Explained(m, ROOT, imap[], calls)
  {
    var addr: map<Ref, Path> := map[ROOT := []];
    assert Trees.Unshared(m.g, ROOT, addr);
    EmptyView(m.g, ROOT);
    InitHolds(m, ROOT, calls);
  }

  /** Counting one setter down. */
  lemma {:induction false} RunningDrops(exited: seq<bool>, n: nat, t: nat)
    requires t < n <= |exited| && !exited[t]
    ensures Running(exited[t := true], n) == Running(exited, n) - 1
  {
    if t < n - 1 { RunningDrops(exited, n - 1, t); } else { RunningSame(exited, n - 1, t); }
  }

  lemma {:induction false} RunningSame(exited: seq<bool>, n: nat, t: nat)
    requires n <= t < |exited|
    ensures Running(exited[t := true], n) == Running(exited, n)
  {
    if n > 0 { RunningSame(exited, n - 1, t); }
  }

  /** No call of a loadable list fails. */
  lemma NoneFails(calls: seq<Call>, m: State, t: nat)
    requires Explained(m, ROOT, imap[], calls) && Loadable(calls) && t < |calls| == |m.pcs| && m.pcs[t].Done?
    ensures m.pcs[t].ok
  {
    var h :| Inv(m, h, ROOT, imap[], calls);
    HistoryLinearizes(m, h, imap[], calls);
    LinearizedSucceeds(m, calls, h.log, t);
  }

  lemma SetterKeeps(env: Env, calls: seq<Call>, s: Pipe, s': Pipe, t: nat)
    requires PipeInv(env, calls, s) && ValidCalls(calls) && SetterStep(calls, s, s', t) && !s'.panicked
    ensures PipeInv(env, calls, s')
  {
    if s.m.pcs[t].Done? {
      SetterReturns(env, calls, s, s', t);
    } else {
      StepKeeps(s.m, ROOT, imap[], calls, t, s'.m);
      SetterMoves(env, calls, s, s', t);
    }
  }

  lemma SetterReturns(env: Env, calls: seq<Call>, s: Pipe, s': Pipe, t: nat)
    requires Plumbing(env, s) && Setters(calls, s)
    requires SetterStep(calls, s, s', t) && s.m.pcs[t].Done? && !s'.panicked
    ensures s'.m == s.m && Plumbing(env, s') && Setters(calls, s')
  {
    SetterExits(env, s, t);
    ExitRecorded(calls, s, t);
  }

  lemma ExitRecorded(calls: seq<Call>, s: Pipe, t: nat)
    requires Setters(calls, s) && t < s.spawned && s.m.pcs[t] == Done(true)
    ensures Setters(calls, s.(wg := s.wg - 1, exited := s.exited[t := true]))
  {
  }

  lemma SetterExits(env: Env, s: Pipe, t: nat)
    requires Plumbing(env, s) && t < s.spawned <= |s.exited| && !s.exited[t]
    ensures Plumbing(env, s.(wg := s.wg - 1, exited := s.exited[t := true]))
  {
    RunningZero(s.exited, s.spawned);
    RunningDrops(s.exited, s.spawned, t);
    assert Coming(env, s.(wg := s.wg - 1, exited := s.exited[t := true])) == Coming(env, s);
  }

  lemma SetterMoves(env: Env, calls: seq<Call>, s: Pipe, s': Pipe, t: nat)
    requires Plumbing(env, s) && Setters(calls, s) && ValidCalls(calls) && t < s.spawned && !s.m.pcs[t].Done?
    requires s' == s.(m := s'.m) && t < |calls| && Next(s.m, s'.m, ROOT, calls, t)
    ensures Plumbing(env, s') && Setters(calls, s')
  {
    SetStepsShrink(s.m, s'.m, ROOT, calls, t);
    StepSizes(s.m, s'.m, calls, t);
    assert Coming(env, s') == Coming(env, s);
  }

  lemma StepSizes(m: State, m': State, calls: seq<Call>, t: nat)
    requires t < |m.pcs| == |m.before| == |calls| && Next(m, m', ROOT, calls, t)
    ensures |m'.pcs| == |m'.before| == |calls|
  {
  }

  lemma CallsAreValid(env: Env, calls: seq<Call>)
    requires CallsFor(env, calls)
    ensures ValidCalls(calls)
  {
  }

  /** Every step on which nobody panics keeps the invariant. */
  lemma PipeStepKeeps(env: Env, calls: seq<Call>, s: Pipe, s': Pipe)
    requires PipeInv(env, calls, s) && PipeStep(env, calls, s, s') && !s'.panicked
    ensures PipeInv(env, calls, s')
  {
    if LoaderStep(env, s, s') || ProducerStep(env, s, s') || ParserStep(env, s, s') {
      PlumbingKept(env, s, s');
      SettersKept(env, calls, s, s');
    } else {
      CallsAreValid(env, calls);
      var t: nat :| SetterStep(calls, s, s', t);
      SetterKeeps(env, calls, s, s', t);
    }
  }

  lemma PlumbingKept(env: Env, s: Pipe, s': Pipe)
    requires Plumbing(env, s) && Unreceived(env, s) && |s.exited| == |AllEntries(env)| && !s'.panicked
    requires forall t :: s.spawned <= t < |s.exited| ==> !s.exited[t]
    requires LoaderStep(env, s, s') || ProducerStep(env, s, s') || ParserStep(env, s, s')
    ensures Plumbing(env, s') && Unreceived(env, s')
  {
    if LoaderStep(env, s, s') {
      LoaderKeeps(env, s, s');
    } else if ProducerStep(env, s, s') {
      ProducerKeeps(env, s, s');
      ProducerUnreceived(env, s, s');
    } else {
      ParserKeeps(env, s, s');
      ParserUnreceived(env, s, s');
    }
  }

  lemma SettersKept(env: Env, calls: seq<Call>, s: Pipe, s': Pipe)
    requires CallsFor(env, calls) && InOrder(env, s) && Setters(calls, s)
    requires LoaderStep(env, s, s') || ProducerStep(env, s, s') || ParserStep(env, s, s')
    ensures Setters(calls, s') && s'.m == s.m
  {
    if LoaderStep(env, s, s') {
      LoaderLeavesSetters(env, s, s');
      if s.loader.Spawning? { SpawnOrder(env, s); }
    } else if ProducerStep(env, s, s') {
      ProducerLeavesSetters(env, s, s');
    } else {
      ParserLeavesSetters(env, s, s');
    }
  }

  lemma LoaderLeavesSetters(env: Env, s: Pipe, s': Pipe)
    requires LoaderStep(env, s, s')
    ensures s'.exited == s.exited && s'.m == s.m && s'.spawned == s.spawned + (if s.loader.Spawning? then 1 else 0)
  {
  }

  lemma ProducerLeavesSetters(env: Env, s: Pipe, s': Pipe)
    requires ProducerStep(env, s, s')
    ensures s'.exited == s.exited && s'.m == s.m && s'.spawned == s.spawned
  {
  }

  lemma ParserLeavesSetters(env: Env, s: Pipe, s': Pipe)
    requires ParserStep(env, s, s')
    ensures s'.exited == s.exited && s'.m == s.m && s'.spawned == s.spawned
  {
  }

  ghost predicate PipeRun(env: Env, calls: seq<Call>, run: seq<Pipe>)
  {
    && run != [] && PipeInit(env, calls, run[0])
    && forall i, j :: 0 <= i && j == i + 1 < |run| ==> PipeStep(env, calls, run[i], run[j])
  }

  lemma {:induction false} PipeRunKeeps(env: Env, calls: seq<Call>, run: seq<Pipe>, i: nat)
    requires PipeRun(env, calls, run) && i < |run| && !run[i].panicked
    ensures PipeInv(env, calls, run[i])
  {
    if i == 0 {
      InitKeeps(env, calls, run[0]);
    } else {
      var j := i - 1;
      assert PipeStep(env, calls, run[j], run[i]);
      PipeRunKeeps(env, calls, run, j);
      PipeStepKeeps(env, calls, run[j], run[i]);
    }
  }

  /** In every state of every run in which nobody has panicked the wait group counts exactly
      the outstanding obligations. It is never negative. */
  lemma WaitGroupCounts(env: Env, calls: seq<Call>, run: seq<Pipe>, i: nat)
    requires PipeRun(env, calls, run) && i < |run|
    ensures !run[i].panicked ==> Counted(env, run[i])
    ensures run[i].wg >= 0
  {
    if !run[i].panicked {
      PipeRunKeeps(env, calls, run, i);
      ControlCounts(env, run[i]);
    } else {
      var j := i - 1;
      assert PipeStep(env, calls, run[j], run[i]);
      PipeRunKeeps(env, calls, run, j);
      ControlCounts(env, run[j]);
      PanicKeepsCount(env, calls, run[j], run[i]);
    }
  }

  /** While the environment is scanned the count includes one for each of its entries, so
      the loader cannot finish early. */
  lemma ScanningCounts(env: Env, calls: seq<Call>, run: seq<Pipe>, i: nat)
    requires PipeRun(env, calls, run) && i < |run| && !run[i].panicked && run[i].producer.Scanning?
    ensures run[i].wg >= 1 + |env.environ| && !run[i].loader.Finished?
  {
    PipeRunKeeps(env, calls, run, i);
    ControlScans(env, run[i]);
  }

  lemma ControlScans(env: Env, s: Pipe)
    requires Control(env, s) && s.producer.Scanning?
    ensures s.wg >= 1 + |env.environ| && !s.loader.Finished?
  {
  }

  lemma PanicKeepsCount(env: Env, calls: seq<Call>, s: Pipe, s': Pipe)
    requires PipeStep(env, calls, s, s') && s'.panicked
    ensures s'.wg == s.wg
  {
  }

  lemma ControlCounts(env: Env, s: Pipe)
    requires Control(env, s)
    ensures Counted(env, s) && s.wg >= 0 && !s.panicked
  {
  }

  lemma {:induction false} RunningZero(exited: seq<bool>, n: nat)
    requires n <= |exited|
    ensures Running(exited, n) == 0 <==> forall t :: 0 <= t < n ==> exited[t]
  {
    if n > 0 { RunningZero(exited, n - 1); }
  }

  /** When the finish channel closes and nobody has panicked, every selected variable parses
      and has been set, once, and the configuration shows the calls in some serial order. */
  lemma ClosesAfterLoading(env: Env, calls: seq<Call>, run: seq<Pipe>)
    requires PipeRun(env, calls, run)
    requires run[|run| - 1].loader.Finished? && !run[|run| - 1].panicked
    ensures Parsable(env) && SetBy(env, calls, run[|run| - 1])
  {
    PipeRunKeeps(env, calls, run, |run| - 1);
    FinishedIsSet(env, calls, run[|run| - 1]);
  }

  /** All selected variables were spawned, their calls returned without error, and the
      root reads as after those calls in some order that respects real time. */
  ghost predicate SetBy(env: Env, calls: seq<Call>, s: Pipe)
  {
    && s.spawned == |calls| == |s.m.pcs| == |AllEntries(env)|
    && (forall t :: 0 <= t < |calls| ==> s.m.pcs[t] == Done(true))
    && (exists log :: Explains(s.m, ROOT, imap[], calls, log))
  }

  lemma FinishedIsSet(env: Env, calls: seq<Call>, s: Pipe)
    requires PipeInv(env, calls, s) && s.loader.Finished?
    ensures Parsable(env) && SetBy(env, calls, s)
  {
    ClosedMeansDone(env, calls, s);
    NothingUnreceived(env, s);
    var h :| Inv(s.m, h, ROOT, imap[], calls);
    HistoryExplains(s.m, h, ROOT, imap[], calls);
  }

  lemma NothingUnreceived(env: Env, s: Pipe)
    requires Unreceived(env, s) && s.stream == [] && Scanned(env, s.producer) == |env.environ|
    ensures Parsable(env)
  {
    assert env.environ[|env.environ|..] == [];
  }

  /** When no path lies above another the configuration shows exactly what was loaded. */
  lemma ClosesAsLoaded(env: Env, calls: seq<Call>, run: seq<Pipe>)
    requires PipeRun(env, calls, run) && Loadable(calls)
    requires run[|run| - 1].loader.Finished? && !run[|run| - 1].panicked
    ensures var m := run[|run| - 1].m; Closed(m.g) && ROOT in m.g && Loaded(ViewOf(m.g, ROOT), calls)
  {
    ClosesAfterLoading(env, calls, run);
    PipeRunKeeps(env, calls, run, |run| - 1);
    DoneMeansLoaded(calls, run[|run| - 1].m);
  }

  lemma DoneMeansLoaded(calls: seq<Call>, m: State)
    requires Explained(m, ROOT, imap[], calls) && Loadable(calls) && AllDone(m)
    ensures Closed(m.g) && ROOT in m.g && Loaded(ViewOf(m.g, ROOT), calls)
  {
    var h :| Inv(m, h, ROOT, imap[], calls);
    HistoryExplains(m, h, ROOT, imap[], calls);
    LinearizedHolds(m, calls, h.log);
  }

  lemma ClosedMeansDone(env: Env, calls: seq<Call>, s: Pipe)
    requires PipeInv(env, calls, s) && s.loader.Finished?
    ensures s.spawned == |calls| == |AllEntries(env)| && s.producer.Exited? && s.stream == []
    ensures forall t :: 0 <= t < |calls| ==> s.m.pcs[t] == Done(true)
  {
    ClosedIsQuiet(env, s);
    NothingComing(env, s);
    RunningZero(s.exited, s.spawned);
  }

  /** With the counter at zero nobody else is left to count down. */
  lemma ClosedIsQuiet(env: Env, s: Pipe)
    requires Control(env, s) && s.wg == 0 && (s.loader.Waiting? || s.loader.Finished?)
    ensures s.producer.Exited? && s.parser.PExited? && Running(s.exited, s.spawned) == 0
  {
  }

  lemma NothingComing(env: Env, s: Pipe)
    requires InOrder(env, s) && s.producer.Exited? && s.parser.PExited? && s.stream == [] && s.entries == [] && !s.loader.Spawning?
    ensures s.spawned == |AllEntries(env)|
  {
    assert env.environ[|env.environ|..] == [];
    assert Coming(env, s) == [];
  }

  // ---------------------------------------------------------------- no schedule blocks, every schedule ends

  /** Until the finish channel closes, some goroutine can step. */
  lemma PipeNeverBlocks(env: Env, calls: seq<Call>, s: Pipe) returns (s': Pipe)
    requires PipeInv(env, calls, s) && !s.loader.Finished?
    ensures PipeStep(env, calls, s, s')
  {
    CallsAreValid(env, calls);
    if s.loader.CreatesProducer? || s.loader.CreatesParser? || s.loader.Spawning?
       || (s.loader.Receiving? && (s.entries != [] || s.entriesClosed)) || (s.loader.Waiting? && s.wg == 0) {
      s' := LoaderMoves(env, s);
    } else if s.parser.PSending? || s.parser.PClosing? || s.parser.PLastDone?
              || (s.parser.PReceiving? && (s.stream != [] || s.streamClosed)) {
      s' := ParserMoves(env, s);
    } else if s.producer.Exited? {
      s' := SetterCanMove(env, calls, s);
    } else {
      s' := ProducerMoves(env, s);
    }
  }

  lemma LoaderMoves(env: Env, s: Pipe) returns (s': Pipe)
    requires s.loader.CreatesProducer? || s.loader.CreatesParser? || s.loader.Spawning?
             || (s.loader.Receiving? && (s.entries != [] || s.entriesClosed)) || (s.loader.Waiting? && s.wg == 0)
    ensures LoaderStep(env, s, s')
  {
    match s.loader {
      case CreatesProducer => s' := s.(wg := s.wg + 1, producer := Adding, loader := CreatesParser);
      case CreatesParser => s' := s.(wg := s.wg + 1, parser := PReceiving, loader := Receiving);
      case Receiving =>
        s' := if s.entries != [] then s.(entries := s.entries[1..], loader := Spawning(s.entries[0])) else s.(loader := Waiting);
      case Spawning(_) => s' := s.(wg := s.wg + 1, spawned := s.spawned + 1, loader := Receiving);
      case Waiting => s' := s.(loader := Finished);
    }
  }

  /** The entries channel is empty whenever the loader is not about to take from it. */
  lemma ParserMoves(env: Env, s: Pipe) returns (s': Pipe)
    requires s.parser.PSending? || s.parser.PClosing? || s.parser.PLastDone?
             || (s.parser.PReceiving? && (s.stream != [] || s.streamClosed))
    requires s.parser.PSending? ==> s.entries == []
    ensures ParserStep(env, s, s')
  {
    match s.parser {
      case PReceiving =>
        s' := if s.stream != [] then
                (match ParseEnvVar(s.stream[0], env.files)
                 case Some(e) => s.(stream := s.stream[1..], parser := PSending(e))
                 case None => s.(stream := s.stream[1..], panicked := true))
              else s.(parser := PClosing);
      case PSending(e) => s' := s.(entries := [e], parser := PReceiving);
      case PClosing => s' := s.(entriesClosed := true, parser := PLastDone);
      case PLastDone => s' := s.(wg := s.wg - 1, parser := PExited);
    }
  }

  lemma ScannerMoves(env: Env, s: Pipe) returns (s': Pipe)
    requires s.producer.Scanning? && Scanned(env, s.producer) <= |env.environ| && |s.stream| <= Scanned(env, s.producer)
    ensures ProducerStep(env, s, s')
  {
    var i := s.producer.next;
    s' := if i >= |env.environ| then s.(producer := Unwinding(|env.environ|))
          else if Keeps(env.environ[i], env.prefix) then
            s.(stream := s.stream + [Emitted(env.environ[i], env.prefix)], producer := Scanning(i + 1))
          else s.(producer := Scanning(i + 1));
  }

  /** The stream never fills up: its buffer is as long as the environment. */
  lemma ProducerMoves(env: Env, s: Pipe) returns (s': Pipe)
    requires InOrder(env, s) && !s.producer.NotStarted? && !s.producer.Exited?
    ensures ProducerStep(env, s, s')
  {
    match s.producer {
      case Adding => s' := s.(wg := s.wg + |env.environ|, producer := Scanning(0));
      case Scanning(_) => s' := ScannerMoves(env, s);
      case Unwinding(left) =>
        s' := if left > 0 then s.(wg := s.wg - 1, producer := Unwinding(left - 1))
              else s.(streamClosed := true, producer := LastDone);
      case LastDone => s' := s.(wg := s.wg - 1, producer := Exited);
    }
  }

  /** With producer and parser gone and the counter above zero, some setter is still at work. */
  lemma SetterCanMove(env: Env, calls: seq<Call>, s: Pipe) returns (s': Pipe)
    requires Control(env, s) && Setters(calls, s) && Explained(s.m, ROOT, imap[], calls) && ValidCalls(calls)
    requires s.producer.Exited? && !s.loader.Finished?
    requires !(s.loader.Receiving? && (s.entries != [] || s.entriesClosed)) && !(s.loader.Waiting? && s.wg == 0)
    requires !(s.loader.CreatesProducer? || s.loader.CreatesParser? || s.loader.Spawning?)
    requires !(s.parser.PSending? || s.parser.PClosing? || s.parser.PLastDone?)
    requires !(s.parser.PReceiving? && (s.stream != [] || s.streamClosed))
    ensures SomeSetterStep(calls, s, s')
  {
    var t := SomeRunning(env, s);
    if s.m.pcs[t].Done? {
      s' := if s.m.pcs[t].ok then s.(wg := s.wg - 1, exited := s.exited[t := true]) else s.(panicked := true);
    } else {
      var m' := SetterStepExists(calls, s.m, t);
      s' := s.(m := m');
    }
    assert SetterStep(calls, s, s', t);
  }

  lemma SomeRunning(env: Env, s: Pipe) returns (t: nat)
    requires Control(env, s) && s.producer.Exited? && !s.loader.Finished?
    requires !(s.loader.Receiving? && (s.entries != [] || s.entriesClosed)) && !(s.loader.Waiting? && s.wg == 0)
    requires !(s.loader.CreatesProducer? || s.loader.CreatesParser? || s.loader.Spawning?)
    requires !(s.parser.PSending? || s.parser.PClosing? || s.parser.PLastDone?)
    requires !(s.parser.PReceiving? && (s.stream != [] || s.streamClosed))
    ensures t < s.spawned <= |s.exited| && !s.exited[t]
  {
    RunningZero(s.exited, s.spawned);
    t :| t < s.spawned && !s.exited[t];
  }

  lemma SetterStepExists(calls: seq<Call>, m: State, t: nat) returns (m': State)
    requires Explained(m, ROOT, imap[], calls) && t < |calls| == |m.pcs| == |m.before| && !m.pcs[t].Done?
    ensures Next(m, m', ROOT, calls, t)
  {
    var h :| Inv(m, h, ROOT, imap[], calls);
    m' := SetNeverBlocks(m, h, ROOT, calls, t);
  }

  // A budget that every step spends from.

  ghost function ProducerLeft(env: Env, p: Producer): nat
  {
    var n := |env.environ|;
    match p
    case NotStarted => 7 * n + 5
    case Adding => 7 * n + 4
    case Scanning(i) => (if i <= n then 6 * (n - i) else 0) + n + 3
    case Unwinding(left) => left + 2
    case LastDone => 1
    case Exited => 0
  }

  ghost function ParserLeft(p: Parser): nat
  {
    match p
    case PSending(_) => 3 + 4
    case PClosing => 2
    case PLastDone => 1
    case PExited => 0
    case _ => 3
  }

  ghost function LoaderLeft(l: Loader): nat
  {
    match l
    case CreatesProducer => 5
    case CreatesParser => 4
    case Receiving => 3
    case Spawning(_) => 3 + 2
    case Waiting => 1
    case Finished => 0
  }

  ghost function SetterLeft(pc: Pc, exited: bool, call: Call): nat
  {
    Remaining(pc, call) + if exited then 0 else 1
  }

  ghost function SettersLeft(calls: seq<Call>, pcs: seq<Pc>, exited: seq<bool>): nat
    requires |pcs| == |exited| == |calls|
  {
    Sum(seq(|calls|, t requires 0 <= t < |calls| => SetterLeft(pcs[t], exited[t], calls[t])))
  }

  ghost function Budget(env: Env, calls: seq<Call>, s: Pipe): nat
    requires |s.m.pcs| == |s.exited| == |calls|
  {
    PlumbingLeft(env, s) + SettersLeft(calls, s.m.pcs, s.exited) + if s.panicked then 0 else 1
  }

  /** Every step spends from the budget, so every schedule is finite. */
  lemma PipeEnds(env: Env, calls: seq<Call>, s: Pipe, s': Pipe)
    requires PipeInv(env, calls, s) && PipeStep(env, calls, s, s')
    ensures |s'.m.pcs| == |s'.exited| == |calls| && Budget(env, calls, s') < Budget(env, calls, s)
  {
    CallsAreValid(env, calls);
    if t: nat :| SetterStep(calls, s, s', t) {
      SetterEnds(env, calls, s, s', t);
    } else {
      GoroutineEnds(env, calls, s, s');
    }
  }

  lemma SetterEnds(env: Env, calls: seq<Call>, s: Pipe, s': Pipe, t: nat)
    requires |s.m.pcs| == |s.m.before| == |s.exited| == |calls| && ValidCalls(calls) && !s.panicked
    requires SetterStep(calls, s, s', t)
    ensures |s'.m.pcs| == |s'.exited| == |calls| && Budget(env, calls, s') < Budget(env, calls, s)
  {
    if s.m.pcs[t] != Done(false) { SetterSpends(env, calls, s, s', t); }
  }

  lemma GoroutineEnds(env: Env, calls: seq<Call>, s: Pipe, s': Pipe)
    requires |s.m.pcs| == |s.exited| == |calls| && Closings(env, s) && !s.panicked
    requires LoaderStep(env, s, s') || ProducerStep(env, s, s') || ParserStep(env, s, s')
    ensures |s'.m.pcs| == |s'.exited| == |calls| && Budget(env, calls, s') < Budget(env, calls, s)
  {
    GoroutineSpends(env, s, s');
  }

  lemma GoroutineSpends(env: Env, s: Pipe, s': Pipe)
    requires LoaderStep(env, s, s') || ProducerStep(env, s, s') || ParserStep(env, s, s')
    requires Closings(env, s) && !s.panicked
    ensures s'.m == s.m && s'.exited == s.exited && PlumbingLeft(env, s') < PlumbingLeft(env, s)
  {
    if LoaderStep(env, s, s') {
      LoaderLeavesSetters(env, s, s');
      LoaderSpends(env, s, s');
    } else if ProducerStep(env, s, s') {
      ProducerLeavesSetters(env, s, s');
      ProducerSpends(env, s, s');
    } else {
      ParserLeavesSetters(env, s, s');
      ParserSpends(env, s, s');
    }
  }

  ghost function PlumbingLeft(env: Env, s: Pipe): nat
  {
    ProducerLeft(env, s.producer) + 5 * |s.stream| + ParserLeft(s.parser) + 3 * |s.entries| + LoaderLeft(s.loader)
  }

  lemma LoaderSpends(env: Env, s: Pipe, s': Pipe)
    requires LoaderStep(env, s, s') && Closings(env, s)
    ensures PlumbingLeft(env, s') < PlumbingLeft(env, s)
  {
  }

  lemma ProducerSpends(env: Env, s: Pipe, s': Pipe)
    requires ProducerStep(env, s, s')
    ensures PlumbingLeft(env, s') < PlumbingLeft(env, s)
  {
  }

  lemma ParserSpends(env: Env, s: Pipe, s': Pipe)
    requires ParserStep(env, s, s')
    ensures PlumbingLeft(env, s') < PlumbingLeft(env, s)
  {
  }

  lemma SetterSpends(env: Env, calls: seq<Call>, s: Pipe, s': Pipe, t: nat)
    requires |s.m.pcs| == |s.m.before| == |s.exited| == |calls| && t < |calls| && calls[t].path != []
    requires SetterStep(calls, s, s', t) && s.m.pcs[t] != Done(false)
    ensures |s'.m.pcs| == |s'.exited| == |calls| && PlumbingLeft(env, s') == PlumbingLeft(env, s)
    ensures SettersLeft(calls, s'.m.pcs, s'.exited) < SettersLeft(calls, s.m.pcs, s.exited)
  {
    var ws := seq(|calls|, t requires 0 <= t < |calls| => SetterLeft(s.m.pcs[t], s.exited[t], calls[t]));
    if !s.m.pcs[t].Done? { SetStepsShrink(s.m, s'.m, ROOT, calls, t); }
    var ws' := seq(|calls|, t requires 0 <= t < |calls| => SetterLeft(s'.m.pcs[t], s'.exited[t], calls[t]));
    assert ws' == ws[t := ws'[t]];
    SumUpdate(ws, t, ws'[t]);
  }

  /** An environment whose entries all contain '=' parses under any plain prefix, as long
      as the files its _FILE variables name can be opened. */
  lemma PlainEnvironmentParses(env: Env)
    requires '_' !in env.prefix && '=' !in env.prefix
    requires forall i :: 0 <= i < |env.environ| ==> '=' in env.environ[i]
    requires forall v, r :: v in Selected(env.environ, env.prefix) && SplitOffFirst(v, '=') == Some(r) && HasSuffix(r.0, FILE_SUFFIX)
               ==> r.1 in env.files
    ensures Parsable(env)
  {
    SelectedHaveEquals(env.environ, env.prefix);
  }

  lemma {:induction false} SelectedHaveEquals(environ: seq<string>, prefix: string)
    requires '_' !in prefix && '=' !in prefix && forall i :: 0 <= i < |environ| ==> '=' in environ[i]
    ensures forall v :: v in Selected(environ, prefix) ==> '=' in v
  {
    if environ != [] {
      SelectedHaveEquals(environ[1..], prefix);
      KeepsIsPrefixTest(environ[0], prefix);
      if Keeps(environ[0], prefix) {
        assert environ[0] == (prefix + "_") + Emitted(environ[0], prefix);
      }
    }
  }
}
