/** From environment variables to configuration entries: which variables a prefix
    selects, how one is parsed, and the path its entry is stored at. */
module EnvVars {
  import opened Text

  datatype ConfigEntry = ConfigEntry(key: seq<string>, value: string)

  function HasPrefix(s: string, p: string): bool { p <= s }

  function TrimPrefix(s: string, p: string): string
  {
    if p <= s then s[|p|..] else s
  }

  predicate HasSuffix(s: string, x: string) { |x| <= |s| && s[|s| - |x|..] == x }

  lemma SuffixIs(s: string, x: string)
    ensures HasSuffix(s, x) <==> exists n :: s == n + x
  {
    if HasSuffix(s, x) { assert s == s[..|s| - |x|] + x; }
  }

  lemma SuffixOf(n: string, x: string)
    ensures HasSuffix(n + x, x) && (n + x)[..|n + x| - |x|] == n
  {
  }

  /** The two tests of getVarStream. */
  predicate Keeps(envVar: string, prefix: string)
  {
    HasPrefix(envVar, prefix) && Split(envVar, '_')[0] == prefix
  }

  function Emitted(envVar: string, prefix: string): string { TrimPrefix(envVar, prefix + "_") }

  /** What getVarStream sends, in order. */
  function Selected(environ: seq<string>, prefix: string): seq<string>
  {
    if environ == [] then []
    else (if Keeps(environ[0], prefix) then [Emitted(environ[0], prefix)] else []) + Selected(environ[1..], prefix)
  }

  /** The plain reading: the rest of every entry that starts with p. */
  function Suffixes(environ: seq<string>, p: string): seq<string>
  {
    if environ == [] then []
    else (if HasPrefix(environ[0], p) then [environ[0][|p|..]] else []) + Suffixes(environ[1..], p)
  }

  lemma PrefixMembers(s: string, p: string)
    ensures HasPrefix(s, p) ==> forall c :: c in p ==> c in s
  {
    if HasPrefix(s, p) { assert s == p + s[|p|..]; }
  }

  lemma KeepsIsPrefixTest(envVar: string, prefix: string)
    requires '_' !in prefix && '=' !in prefix && '=' in envVar
    ensures Keeps(envVar, prefix) <==> HasPrefix(envVar, prefix + "_")
  {
    JoinOfSplit(envVar, '_');
    var parts := Split(envVar, '_');
    if |parts| == 1 {
      assert Join(parts, '_') == parts[0] == envVar;
      PrefixMembers(envVar, prefix + "_");
      assert '_' in prefix + "_";
    } else {
      assert envVar == parts[0] + ['_'] + Join(parts[1..], '_');
      if HasPrefix(envVar, prefix + "_") {
        assert envVar == prefix + ['_'] + envVar[|prefix| + 1..];
        SplitHead(prefix, envVar[|prefix| + 1..], '_');
      }
      if Keeps(envVar, prefix) {
        assert envVar[..|prefix| + 1] == prefix + "_";
      }
    }
  }

  /** For a prefix without '_' or '=', selection is a plain prefix test, in order. */
  lemma {:induction false} SelectionIsPrefixTest(environ: seq<string>, prefix: string)
    requires '_' !in prefix && '=' !in prefix && forall i :: 0 <= i < |environ| ==> '=' in environ[i]
    ensures Selected(environ, prefix) == Suffixes(environ, prefix + "_")
  {
    if environ != [] {
      KeepsIsPrefixTest(environ[0], prefix);
      SelectionIsPrefixTest(environ[1..], prefix);
    }
  }

  /** A prefix that contains '_' selects nothing at all. */
  lemma {:induction false} UnderscoreSelectsNothing(environ: seq<string>, prefix: string)
    requires '_' in prefix
    ensures Selected(environ, prefix) == []
  {
    if environ != [] {
      JoinOfSplit(environ[0], '_');
      UnderscoreSelectsNothing(environ[1..], prefix);
    }
  }

  lemma {:induction false} SelectedSnoc(environ: seq<string>, prefix: string, i: nat)
    requires i < |environ|
    ensures Selected(environ[i..], prefix) ==
            (if Keeps(environ[i], prefix) then [Emitted(environ[i], prefix)] else []) + Selected(environ[i + 1..], prefix)
  {
    assert environ[i..][1..] == environ[i + 1..];
  }

  /** The loop of getVarStream on its own, against the plain reading. */
  method GetVarStream(environ: seq<string>, prefix: string) returns (variableStream: seq<string>)
    requires forall i :: 0 <= i < |environ| ==> '=' in environ[i]
    ensures variableStream == Selected(environ, prefix)
    ensures '_' in prefix ==> variableStream == []
    ensures '_' !in prefix && '=' !in prefix ==> variableStream == Suffixes(environ, prefix + "_")
  {
    variableStream := [];
    for i := 0 to |environ|
      invariant Selected(environ, prefix) == variableStream + Selected(environ[i..], prefix)
    {
      SelectedSnoc(environ, prefix, i);
      var envVar := environ[i];
      if !HasPrefix(envVar, prefix) {
        continue;
      }
      if Split(envVar, '_')[0] != prefix {
        continue;
      }
      variableStream := variableStream + [TrimPrefix(envVar, prefix + "_")];
    }
    if '_' in prefix {
      UnderscoreSelectsNothing(environ, prefix);
    } else if '=' !in prefix {
      SelectionIsPrefixTest(environ, prefix);
    }
  }

  const FILE_SUFFIX := "_FILE"

  lemma EntryKeyRejoins(envVar: string)
    ensures var r := SplitOffFirst(envVar, '=');
      r.Some? ==>
        var key := r.value.0;
        var name := if HasSuffix(key, FILE_SUFFIX) then key[..|key| - |FILE_SUFFIX|] else key;
        && AllFree(Split(name, '_'), '_') && Join(Split(name, '_'), '_') == name
        && (HasSuffix(key, FILE_SUFFIX) ==> name + FILE_SUFFIX == key)
  {
    var r := SplitOffFirst(envVar, '=');
    if r.Some? {
      var key := r.value.0;
      JoinOfSplit(if HasSuffix(key, FILE_SUFFIX) then key[..|key| - |FILE_SUFFIX|] else key, '_');
    }
  }

  /** parseEnvVar; files gives the contents of the files that can be opened. */
  function ParseEnvVar(envVar: string, files: map<string, string>): (r: Option<ConfigEntry>)
    ensures r.Some? <==> '=' in envVar && (HasSuffix(SplitOffFirst(envVar, '=').value.0, FILE_SUFFIX) ==> SplitOffFirst(envVar, '=').value.1 in files)
    ensures r.Some? ==> r.value.key != [] && AllFree(r.value.key, '_')
    ensures r.Some? ==>
      var (key, value) := SplitOffFirst(envVar, '=').value;
      if HasSuffix(key, FILE_SUFFIX) then Join(r.value.key, '_') + FILE_SUFFIX == key && r.value.value == files[value]
      else Join(r.value.key, '_') == key && r.value.value == value
  {
    EntryKeyRejoins(envVar);
    match SplitOffFirst(envVar, '=')
    case None => None
    case Some((key, value)) =>
      if HasSuffix(key, FILE_SUFFIX) then
        if value in files then Some(ConfigEntry(Split(key[..|key| - |FILE_SUFFIX|], '_'), files[value])) else None
      else Some(ConfigEntry(Split(key, '_'), value))
  }

  /** The path under which setEntries stores an entry. */
  function EntryPath(e: ConfigEntry): (p: seq<string>)
    ensures p != []
  {
    PathOf(Join(e.key, SUB_SEPARATOR))
  }

  /** Splitting, joining with dots and splitting again reaches the lower-cased
      components exactly when no component contains a dot. */
  lemma EntryPathIff(e: ConfigEntry)
    requires e.key != []
    ensures Split(Join(e.key, SUB_SEPARATOR), SUB_SEPARATOR) == e.key <==> AllFree(e.key, SUB_SEPARATOR)
    ensures AllFree(e.key, SUB_SEPARATOR) ==> EntryPath(e) == LowerAll(e.key)
  {
    SplitOfJoinIff(e.key, SUB_SEPARATOR);
  }

  /** End to end: a variable whose name joins components with '_' is stored, with its
      value intact, at those components in lower case. */
  lemma VariableRoundTrip(components: seq<string>, value: string, files: map<string, string>)
    requires components != [] && AllFree(components, '_') && AllFree(components, '=') && AllFree(components, SUB_SEPARATOR)
    requires !exists n :: Join(components, '_') == n + "_FILE"
    ensures var r := ParseEnvVar(Join(components, '_') + "=" + value, files);
            r == Some(ConfigEntry(components, value)) && EntryPath(r.value) == LowerAll(components)
  {
    var name := Join(components, '_');
    SuffixIs(name, FILE_SUFFIX);
    JoinFree(components, '_', '=');
    SplitsAtFirst(name, value);
    SplitOfJoin(components, '_');
    EntryPathIff(ConfigEntry(components, value));
  }

  lemma SplitsAtFirst(name: string, value: string)
    requires '=' !in name
    ensures SplitOffFirst(name + "=" + value, '=') == Some((name, value))
  {
    SplitHead(name, value, '=');
    JoinOfSplit(value, '=');
    assert Split(name + ['='] + value, '=')[1..] == Split(value, '=');
  }

  /** A variable whose name ends in "_FILE" is stored under the rest of its name, with the
      contents of the file that its value names; it does not parse when that cannot be opened. */
  lemma FileVariableRoundTrip(components: seq<string>, file: string, files: map<string, string>)
    requires components != [] && AllFree(components, '_') && AllFree(components, '=') && AllFree(components, SUB_SEPARATOR)
    ensures var r := ParseEnvVar(Join(components, '_') + "_FILE=" + file, files);
            if file in files then r == Some(ConfigEntry(components, files[file])) && EntryPath(r.value) == LowerAll(components)
            else r == None
  {
    var name := Join(components, '_');
    JoinFree(components, '_', '=');
    SplitsAtFirst(name + "_FILE", file);
    SuffixOf(name, FILE_SUFFIX);
    SplitOfJoin(components, '_');
    EntryPathIff(ConfigEntry(components, if file in files then files[file] else ""));
    assert name + "_FILE=" + file == name + "_FILE" + "=" + file;
  }

  lemma {:induction false} JoinFree(parts: seq<string>, sep: char, c: char)
    requires AllFree(parts, c) && c != sep
    ensures c !in Join(parts, sep)
  {
    if |parts| > 1 {
      JoinFree(parts[1..], sep, c);
    }
  }
}
