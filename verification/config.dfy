/** The configuration tree as it is in memory: a class whose methods update a store
    in place. region is a set of configurations closed under nesting; what the methods
    do is stated on the graph of that region. */
module ConfigTree {
  import opened Text
  import opened Views
  import opened Graphs
  import opened Trees
  import opened Merge
  import opened Mounts
  import Decimal

  ghost function Snapshot(region: set<Config>): (g: Graph<Config>)
    reads region
    ensures g.Keys == region
  {
    map c | c in region :: c.store
  }

  class Config {
    var store: map<string, Value<Config>>

    constructor Empty()
      ensures store == map[]
    {
      store := map[];
    }

    /** Get: the walk along the key's lower-cased components. */
    method Get(keyString: string, ghost region: set<Config>) returns (r: Option<Value<Config>>)
      requires this in region && Closed(Snapshot(region))
      ensures r == Lookup(Snapshot(region), this, PathOf(keyString))
    {
      r := GetRecursive(Split(keyString, SUB_SEPARATOR), region);
    }

    method GetRecursive(key: seq<string>, ghost region: set<Config>) returns (r: Option<Value<Config>>)
      requires this in region && Closed(Snapshot(region)) && key != []
      ensures r == Lookup(Snapshot(region), this, LowerAll(key))
      decreases |key|
    {
      var currentKey := ToLower(key[0]);
      if |key| == 1 {
        return if currentKey in store then Some(store[currentKey]) else None;
      }
      if currentKey in store {
        match store[currentKey]
        case Sub(config) =>
          r := config.GetRecursive(key[1..], region);
          return;
        case Leaf(_) =>
      }
      return None;
    }

    /** Set: refuses a nil value, otherwise walks down, creates what is missing and
        overwrites the end of the path; supply lists the configurations it creates. */
    method Set(keyString: string, value: Option<Value<Config>>, ghost region: set<Config>)
      returns (err: Option<Error>, ghost supply: seq<Config>)
      requires this in region && Closed(Snapshot(region))
      requires value.Some? && value.value.Sub? ==> value.value.node in region
      modifies region
      ensures fresh(SetOf(supply))
      ensures value.None? ==> err == Some(ErrFieldNil) && supply == [] && Snapshot(region) == old(Snapshot(region))
      ensures value.Some? ==> Sets(old(Snapshot(region)), Snapshot(region + SetOf(supply)), this, PathOf(keyString), value.value, supply, err.None?)
      ensures value.Some? && err.Some? ==> err == Some(ErrFieldNotConfig)
    {
      var key := Split(keyString, SUB_SEPARATOR);
      if value.None? {
        supply := [];
        return Some(ErrFieldNil), supply;
      }
      var ok;
      ok, supply := SetRecursive(key, value.value, region);
      err := if ok then None else Some(ErrFieldNotConfig);
    }

    method SetRecursive(key: seq<string>, value: Value<Config>, ghost region: set<Config>)
      returns (ok: bool, ghost supply: seq<Config>)
      requires this in region && Closed(Snapshot(region)) && key != []
      requires value.Sub? ==> value.node in region
      modifies region
      ensures fresh(SetOf(supply))
      ensures Sets(old(Snapshot(region)), Snapshot(region + SetOf(supply)), this, LowerAll(key), value, supply, ok)
      decreases |key|
    {
      var currentKey := ToLower(key[0]);
      supply := [];
      ghost var g := Snapshot(region);
      assert LowerAll(key)[1..] == LowerAll(key[1..]);
      if |key| == 1 {
        store := store[currentKey := value];
        assert region + SetOf(supply) == region;
        assert Snapshot(region) == old(Snapshot(region))[this := store];
        return true, supply;
      }
      if currentKey !in store {
        var created := CreateChild(currentKey, region);
        ok, supply := created.SetRecursive(key[1..], value, region + {created});
        SetsThroughNew(g, Snapshot(region + {created} + SetOf(supply)), this, LowerAll(key), value, created, supply, ok);
        supply := [created] + supply;
        SetOfHead(supply);
        assert region + SetOf(supply) == region + {created} + SetOf(supply[1..]);
        return;
      }
      match store[currentKey]
      case Sub(config) =>
        ok, supply := config.SetRecursive(key[1..], value, region);
        SetsBelow(g, Snapshot(region + SetOf(supply)), this, LowerAll(key), value, config, supply, ok);
      case Leaf(_) =>
        ok := false;
        assert region + SetOf(supply) == region;
    }

    /** Stores a new, empty configuration under a key that has no entry. */
    method CreateChild(currentKey: string, ghost region: set<Config>) returns (created: Config)
      requires this in region && currentKey !in store
      modifies this
      ensures fresh(created)
      ensures Snapshot(region + {created}) == WithChild(old(Snapshot(region)), this, currentKey, created)
    {
      created := new Config.Empty();
      store := store[currentKey := Sub(created)];
    }

    /** MergeInConfig: replaces the configuration under nestKey by the given one, by
        reference. Without a configuration there it refuses. */
    method MergeInConfig(nestKey: string, defaultConfig: Config, ghost region: set<Config>)
      returns (err: Option<Error>, ghost supply: seq<Config>)
      requires this in region && defaultConfig in region && Closed(Snapshot(region))
      modifies region
      ensures supply == []
      ensures (Snapshot(region), err.None?) == Mount(old(Snapshot(region)), this, PathOf(nestKey), defaultConfig)
      ensures err.Some? ==> err == Some(ErrFieldNotConfig)
      ensures err.None? <==> old(Lookup(Snapshot(region), this, PathOf(nestKey))).Some? && old(Lookup(Snapshot(region), this, PathOf(nestKey))).value.Sub?
    {
      supply := [];
      var rawCurrentConfig := Get(nestKey, region);
      if rawCurrentConfig.None? || rawCurrentConfig.value.Leaf? {
        return Some(ErrFieldNotConfig), supply;
      }
      NothingMissing(Snapshot(region), this, PathOf(nestKey));
      err, supply := Set(nestKey, Some(Sub(defaultConfig)), region);
      assert region + SetOf(supply) == region;
    }

    /** MergeDefault: visits the defaults in some order and stores those that read as nil. */
    method MergeDefault(defaults: Raw, ghost addr: map<Config, Path>)
      returns (out: Outcome, ghost addr': map<Config, Path>, ghost order: seq<Entry>)
      requires defaults.RawMap? && this in addr && IsTree(Snapshot(addr.Keys), addr)
      modifies addr.Keys
      ensures addr.Keys <= addr'.Keys && fresh(addr'.Keys - addr.Keys)
      ensures forall d :: d in addr ==> addr'[d] == addr[d]
      ensures IsTree(Snapshot(addr'.Keys), addr')
      ensures Visits(defaults, order)
      ensures (ViewOf(Snapshot(addr'.Keys), this), out) == MergeSeq(old(ViewOf(Snapshot(addr.Keys), this)), order)
      decreases defaults, 0
    {
      addr', order := addr, [];
      ghost var t := ViewOf(Snapshot(addr.Keys), this);
      var todo := defaults.entries.Keys;
      while todo != {}
        invariant addr.Keys <= addr'.Keys && fresh(addr'.Keys - addr.Keys)
        invariant forall d :: d in addr ==> addr'[d] == addr[d]
        invariant IsTree(Snapshot(addr'.Keys), addr')
        invariant todo <= defaults.entries.Keys && VisitsAllBut(defaults, order, todo)
        invariant MergeSeq(t, order) == (ViewOf(Snapshot(addr'.Keys), this), Merged)
        decreases todo
      {
        ghost var todoBefore := todo;
        var rawKey :| rawKey in todo;
        var rawValue := defaults.entries[rawKey];
        todo := todo - {rawKey};
        ghost var before := ViewOf(Snapshot(addr'.Keys), this);
        ghost var visit;
        out, addr', visit := MergeOne(rawKey, rawValue, addr');
        PutBack(todoBefore, rawKey);
        VisitNext(defaults, order, todo, rawKey, visit);
        MergeNext(t, order, Entry(rawKey, visit));
        order := order + [Entry(rawKey, visit)];
        if out != Merged {
          order := Abandon(t, defaults, order, todo);
          return;
        }
      }
      out := Merged;
    }

    /** The body of MergeDefault's loop: a key that reads as something is skipped. */
    method MergeOne(rawKey: string, rawValue: Raw, ghost addr: map<Config, Path>)
      returns (out: Outcome, ghost addr': map<Config, Path>, ghost visit: Visit)
      requires this in addr && IsTree(Snapshot(addr.Keys), addr)
      modifies addr.Keys
      ensures addr.Keys <= addr'.Keys && fresh(addr'.Keys - addr.Keys)
      ensures forall d :: d in addr ==> addr'[d] == addr[d]
      ensures IsTree(Snapshot(addr'.Keys), addr')
      ensures Matches(rawValue, visit)
      ensures MergeEntry(old(ViewOf(Snapshot(addr.Keys), this)), Entry(rawKey, visit)) == (ViewOf(Snapshot(addr'.Keys), this), out)
      decreases rawValue, 3
    {
      var val := Get(rawKey, addr.Keys);
      if val.Some? {
        visit := AnyVisit(rawValue);
        out, addr' := Merged, addr;
        EntrySkipped(ViewOf(Snapshot(addr.Keys), this), rawKey, visit);
      } else {
        out, addr', visit := StoreDefault(rawKey, rawValue, addr);
      }
    }

    /** What MergeDefault does for a key that reads as nil: a nested map first becomes a
        configuration of its own. */
    method StoreDefault(rawKey: string, rawValue: Raw, ghost addr: map<Config, Path>)
      returns (out: Outcome, ghost addr': map<Config, Path>, ghost visit: Visit)
      requires this in addr && IsTree(Snapshot(addr.Keys), addr)
      requires Lookup(Snapshot(addr.Keys), this, PathOf(rawKey)).None?
      modifies addr.Keys
      ensures addr.Keys <= addr'.Keys && fresh(addr'.Keys - addr.Keys)
      ensures forall d :: d in addr ==> addr'[d] == addr[d]
      ensures IsTree(Snapshot(addr'.Keys), addr')
      ensures Matches(rawValue, visit)
      ensures MergeEntry(old(ViewOf(Snapshot(addr.Keys), this)), Entry(rawKey, visit)) == (ViewOf(Snapshot(addr'.Keys), this), out)
      decreases rawValue, 2
    {
      var value: Option<Value<Config>> := None;
      ghost var sub: map<Config, Path> := map[];
      visit := VisitNil;
      match rawValue {
        case RawNil =>
        case RawLeaf(v) =>
          value := Some(Leaf(v));
          visit := VisitLeaf(v);
        case RawMap(_) =>
          var inner, conf;
          ghost var order;
          inner, conf, sub, order := NewConfig(rawValue);
          visit := VisitMap(order);
          if inner != Merged {
            return Panicked, addr, visit;
          }
          value := Some(Sub(conf));
      }
      out, addr' := StoreValue(rawKey, value, addr, sub, visit);
    }

    /** The final Set of a default; sub is the tree of a nested map's configuration. */
    method StoreValue(rawKey: string, value: Option<Value<Config>>, ghost addr: map<Config, Path>, ghost sub: map<Config, Path>, ghost visit: Visit)
      returns (out: Outcome, ghost addr': map<Config, Path>)
      requires this in addr && IsTree(Snapshot(addr.Keys), addr)
      requires IsTree(Snapshot(sub.Keys), sub) && addr.Keys !! sub.Keys
      requires Lookup(Snapshot(addr.Keys), this, PathOf(rawKey)).None?
      requires match value
               case None => visit == VisitNil && sub == map[]
               case Some(Leaf(v)) => visit == VisitLeaf(v)
               case Some(Sub(conf)) =>
                 && conf in sub && sub[conf] == [] && visit.VisitMap?
                 && MergeSeq(imap[], visit.order) == (ViewOf(Snapshot(sub.Keys), conf), Merged)
      modifies addr.Keys + sub.Keys
      ensures addr.Keys + sub.Keys <= addr'.Keys && fresh(addr'.Keys - addr.Keys - sub.Keys)
      ensures forall d :: d in addr ==> addr'[d] == addr[d]
      ensures IsTree(Snapshot(addr'.Keys), addr')
      ensures MergeEntry(old(ViewOf(Snapshot(addr.Keys), this)), Entry(rawKey, visit)) == (ViewOf(Snapshot(addr'.Keys), this), out)
    {
      ghost var t := ViewOf(Snapshot(addr.Keys), this);
      ghost var g := Snapshot(addr.Keys + sub.Keys);
      JoinTrees(Snapshot(addr.Keys), Snapshot(sub.Keys), g, addr, sub, this);
      if value.Some? && value.value.Sub? {
        ViewFrame(Snapshot(sub.Keys), g, sub, value.value.node);
      }
      var err;
      ghost var supply;
      err, supply := Set(rawKey, value, addr.Keys + sub.Keys);
      out := if err.None? then Merged else Failed(err.value);
      if value.None? {
        addr' := addr;
        assert addr.Keys + sub.Keys == addr.Keys;
      } else {
        addr' := SetOnTree(g, Snapshot(addr.Keys + sub.Keys + SetOf(supply)), addr, sub, this, PathOf(rawKey), value.value, supply, err.None?);
        EntryStored(t, rawKey, visit);
      }
    }

    /** NewConfig: a fresh configuration with the defaults merged in. The source panics
        when that merge fails; here the outcome is returned. */
    static method NewConfig(initValues: Raw)
      returns (out: Outcome, conf: Config, ghost addr: map<Config, Path>, ghost order: seq<Entry>)
      requires initValues.RawMap?
      ensures conf in addr && addr[conf] == [] && fresh(addr.Keys)
      ensures IsTree(Snapshot(addr.Keys), addr)
      ensures Visits(initValues, order)
      ensures (ViewOf(Snapshot(addr.Keys), conf), out) == MergeSeq(imap[], order)
      decreases initValues, 1
    {
      conf := new Config.Empty();
      addr := map[conf := []];
      assert ViewOf(Snapshot(addr.Keys), conf) == imap[];
      out, addr, order := conf.MergeDefault(initValues, addr);
    }

    /** GetConfig: what Get finds, when that is a configuration. */
    method GetConfig(keyString: string, ghost region: set<Config>) returns (r: Option<Config>)
      requires this in region && Closed(Snapshot(region))
      ensures r == match Lookup(Snapshot(region), this, PathOf(keyString)) case Some(Sub(c)) => Some(c) case _ => None
    {
      var val := Get(keyString, region);
      match val
      case Some(Sub(c)) => r := Some(c);
      case _ => r := None;
    }

    /** Sprint: one line per plain value and one nested block per configuration, in some
        order. It terminates on every acyclic graph, however shared. */
    method Sprint(ghost region: set<Config>, ghost rank: map<Config, nat>, ghost bound: nat) returns (buffer: string)
      requires this in region && Closed(Snapshot(region)) && Ranked(Snapshot(region), rank, bound)
      ensures Prints(Snapshot(region), rank, bound, this, store.Keys, buffer)
      decreases bound - rank[this]
    {
      buffer := "";
      var todo := store.Keys;
      while todo != {}
        invariant todo <= store.Keys
        invariant Prints(Snapshot(region), rank, bound, this, store.Keys - todo, buffer)
        decreases todo
      {
        var k :| k in todo;
        var block;
        match store[k] {
          case Sub(entry) =>
            var inner := entry.Sprint(region, rank, bound);
            block := k + ":\n\t" + inner;
          case Leaf(v) =>
            block := k + ":\t" + Shown(v) + "\n";
        }
        assert PrintsEntry(Snapshot(region), rank, bound, this, k, block);
        assert store.Keys - (todo - {k}) - {k} == store.Keys - todo;
        buffer, todo := buffer + block, todo - {k};
      }
      assert store.Keys - todo == store.Keys;
    }
  }

  /** The %s verb of fmt for the stored values. */
  function Shown(v: Scalar): string
  {
    match v
    case Str(s) => s
    case Num(n) => "%!s(int=" + Decimal.OfInt(n) + ")"
    case Flag(b) => if b then "%!s(bool=true)" else "%!s(bool=false)"
  }

  /** What Shown prints, for each kind of value. */
  lemma ShownSpelled(s: string, n: int, digits: string)
    ensures Shown(Str(s)) == s
    ensures n >= 0 && Decimal.Spells(n, digits) ==> Shown(Num(n)) == "%!s(int=" + digits + ")"
    ensures n < 0 && Decimal.Spells(-n, digits) ==> Shown(Num(n)) == "%!s(int=-" + digits + ")"
    ensures Shown(Flag(true)) == "%!s(bool=true)" && Shown(Flag(false)) == "%!s(bool=false)"
  {
    Decimal.OfIntSpells(n);
    if n >= 0 && Decimal.Spells(n, digits) {
      Decimal.SpellsOne(n, Decimal.OfInt(n), digits);
    }
    if n < 0 && Decimal.Spells(-n, digits) {
      Decimal.SpellsOne(-n, Decimal.OfInt(n)[1..], digits);
      assert Decimal.OfInt(n) == "-" + digits;
      assert "%!s(int=" + ("-" + digits) + ")" == "%!s(int=-" + digits + ")";
    }
  }

  /** text lists the entries of c named by keys, each once, in some order. */
  ghost predicate Prints<R>(g: Graph<R>, rank: map<R, nat>, bound: nat, c: R, keys: set<string>, text: string)
    requires Closed(g) && Ranked(g, rank, bound) && c in g && keys <= g[c].Keys
    decreases bound - rank[c], 1, keys
  {
    if keys == {} then text == ""
    else exists k, head, block :: k in keys && text == head + block
           && Prints(g, rank, bound, c, keys - {k}, head) && PrintsEntry(g, rank, bound, c, k, block)
  }

  ghost predicate PrintsEntry<R>(g: Graph<R>, rank: map<R, nat>, bound: nat, c: R, k: string, block: string)
    requires Closed(g) && Ranked(g, rank, bound) && c in g && k in g[c]
    decreases bound - rank[c], 0
  {
    match g[c][k]
    case Leaf(v) => block == k + ":\t" + Shown(v) + "\n"
    case Sub(d) => exists inner :: block == k + ":\n\t" + inner && Prints(g, rank, bound, d, g[d].Keys, inner)
  }

  /** A configuration that holds one plain value, and one that holds that configuration. */
  lemma PrintsSpelled<R>(g: Graph<R>, rank: map<R, nat>, bound: nat, c: R, d: R, k: string, l: string, v: Scalar, text: string)
    requires Closed(g) && Ranked(g, rank, bound) && c in g && d in g
    requires g[d] == map[l := Leaf(v)] && g[c] == map[k := Sub(d)]
    ensures Prints(g, rank, bound, d, g[d].Keys, text) <==> text == l + ":\t" + Shown(v) + "\n"
    ensures Prints(g, rank, bound, c, g[c].Keys, text) <==> text == k + ":\n\t" + (l + ":\t" + Shown(v) + "\n")
  {
    PrintsOne(g, rank, bound, d, l, text);
    PrintsOne(g, rank, bound, c, k, text);
    forall inner
      ensures Prints(g, rank, bound, d, g[d].Keys, inner) <==> inner == l + ":\t" + Shown(v) + "\n"
    {
      PrintsOne(g, rank, bound, d, l, inner);
    }
  }

  lemma PrintsOne<R>(g: Graph<R>, rank: map<R, nat>, bound: nat, c: R, k: string, text: string)
    requires Closed(g) && Ranked(g, rank, bound) && c in g && g[c].Keys == {k}
    ensures Prints(g, rank, bound, c, {k}, text) <==> PrintsEntry(g, rank, bound, c, k, text)
  {
    assert {k} - {k} == {};
    if Prints(g, rank, bound, c, {k}, text) {
      var j, head, block :| j in {k} && text == head + block
        && Prints(g, rank, bound, c, {k} - {j}, head) && PrintsEntry(g, rank, bound, c, j, block);
      assert text == block;
    }
    if PrintsEntry(g, rank, bound, c, k, text) {
      assert text == "" + text && Prints(g, rank, bound, c, {k} - {k}, "");
    }
  }

  /** The body of PrepareSubsystemInit's loop: a system that main does not have is skipped,
      and a refused mount is ignored. */
  method MountSystem(system: string, mainConfig: Config, config: Config, ghost region: set<Config>)
    requires mainConfig in region && config in region && Closed(Snapshot(region))
    modifies region
    ensures Snapshot(region) ==
            match old(Lookup(Snapshot(region), mainConfig, PathOf(system)))
            case Some(Sub(s)) => Mount(old(Snapshot(region)), config, PathOf(system), s).0
            case _ => old(Snapshot(region))
  {
    var subConfig := mainConfig.GetConfig(system, region);
    if subConfig.Some? {
      var err;
      ghost var supply;
      err, supply := config.MergeInConfig(system, subConfig.value, region);
    }
  }

  /** PrepareSubsystemInit: finds the subsystem's configuration in main and mounts the
      listed systems into it; listed systems that main does not have are skipped. */
  method PrepareSubsystemInit(subsystemName: string, additionalSystems: seq<string>, mainConfig: Config, ghost region: set<Config>)
    returns (config: Option<Config>)
    requires mainConfig in region && Closed(Snapshot(region))
    modifies region
    ensures match old(Lookup(Snapshot(region), mainConfig, PathOf(subsystemName)))
            case Some(Sub(c)) =>
              config == Some(c) && Snapshot(region) == MountAll(old(Snapshot(region)), mainConfig, c, additionalSystems)
            case _ =>
              config == None && Snapshot(region) == old(Snapshot(region))
  {
    config := mainConfig.GetConfig(subsystemName, region);
    if config.None? {
      return;
    }
    ghost var g := Snapshot(region);
    for i := 0 to |additionalSystems|
      invariant Closed(Snapshot(region))
      invariant Snapshot(region) == MountAll(g, mainConfig, config.value, additionalSystems[..i])
    {
      MountNext(g, mainConfig, config.value, additionalSystems, i);
      MountSystem(additionalSystems[i], mainConfig, config.value, region);
    }
    assert additionalSystems[..|additionalSystems|] == additionalSystems;
  }
}
