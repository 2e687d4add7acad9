/** Configurations as graphs of nodes: the walk of Get, the update of Set, and how
    both appear in the view of an unshared tree. The node type is a parameter, so
    the heap class and the concurrent step machine use the same definitions. */
module Graphs {
  import opened Text
  import opened Views

  datatype Value<R> = Leaf(leaf: Scalar) | Sub(node: R)

  type Store<R> = map<string, Value<R>>

  type Graph<R> = map<R, Store<R>>

  ghost predicate Closed<R>(g: Graph<R>)
  {
    forall c, k :: c in g && k in g[c] && g[c][k].Sub? ==> g[c][k].node in g
  }

  /** The walk of Get along a path of lower-cased components. */
  ghost function Lookup<R>(g: Graph<R>, c: R, p: Path): (r: Option<Value<R>>)
    requires Closed(g) && c in g && p != []
    ensures r.Some? && r.value.Sub? ==> r.value.node in g
  {
    if p[0] !in g[c] then None
    else if |p| == 1 then Some(g[c][p[0]])
    else match g[c][p[0]]
      case Leaf(_) => None
      case Sub(d) => Lookup(g, d, p[1..])
  }

  ghost function KindOf<R>(v: Value<R>): Kind
  {
    match v case Leaf(x) => LeafK(x) case Sub(_) => NodeK
  }

  /** Everything Get can observe from c. */
  ghost function ViewOf<R>(g: Graph<R>, c: R): View
    requires Closed(g) && c in g
  {
    imap p: Path | p != [] && Lookup(g, c, p).Some? :: KindOf(Lookup(g, c, p).value)
  }

  lemma {:induction false} LookupSplit<R>(g: Graph<R>, c: R, p: Path, q: Path)
    requires Closed(g) && c in g && p != [] && q != []
    ensures Lookup(g, c, p + q) ==
            match Lookup(g, c, p)
            case Some(Sub(d)) => Lookup(g, d, q)
            case _ => None
  {
    assert (p + q)[0] == p[0];
    if |p| == 1 {
      assert (p + q)[1..] == q;
    } else {
      assert (p + q)[1..] == p[1..] + q;
      if p[0] in g[c] && g[c][p[0]].Sub? {
        LookupSplit(g, g[c][p[0]].node, p[1..], q);
      }
    }
  }

  lemma ViewShaped<R>(g: Graph<R>, c: R)
    requires Closed(g) && c in g
    ensures Shaped(ViewOf(g, c))
  {
    var t := ViewOf(g, c);
    forall p, q | q in t && StrictlyAbove(p, q) && p != []
      ensures p in t && t[p] == NodeK
    {
      LookupSplit(g, c, p, q[|p|..]);
      assert q == p + q[|p|..];
    }
  }

  /** How many nodes Set creates below c. */
  ghost function Missing<R>(g: Graph<R>, c: R, p: Path): nat
    requires Closed(g) && c in g && p != []
  {
    if |p| == 1 then 0
    else if p[0] !in g[c] then |p| - 1
    else match g[c][p[0]]
      case Leaf(_) => 0
      case Sub(d) => Missing(g, d, p[1..])
  }

  ghost function SetOf<R>(s: seq<R>): set<R> { set x | x in s }

  lemma SetOfHead<R>(s: seq<R>)
    requires s != []
    ensures SetOf(s) == {s[0]} + SetOf(s[1..])
  {
    assert s == [s[0]] + s[1..];
  }

  ghost predicate Unused<R>(g: Graph<R>, supply: seq<R>)
  {
    && (forall i :: 0 <= i < |supply| ==> supply[i] !in g)
    && (forall i, j :: 0 <= i < j < |supply| ==> supply[i] != supply[j])
  }

  /** The graph and success flag of Set below c; supply supplies the nodes it creates. */
  ghost function SetGraph<R>(g: Graph<R>, c: R, p: Path, v: Value<R>, supply: seq<R>): (r: (Graph<R>, bool))
    requires Closed(g) && c in g && p != []
    requires v.Sub? ==> v.node in g
    requires Unused(g, supply) && |supply| == Missing(g, c, p)
    ensures Closed(r.0)
    ensures r.0.Keys == g.Keys + SetOf(supply)
    decreases p
  {
    if |p| == 1 then (g[c := g[c][p[0] := v]], true)
    else if p[0] !in g[c] then
      var n := supply[0];
      var g1 := g[c := g[c][p[0] := Sub(n)]][n := map[]];
      assert Unused(g1, supply[1..]);
      SetOfHead(supply);
      SetGraph(g1, n, p[1..], v, supply[1..])
    else match g[c][p[0]]
      case Leaf(_) => (g, false)
      case Sub(d) => SetGraph(g, d, p[1..], v, supply)
  }


  /** A path that reads as something has nothing missing above it. */
  lemma {:induction false} NothingMissing<R>(g: Graph<R>, c: R, p: Path)
    requires Closed(g) && c in g && p != [] && Lookup(g, c, p).Some?
    ensures Missing(g, c, p) == 0
    ensures forall v: Value<R> :: (v.Sub? ==> v.node in g) ==> SetGraph(g, c, p, v, []).1
    ensures forall v: Value<R> :: (v.Sub? ==> v.node in g) ==> SetGraph(g, c, p, v, []).0.Keys == g.Keys
  {
    if |p| > 1 { NothingMissing(g, g[c][p[0]].node, p[1..]); }
  }

  /** MergeInConfig: d replaces, by reference, the configuration that c has at p. */
  ghost function Mount<R>(g: Graph<R>, c: R, p: Path, d: R): (r: (Graph<R>, bool))
    requires Closed(g) && c in g && d in g && p != []
    ensures Closed(r.0) && r.0.Keys == g.Keys
  {
    match Lookup(g, c, p)
    case Some(Sub(_)) =>
      NothingMissing(g, c, p);
      (SetGraph(g, c, p, Sub(d), []).0, true)
    case _ => (g, false)
  }

  /** The configuration whose store has the entry at the end of path p. */
  ghost function Holder<R>(g: Graph<R>, c: R, p: Path): (h: R)
    requires Closed(g) && c in g && p != [] && Lookup(g, c, p).Some?
    ensures h in g
    decreases p
  {
    if |p| == 1 then c else Holder(g, g[c][p[0]].node, p[1..])
  }

  /** MergeInConfig refuses, changing nothing, unless p reads as a configuration; then it
      replaces exactly the entry at the end of p. */
  lemma {:induction false} MountWrites<R>(g: Graph<R>, c: R, p: Path, d: R)
    requires Closed(g) && c in g && d in g && p != []
    ensures !(Lookup(g, c, p).Some? && Lookup(g, c, p).value.Sub?) ==> Mount(g, c, p, d) == (g, false)
    ensures Lookup(g, c, p).Some? && Lookup(g, c, p).value.Sub? ==>
      var h := Holder(g, c, p);
      Mount(g, c, p, d) == (g[h := g[h][p[|p| - 1] := Sub(d)]], true)
  {
    if Lookup(g, c, p).Some? && Lookup(g, c, p).value.Sub? { SetWrites(g, c, p, Sub(d)); }
  }

  lemma {:induction false} SetWrites<R>(g: Graph<R>, c: R, p: Path, v: Value<R>)
    requires Closed(g) && c in g && p != [] && Lookup(g, c, p).Some? && (v.Sub? ==> v.node in g)
    ensures Missing(g, c, p) == 0
    ensures var h := Holder(g, c, p); SetGraph(g, c, p, v, []) == (g[h := g[h][p[|p| - 1] := v]], true)
    decreases p
  {
    if |p| > 1 {
      SetWrites(g, g[c][p[0]].node, p[1..], v);
    }
  }
}
