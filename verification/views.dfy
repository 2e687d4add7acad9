/** The observable content of a configuration: a finite-depth view from paths of
    lower-cased components to values, and what Set does to it. */
module Views {
  import opened Text

  /** The values the configuration stores. */
  datatype Scalar = Str(s: string) | Num(n: int) | Flag(b: bool)

  type Path = seq<string>

  /** What a path reads as: a plain value or a nested configuration. */
  datatype Kind = LeafK(leaf: Scalar) | NodeK

  type View = imap<Path, Kind>

  /** p is q or an ancestor of q. */
  predicate Above(p: Path, q: Path) { |p| <= |q| && q[..|p|] == p }

  predicate StrictlyAbove(p: Path, q: Path) { |p| < |q| && q[..|p|] == p }

  predicate Incomparable(p: Path, q: Path) { !Above(p, q) && !Above(q, p) }

  lemma AboveTrans(p: Path, q: Path, r: Path)
    ensures Above(p, q) && Above(q, r) ==> Above(p, r)
  {
    if Above(p, q) && Above(q, r) {
      assert r[..|p|] == r[..|q|][..|p|];
    }
  }

  lemma Comparable(p: Path, q: Path, r: Path)
    ensures Above(p, r) && Above(q, r) ==> Above(p, q) || Above(q, p)
  {
    if Above(p, r) && Above(q, r) {
      assert |p| <= |q| ==> r[..|q|][..|p|] == r[..|p|];
      assert |q| <= |p| ==> r[..|p|][..|q|] == r[..|q|];
    }
  }

  lemma StrictTrans(p: Path, q: Path, r: Path)
    ensures StrictlyAbove(p, q) && StrictlyAbove(q, r) ==> StrictlyAbove(p, r)
  {
    if StrictlyAbove(p, q) && StrictlyAbove(q, r) {
      assert r[..|p|] == r[..|q|][..|p|];
    }
  }

  lemma AboveStrict(p: Path, q: Path)
    ensures Above(p, q) ==> StrictlyAbove(p, q) || p == q
    ensures p == q ==> Above(q, p)
  {
    if |p| == |q| { assert q[..|p|] == q; }
  }

  lemma AboveNext(a: Path, k: string, b: Path)
    ensures Above(a + [k], b) ==> StrictlyAbove(a, b) && b[|a|] == k
  {
    if Above(a + [k], b) {
      assert b[..|a|] == (a + [k])[..|a|] == a;
      assert b[|a|] == (a + [k])[|a|];
    }
  }

  /** Only non-empty paths are bound, and every ancestor of a bound path is a configuration. */
  ghost predicate Shaped(t: View)
  {
    && [] !in t
    && forall p, q :: q in t && StrictlyAbove(p, q) && p != [] ==> p in t && t[p] == NodeK
  }

  /** A plain value sits strictly above p. */
  ghost predicate Blocked(t: View, p: Path)
  {
    exists q :: StrictlyAbove(q, p) && q in t && t[q].LeafK?
  }

  /** The values Set can store: a plain value, or a configuration with a view of its own. */
  datatype Put = PutLeaf(leaf: Scalar) | PutTree(tree: View)

  ghost function KindOfPut(w: Put): Kind
  {
    match w case PutLeaf(v) => LeafK(v) case PutTree(_) => NodeK
  }

  ghost function At(t: View, q: Path): Option<Kind>
  {
    if q in t then Some(t[q]) else None
  }

  lemma SameView(t: View, u: View)
    requires forall q :: At(t, q) == At(u, q)
    ensures t == u
  {
    forall q: Path
      ensures (q in t <==> q in u) && (q in t ==> t[q] == u[q])
    {
      assert At(t, q) == At(u, q);
    }
  }

  /** What q reads as after w is stored at p: everything at or below p is replaced,
      the ancestors of p become configurations, and all else stays. */
  ghost function SetAt(t: View, p: Path, w: Put, q: Path): Option<Kind>
    requires p != []
  {
    if q == [] then None
    else if StrictlyAbove(q, p) then Some(NodeK)
    else if q == p then Some(KindOfPut(w))
    else if StrictlyAbove(p, q) then
      match w case PutLeaf(_) => None case PutTree(u) => At(u, q[|p|..])
    else At(t, q)
  }

  ghost function SetView(t: View, p: Path, w: Put): View
    requires p != []
  {
    imap q | SetAt(t, p, w, q).Some? :: SetAt(t, p, w, q).value
  }

  /** One sequential call of Set. */
  ghost function Apply(t: View, p: Path, w: Put): View
    requires p != []
  {
    if Blocked(t, p) then t else SetView(t, p, w)
  }

  lemma ApplyShaped(t: View, p: Path, w: Put)
    requires p != [] && Shaped(t) && (w.PutTree? ==> Shaped(w.tree))
    ensures Shaped(Apply(t, p, w))
  {
    if !Blocked(t, p) {
      var u := SetView(t, p, w);
      forall a, q | q in u && StrictlyAbove(a, q) && a != []
        ensures a in u && u[a] == NodeK
      {
        if StrictlyAbove(p, a) {
          assert StrictlyAbove(a[|p|..], q[|p|..]);
        } else if Above(q, p) {
          assert StrictlyAbove(a, p);
        } else if a == p {
        } else if Above(p, q) {
          assert StrictlyAbove(a, p);
        } else {
          assert q in t && a in t;
          assert !Above(p, a);
        }
      }
    }
  }

  /** A write inside a subtree leaves no trace once the root of that subtree is
      overwritten. */
  lemma OverwriteAbsorbs(t: View, p: Path, v: Put, q: Path, w: Put)
    requires q != [] && StrictlyAbove(q, p)
    requires !Blocked(t, q)
    ensures !Blocked(Apply(t, p, v), q)
    ensures Apply(Apply(t, p, v), q, w) == Apply(t, q, w)
  {
    var u := Apply(t, p, v);
    forall a | StrictlyAbove(a, q) && a in u
      ensures !u[a].LeafK?
    {
      assert StrictlyAbove(a, p);
    }
    forall z
      ensures SetAt(u, q, w, z) == SetAt(t, q, w, z)
    {
      AbsorbAt(t, p, v, q, w, z);
    }
    assert SetView(u, q, w) == SetView(t, q, w);
  }

  lemma AbsorbAt(t: View, p: Path, v: Put, q: Path, w: Put, z: Path)
    requires q != [] && StrictlyAbove(q, p)
    ensures SetAt(Apply(t, p, v), q, w, z) == SetAt(t, q, w, z)
  {
    if !Above(q, z) && !StrictlyAbove(z, q) {
      assert !Above(p, z);
      assert !Above(z, p);
    }
  }
}
