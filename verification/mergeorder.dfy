/** When the order of a defaults map matters, for maps of plain values. */
module MergeOrder {
  import opened Text
  import opened Views
  import opened Merge

  ghost predicate Flat(raw: Raw)
  {
    raw.RawMap? && forall k :: k in raw.entries ==> raw.entries[k].RawLeaf?
  }

  /** All iteration orders fail, or all succeed with one view. */
  ghost predicate Agree(t: View, raw: Raw)
    requires raw.RawMap?
  {
    || (forall order :: Visits(raw, order) ==> MergeSeq(t, order).1 != Merged)
    || exists u :: forall order :: Visits(raw, order) ==> MergeSeq(t, order) == (u, Merged)
  }

  /** A default that is stored if nothing else gets in the way. */
  ghost predicate Absent(t: View, raw: Raw, k: string)
    requires raw.RawMap?
  {
    k in raw.entries && PathOf(k) !in t
  }

  /** Two defaults neither of which hides the other's value. */
  ghost predicate Compatible(raw: Raw, k: string, l: string)
    requires raw.RawMap? && k in raw.entries && l in raw.entries
  {
    || Incomparable(PathOf(k), PathOf(l))
    || (PathOf(k) == PathOf(l) && raw.entries[k] == raw.entries[l])
  }

  ghost predicate AllCompatible(t: View, raw: Raw)
    requires raw.RawMap?
  {
    forall k, l :: Absent(t, raw, k) && Absent(t, raw, l) && k != l ==> Compatible(raw, k, l)
  }

  ghost predicate SomeBlocked(t: View, raw: Raw)
    requires raw.RawMap?
  {
    exists k :: Absent(t, raw, k) && Blocked(t, PathOf(k))
  }

  // ---------------------------------------------------------------- a blocked default fails every order

  /** A view that keeps the values of another keeps its paths blocked. */
  lemma StillBlocked(t: View, order: seq<Entry>, p: Path)
    requires Shaped(t) && Blocked(t, p)
    ensures Blocked(MergeSeq(t, order).0, p) && p !in MergeSeq(t, order).0
  {
    var u := MergeSeq(t, order).0;
    var q :| StrictlyAbove(q, p) && q in t && t[q].LeafK?;
    assert q != [];
    MergeConserves(t, order, q);
    MergeShaped(t, order);
    assert u[q] == t[q];
  }

  lemma BlockedFails(t: View, raw: Raw, order: seq<Entry>)
    requires Shaped(t) && Flat(raw) && Visits(raw, order) && SomeBlocked(t, raw)
    ensures MergeSeq(t, order).1 != Merged
  {
    var k :| Absent(t, raw, k) && Blocked(t, PathOf(k));
    var i := VisitOf(raw, order, k);
    EntryFails(t, order, i);
    FailureStays(t, order, i + 1);
  }

  lemma VisitOf(raw: Raw, order: seq<Entry>, k: string) returns (i: nat)
    requires Flat(raw) && Visits(raw, order) && k in raw.entries
    ensures i < |order| && order[i].key == k && order[i].val == VisitLeaf(raw.entries[k].leaf)
  {
    i :| i < |order| && order[i].key == k;
    assert Matches(raw.entries[order[i].key], order[i].val);
  }

  lemma EntryFails(t: View, order: seq<Entry>, i: nat)
    requires Shaped(t) && i < |order| && order[i].val.VisitLeaf? && Blocked(t, PathOf(order[i].key))
    ensures MergeSeq(t, order[..i + 1]).1 != Merged
  {
    StillBlocked(t, order[..i], PathOf(order[i].key));
    MergeNext(t, order[..i], order[i]);
    TakeOneMore(order, i);
  }

  lemma FailureStays(t: View, order: seq<Entry>, n: nat)
    requires n <= |order| && MergeSeq(t, order[..n]).1 != Merged
    ensures MergeSeq(t, order).1 != Merged
  {
    MergeStops(t, order[..n], order[n..]);
    assert order[..n] + order[n..] == order;
  }

  // ---------------------------------------------------------------- compatible defaults agree

  /** Entry e put kd at q: its value at its own path, configurations above. */
  ghost predicate Puts(t: View, e: Entry, q: Path, kd: Kind)
  {
    && e.val.VisitLeaf? && PathOf(e.key) !in t && Above(q, PathOf(e.key))
    && kd == if q == PathOf(e.key) then LeafK(e.val.leaf) else NodeK
  }

  /** r is t with the values of the first n absent defaults, and nothing else but the
      configurations above them. */
  ghost predicate Stored(t: View, order: seq<Entry>, n: nat, r: View)
    requires n <= |order|
  {
    HasValues(t, order, n, r) && OnlyFrom(t, order, n, r)
  }

  ghost predicate HasValues(t: View, order: seq<Entry>, n: nat, r: View)
    requires n <= |order|
  {
    forall i :: 0 <= i < n && PathOf(order[i].key) !in t ==> HasValue(order[i], r)
  }

  ghost predicate HasValue(e: Entry, r: View)
  {
    e.val.VisitLeaf? && At(r, PathOf(e.key)) == Some(LeafK(e.val.leaf))
  }

  ghost predicate OnlyFrom(t: View, order: seq<Entry>, n: nat, r: View)
    requires n <= |order|
  {
    forall q :: q in r && q !in t ==> exists i :: 0 <= i < n && Puts(t, order[i], q, r[q])
  }

  lemma CompatibleAt(t: View, raw: Raw, order: seq<Entry>, i: nat, j: nat)
    requires Flat(raw) && Visits(raw, order) && AllCompatible(t, raw) && i < |order| && j < |order| && i != j
    requires PathOf(order[i].key) !in t && PathOf(order[j].key) !in t
    ensures order[i].val.VisitLeaf? && order[j].val.VisitLeaf?
    ensures Incomparable(PathOf(order[i].key), PathOf(order[j].key))
         || (PathOf(order[i].key) == PathOf(order[j].key) && order[i].val == order[j].val)
  {
    assert Matches(raw.entries[order[i].key], order[i].val) && Matches(raw.entries[order[j].key], order[j].val);
    assert order[i].key != order[j].key;
    assert Absent(t, raw, order[i].key) && Absent(t, raw, order[j].key);
    assert Compatible(raw, order[i].key, order[j].key);
  }

  /** An absent default that is already bound was bound by one with the same path and value. */
  lemma BoundAlready(t: View, raw: Raw, order: seq<Entry>, n: nat, r: View)
    requires Flat(raw) && Visits(raw, order) && AllCompatible(t, raw) && n < |order| && Stored(t, order, n, r)
    requires PathOf(order[n].key) !in t && PathOf(order[n].key) in r
    ensures HasValue(order[n], r)
  {
    var p := PathOf(order[n].key);
    var i :| 0 <= i < n && Puts(t, order[i], p, r[p]);
    CompatibleAt(t, raw, order, n, i);
  }

  lemma NotBlocked(t: View, raw: Raw, order: seq<Entry>, n: nat, r: View)
    requires Flat(raw) && Visits(raw, order) && AllCompatible(t, raw) && n < |order| && Stored(t, order, n, r)
    requires forall q :: q in t ==> At(r, q) == Some(t[q])
    requires PathOf(order[n].key) !in t && !Blocked(t, PathOf(order[n].key))
    ensures !Blocked(r, PathOf(order[n].key))
  {
    var p := PathOf(order[n].key);
    forall q | StrictlyAbove(q, p) && q in r
      ensures !r[q].LeafK?
    {
      if q in t {
        assert At(r, q) == Some(t[q]);
      } else {
        var i :| 0 <= i < n && Puts(t, order[i], q, r[q]);
        CompatibleAt(t, raw, order, n, i);
      }
    }
  }

  lemma StoresNext(t: View, raw: Raw, order: seq<Entry>, n: nat, r: View)
    requires Shaped(r) && Flat(raw) && Visits(raw, order) && AllCompatible(t, raw) && n < |order| && Stored(t, order, n, r)
    requires PathOf(order[n].key) !in t && PathOf(order[n].key) !in r && !Blocked(r, PathOf(order[n].key))
    requires order[n].val.VisitLeaf?
    ensures Stored(t, order, n + 1, SetView(r, PathOf(order[n].key), PutLeaf(order[n].val.leaf)))
  {
    var u := SetView(r, PathOf(order[n].key), PutLeaf(order[n].val.leaf));
    forall i | 0 <= i < n + 1 && PathOf(order[i].key) !in t
      ensures HasValue(order[i], u)
    {
      if i < n { KeepsEarlier(t, raw, order, n, r, i); }
    }
    forall q | q in u && q !in t
      ensures exists i :: 0 <= i < n + 1 && Puts(t, order[i], q, u[q])
    {
      var i := NewOrigin(t, order, n, r, q);
    }
  }

  lemma KeepsEarlier(t: View, raw: Raw, order: seq<Entry>, n: nat, r: View, i: nat)
    requires Shaped(r) && Flat(raw) && Visits(raw, order) && AllCompatible(t, raw) && i < n < |order| && Stored(t, order, n, r)
    requires PathOf(order[n].key) !in t && PathOf(order[n].key) !in r && !Blocked(r, PathOf(order[n].key))
    requires order[n].val.VisitLeaf? && PathOf(order[i].key) !in t
    ensures HasValue(order[i], SetView(r, PathOf(order[n].key), PutLeaf(order[n].val.leaf)))
  {
    CompatibleAt(t, raw, order, n, i);
    assert HasValue(order[i], r);
    SetAdds(r, PathOf(order[n].key), PutLeaf(order[n].val.leaf), PathOf(order[i].key));
  }

  lemma NewOrigin(t: View, order: seq<Entry>, n: nat, r: View, q: Path) returns (i: nat)
    requires n < |order| && Stored(t, order, n, r) && order[n].val.VisitLeaf? && PathOf(order[n].key) !in t && q !in t
    requires q in SetView(r, PathOf(order[n].key), PutLeaf(order[n].val.leaf))
    ensures i <= n && Puts(t, order[i], q, SetView(r, PathOf(order[n].key), PutLeaf(order[n].val.leaf))[q])
  {
    var p := PathOf(order[n].key);
    var u := SetView(r, p, PutLeaf(order[n].val.leaf));
    if Above(q, p) {
      AboveStrict(q, p);
      i := n;
    } else {
      AboveStrict(p, q);
      assert q in r && u[q] == r[q];
      i := Origin(t, order, n, r, q);
    }
  }

  lemma {:induction false} CompatibleSucceeds(t: View, raw: Raw, order: seq<Entry>, n: nat)
    requires Shaped(t) && Flat(raw) && Visits(raw, order) && AllCompatible(t, raw) && !SomeBlocked(t, raw) && n <= |order|
    ensures MergeSeq(t, order[..n]).1 == Merged && Stored(t, order, n, MergeSeq(t, order[..n]).0)
  {
    if n > 0 {
      var m := n - 1;
      CompatibleSucceeds(t, raw, order, m);
      TakeOneMore(order, m);
      MergeNext(t, order[..m], order[m]);
      EntrySucceeds(t, raw, order, m);
    }
  }

  lemma EntrySucceeds(t: View, raw: Raw, order: seq<Entry>, m: nat)
    requires Shaped(t) && Flat(raw) && Visits(raw, order) && AllCompatible(t, raw) && !SomeBlocked(t, raw) && m < |order|
    requires MergeSeq(t, order[..m]).1 == Merged && Stored(t, order, m, MergeSeq(t, order[..m]).0)
    ensures var e := MergeEntry(MergeSeq(t, order[..m]).0, order[m]);
            e.1 == Merged && Stored(t, order, m + 1, e.0)
  {
    var r, p := MergeSeq(t, order[..m]).0, PathOf(order[m].key);
    MergeShaped(t, order[..m]);
    forall q | q in t
      ensures At(r, q) == Some(t[q])
    {
      MergeConserves(t, order[..m], q);
    }
    assert Matches(raw.entries[order[m].key], order[m].val);
    if p in t {
      assert At(r, p) == Some(t[p]);
    } else if p in r {
      BoundAlready(t, raw, order, m, r);
    } else {
      assert Absent(t, raw, order[m].key);
      NotBlocked(t, raw, order, m, r);
      StoresNext(t, raw, order, m, r);
    }
  }

  /** What is stored does not depend on the order. */
  lemma SameStored(t: View, raw: Raw, one: seq<Entry>, two: seq<Entry>, a: View, b: View, q: Path)
    requires Flat(raw) && Visits(raw, one) && Visits(raw, two) && Shaped(b)
    requires Stored(t, one, |one|, a) && Stored(t, two, |two|, b)
    requires q in a && q !in t && q != []
    ensures At(b, q) == Some(a[q])
  {
    var i := Origin(t, one, |one|, a, q);
    StoredValue(t, raw, one, two, b, i);
    PutHere(t, one[i], b, q, a[q]);
  }

  lemma Origin(t: View, order: seq<Entry>, n: nat, r: View, q: Path) returns (i: nat)
    requires n <= |order| && Stored(t, order, n, r) && q in r && q !in t
    ensures i < n && Puts(t, order[i], q, r[q])
  {
    i :| i < n && Puts(t, order[i], q, r[q]);
  }

  lemma PutHere(t: View, e: Entry, b: View, q: Path, kd: Kind)
    requires Shaped(b) && q != [] && Puts(t, e, q, kd) && HasValue(e, b)
    ensures At(b, q) == Some(kd)
  {
    if q != PathOf(e.key) { AncestorIsNode(b, q, PathOf(e.key)); }
  }

  lemma AncestorIsNode(b: View, q: Path, p: Path)
    requires Shaped(b) && p in b && Above(q, p) && q != p && q != []
    ensures At(b, q) == Some(NodeK)
  {
    AboveStrict(q, p);
  }

  lemma StoredValue(t: View, raw: Raw, one: seq<Entry>, two: seq<Entry>, b: View, i: nat)
    requires Flat(raw) && Visits(raw, one) && Visits(raw, two) && Stored(t, two, |two|, b)
    requires i < |one| && one[i].val.VisitLeaf? && PathOf(one[i].key) !in t
    ensures HasValue(one[i], b)
  {
    var j := VisitOf(raw, two, one[i].key);
    assert HasValue(two[j], b);
    assert Matches(raw.entries[one[i].key], one[i].val);
  }

  lemma SameMerge(t: View, raw: Raw, one: seq<Entry>, two: seq<Entry>)
    requires Shaped(t) && Flat(raw) && Visits(raw, one) && Visits(raw, two) && AllCompatible(t, raw) && !SomeBlocked(t, raw)
    ensures MergeSeq(t, one) == MergeSeq(t, two) && MergeSeq(t, one).1 == Merged
  {
    MergeStored(t, raw, one);
    MergeStored(t, raw, two);
    var a, b := MergeSeq(t, one).0, MergeSeq(t, two).0;
    forall q
      ensures At(a, q) == At(b, q)
    {
      if q in t {
        MergeConserves(t, one, q);
        MergeConserves(t, two, q);
      } else {
        if q in a { SameStored(t, raw, one, two, a, b, q); }
        if q in b { SameStored(t, raw, two, one, b, a, q); }
      }
    }
    SameView(a, b);
  }

  lemma MergeStored(t: View, raw: Raw, order: seq<Entry>)
    requires Shaped(t) && Flat(raw) && Visits(raw, order) && AllCompatible(t, raw) && !SomeBlocked(t, raw)
    ensures MergeSeq(t, order).1 == Merged && Stored(t, order, |order|, MergeSeq(t, order).0) && Shaped(MergeSeq(t, order).0)
  {
    CompatibleSucceeds(t, raw, order, |order|);
    assert order[..|order|] == order;
    MergeShaped(t, order);
  }

  lemma CompatibleAgree(t: View, raw: Raw)
    requires Shaped(t) && Flat(raw) && (SomeBlocked(t, raw) || AllCompatible(t, raw))
    ensures Agree(t, raw)
  {
    if SomeBlocked(t, raw) {
      forall order | Visits(raw, order)
        ensures MergeSeq(t, order).1 != Merged
      {
        BlockedFails(t, raw, order);
      }
    } else {
      var some := AnyVisit(raw);
      var u := MergeSeq(t, some.order).0;
      forall order | Visits(raw, order)
        ensures MergeSeq(t, order) == (u, Merged)
      {
        SameMerge(t, raw, order, some.order);
      }
    }
  }

  // ---------------------------------------------------------------- incompatible defaults do not

  lemma {:induction false} Longest(todo: set<string>) returns (k: string)
    requires todo != {}
    ensures k in todo && forall l :: l in todo ==> |PathOf(l)| <= |PathOf(k)|
  {
    k :| k in todo;
    if todo != {k} {
      var l := Longest(todo - {k});
      assert forall m :: m in todo ==> m == k || m in todo - {k};
      if |PathOf(k)| < |PathOf(l)| { k := l; }
    }
  }

  /** Every value in r that t does not have is that of one of the entries. */
  ghost predicate LeavesFrom(t: View, order: seq<Entry>, r: View)
  {
    forall q :: q in r && q !in t && r[q].LeafK? ==> exists i :: 0 <= i < |order| && PathOf(order[i].key) == q
  }

  ghost predicate LongFirst(order: seq<Entry>, todo: set<string>)
  {
    forall i, k :: 0 <= i < |order| && k in todo ==> |PathOf(k)| <= |PathOf(order[i].key)|
  }

  lemma StillLongFirst(order: seq<Entry>, e: Entry, todo: set<string>)
    requires LongFirst(order, todo) && e.key in todo && forall l :: l in todo ==> |PathOf(l)| <= |PathOf(e.key)|
    ensures LongFirst(order + [e], todo - {e.key})
  {
  }

  /** Visiting the defaults by decreasing length of their paths succeeds. */
  lemma {:induction false} LongestFirstSucceeds(t: View, raw: Raw, order: seq<Entry>, todo: set<string>) returns (order': seq<Entry>)
    requires Shaped(t) && Flat(raw) && !SomeBlocked(t, raw) && todo <= raw.entries.Keys && VisitsAllBut(raw, order, todo)
    requires MergeSeq(t, order).1 == Merged && LeavesFrom(t, order, MergeSeq(t, order).0) && LongFirst(order, todo)
    ensures Visits(raw, order') && MergeSeq(t, order').1 == Merged
    decreases todo
  {
    if todo == {} {
      order' := order;
    } else {
      var k := Longest(todo);
      var e := Entry(k, VisitLeaf(raw.entries[k].leaf));
      PutBack(todo, k);
      VisitNext(raw, order, todo - {k}, k, e.val);
      LongestStored(t, raw, order, todo, e);
      StillLongFirst(order, e, todo);
      order' := LongestFirstSucceeds(t, raw, order + [e], todo - {k});
    }
  }

  lemma LongestStored(t: View, raw: Raw, order: seq<Entry>, todo: set<string>, e: Entry)
    requires Shaped(t) && Flat(raw) && !SomeBlocked(t, raw) && e.key in raw.entries && e.key in todo && e.val.VisitLeaf?
    requires MergeSeq(t, order).1 == Merged && LeavesFrom(t, order, MergeSeq(t, order).0) && LongFirst(order, todo)
    ensures MergeSeq(t, order + [e]).1 == Merged && LeavesFrom(t, order + [e], MergeSeq(t, order + [e]).0)
  {
    var r, p := MergeSeq(t, order).0, PathOf(e.key);
    MergeNext(t, order, e);
    LongestNotBlocked(t, raw, order, todo, e.key);
    var u := MergeSeq(t, order + [e]).0;
    forall q | q in u && q !in t && u[q].LeafK?
      ensures exists i :: 0 <= i < |order + [e]| && PathOf((order + [e])[i].key) == q
    {
      if q == p {
        assert (order + [e])[|order|] == e;
      } else {
        assert q in r && r[q] == u[q];
        var i :| 0 <= i < |order| && PathOf(order[i].key) == q;
        assert (order + [e])[i] == order[i];
      }
    }
  }

  lemma LongestNotBlocked(t: View, raw: Raw, order: seq<Entry>, todo: set<string>, k: string)
    requires Shaped(t) && Flat(raw) && !SomeBlocked(t, raw) && k in raw.entries && k in todo
    requires LeavesFrom(t, order, MergeSeq(t, order).0) && LongFirst(order, todo)
    ensures PathOf(k) in MergeSeq(t, order).0 || !Blocked(MergeSeq(t, order).0, PathOf(k))
  {
    var r, p := MergeSeq(t, order).0, PathOf(k);
    if p in t {
      MergeConserves(t, order, p);
    } else {
      assert Absent(t, raw, k);
      forall q | StrictlyAbove(q, p) && q in r
        ensures !r[q].LeafK?
      {
        if q in t {
          MergeConserves(t, order, q);
        }
      }
    }
  }

  /** An order that begins with k. */
  lemma FirstVisit(raw: Raw, k: string) returns (order: seq<Entry>)
    requires Flat(raw) && k in raw.entries
    ensures Visits(raw, order) && order != [] && order[0] == Entry(k, VisitLeaf(raw.entries[k].leaf))
  {
    var e := Entry(k, VisitLeaf(raw.entries[k].leaf));
    OneVisited(raw, k);
    var rest := AnyRest(raw, [e], raw.entries.Keys - {k});
    order := [e] + rest;
  }

  /** An order that begins with k and then l. */
  lemma FirstTwo(raw: Raw, k: string, l: string) returns (order: seq<Entry>)
    requires Flat(raw) && k in raw.entries && l in raw.entries && k != l
    ensures Visits(raw, order) && |order| > 1
    ensures order[0] == Entry(k, VisitLeaf(raw.entries[k].leaf)) && order[1] == Entry(l, VisitLeaf(raw.entries[l].leaf))
  {
    var e, f := Entry(k, VisitLeaf(raw.entries[k].leaf)), Entry(l, VisitLeaf(raw.entries[l].leaf));
    var todo := raw.entries.Keys - {k};
    OneVisited(raw, k);
    PutBack(todo, l);
    VisitNext(raw, [e], todo - {l}, l, f.val);
    var rest := AnyRest(raw, [e] + [f], todo - {l});
    order := [e] + [f] + rest;
  }

  lemma OneVisited(raw: Raw, k: string)
    requires Flat(raw) && k in raw.entries
    ensures VisitsAllBut(raw, [Entry(k, VisitLeaf(raw.entries[k].leaf))], raw.entries.Keys - {k})
  {
    var e := Entry(k, VisitLeaf(raw.entries[k].leaf));
    PutBack(raw.entries.Keys, k);
    VisitNext(raw, [], raw.entries.Keys - {k}, k, e.val);
    assert [] + [e] == [e];
  }

  /** The default visited first keeps its value. */
  lemma FirstWins(t: View, raw: Raw, order: seq<Entry>, k: string)
    requires Shaped(t) && Flat(raw) && Absent(t, raw, k) && !Blocked(t, PathOf(k))
    requires order != [] && order[0] == Entry(k, VisitLeaf(raw.entries[k].leaf))
    ensures At(MergeSeq(t, order).0, PathOf(k)) == Some(LeafK(raw.entries[k].leaf))
  {
    AfterFirst(t, order);
    var r := MergeSeq(t, order[..1]).0;
    assert At(r, PathOf(k)) == Some(LeafK(raw.entries[k].leaf));
    MergeShaped(t, order[..1]);
    MergeSplit(t, order[..1], order[1..]);
    assert order[..1] + order[1..] == order;
    if MergeSeq(t, order[..1]).1 == Merged { MergeConserves(r, order[1..], PathOf(k)); }
  }

  lemma AfterFirst(t: View, order: seq<Entry>)
    requires order != []
    ensures MergeSeq(t, order[..1]) == MergeEntry(t, order[0])
  {
    MergeNext(t, [], order[0]);
    assert [] + [order[0]] == order[..1];
  }

  lemma {:induction false} MergeSplit(t: View, order: seq<Entry>, rest: seq<Entry>)
    requires MergeSeq(t, order).1 == Merged
    ensures MergeSeq(t, order + rest) == MergeSeq(MergeSeq(t, order).0, rest)
    decreases |rest|
  {
    if rest == [] {
      assert order + rest == order;
    } else {
      var n := |rest| - 1;
      MergeSplit(t, order, rest[..n]);
      MergeNext(t, order + rest[..n], rest[n]);
      assert order + rest[..n] + [rest[n]] == order + rest;
    }
  }

  /** A default visited just before one below it makes that one fail. */
  lemma AboveFirstFails(t: View, raw: Raw, order: seq<Entry>, k: string, l: string)
    requires Shaped(t) && Flat(raw) && Absent(t, raw, k) && Absent(t, raw, l) && !Blocked(t, PathOf(k))
    requires StrictlyAbove(PathOf(k), PathOf(l)) && |order| > 1
    requires order[0] == Entry(k, VisitLeaf(raw.entries[k].leaf)) && order[1] == Entry(l, VisitLeaf(raw.entries[l].leaf))
    ensures MergeSeq(t, order).1 != Merged
  {
    AfterFirst(t, order);
    var r, p := MergeSeq(t, order[..1]).0, PathOf(l);
    assert p !in r && StrictlyAbove(PathOf(k), p) && PathOf(k) in r && r[PathOf(k)].LeafK?;
    TakeOneMore(order, 1);
    MergeNext(t, order[..1], order[1]);
    FailureStays(t, order, 2);
  }

  lemma Disagree(t: View, raw: Raw, k: string, l: string)
    requires Shaped(t) && Flat(raw) && !SomeBlocked(t, raw) && Absent(t, raw, k) && Absent(t, raw, l) && k != l
    requires Above(PathOf(k), PathOf(l)) && !Compatible(raw, k, l)
    ensures !Agree(t, raw)
  {
    var good := LongestFirstSucceeds(t, raw, [], raw.entries.Keys);
    if Agree(t, raw) {
      var u :| forall order :: Visits(raw, order) ==> MergeSeq(t, order) == (u, Merged);
      if PathOf(k) == PathOf(l) {
        var one := FirstVisit(raw, k);
        var two := FirstVisit(raw, l);
        FirstWins(t, raw, one, k);
        FirstWins(t, raw, two, l);
      } else {
        var bad := FirstTwo(raw, k, l);
        AboveStrict(PathOf(k), PathOf(l));
        AboveFirstFails(t, raw, bad, k, l);
      }
    }
  }

  /** For defaults that are plain values the iteration order of the map is irrelevant
      exactly when one of them fails in any order, or no two absent ones hide each other. */
  lemma OrderIrrelevantExactly(t: View, raw: Raw)
    requires Shaped(t) && Flat(raw)
    ensures Agree(t, raw) <==> SomeBlocked(t, raw) || AllCompatible(t, raw)
  {
    if SomeBlocked(t, raw) || AllCompatible(t, raw) {
      CompatibleAgree(t, raw);
    } else {
      var k, l :| Absent(t, raw, k) && Absent(t, raw, l) && k != l && !Compatible(raw, k, l);
      if Above(PathOf(k), PathOf(l)) { Disagree(t, raw, k, l); } else { Disagree(t, raw, l, k); }
    }
  }
}
