/** MergeDefault on views. Go ranges over a map in any order, so a merge is given the
    order it happens to use, at every level; its result is a function of that order. */
module Merge {
  import opened Text
  import opened Views

  /** The untyped values a defaults map may hold. */
  datatype Raw = RawNil | RawLeaf(leaf: Scalar) | RawMap(entries: map<string, Raw>)

  /** A defaults map together with the order in which its entries are visited. */
  datatype Entry = Entry(key: string, val: Visit)
  datatype Visit = VisitNil | VisitLeaf(leaf: Scalar) | VisitMap(order: seq<Entry>)

  datatype Error = ErrFieldNil | ErrFieldNotConfig

  /** NewConfig panics when its own merge fails. */
  datatype Outcome = Merged | Failed(error: Error) | Panicked

  ghost predicate Matches(raw: Raw, v: Visit)
    decreases raw, 1
  {
    match raw
    case RawNil => v.VisitNil?
    case RawLeaf(x) => v == VisitLeaf(x)
    case RawMap(m) => v.VisitMap? && Visits(raw, v.order)
  }

  /** order visits every entry of the map once. */
  ghost predicate Visits(raw: Raw, order: seq<Entry>)
    requires raw.RawMap?
    decreases raw, 0
  {
    && (forall i :: 0 <= i < |order| ==> order[i].key in raw.entries && Matches(raw.entries[order[i].key], order[i].val))
    && (forall i, j :: 0 <= i < j < |order| ==> order[i].key != order[j].key)
    && (forall k :: k in raw.entries ==> exists i :: 0 <= i < |order| && order[i].key == k)
  }

  ghost function MergeSeq(t: View, order: seq<Entry>): (r: (View, Outcome))
    decreases order
  {
    if order == [] then (t, Merged)
    else
      var n := |order| - 1;
      var r := MergeSeq(t, order[..n]);
      if r.1 != Merged then r else MergeEntry(r.0, order[n])
  }

  ghost function MergeEntry(t: View, e: Entry): (r: (View, Outcome))
    decreases e
  {
    var p := PathOf(e.key);
    if p in t then (t, Merged)
    else match e.val
      case VisitNil => (t, Failed(ErrFieldNil))
      case VisitLeaf(v) => if Blocked(t, p) then (t, Failed(ErrFieldNotConfig)) else (SetView(t, p, PutLeaf(v)), Merged)
      case VisitMap(o) =>
        var inner := MergeSeq(imap[], o);
        if inner.1 != Merged then (t, Panicked)
        else if Blocked(t, p) then (t, Failed(ErrFieldNotConfig))
        else (SetView(t, p, PutTree(inner.0)), Merged)
  }

  // ---------------------------------------------------------------- conservative, complete, idempotent

  lemma {:induction false} MergeShaped(t: View, order: seq<Entry>)
    requires Shaped(t)
    ensures Shaped(MergeSeq(t, order).0)
    decreases order
  {
    if order != [] {
      var n := |order| - 1;
      MergeShaped(t, order[..n]);
      EntryShaped(MergeSeq(t, order[..n]).0, order[n]);
    }
  }

  lemma {:induction false} EntryShaped(t: View, e: Entry)
    requires Shaped(t)
    ensures Shaped(MergeEntry(t, e).0)
    decreases e
  {
    match e.val
    case VisitNil =>
    case VisitLeaf(v) => ApplyShaped(t, PathOf(e.key), PutLeaf(v));
    case VisitMap(o) =>
      MergeShaped(imap[], o);
      ApplyShaped(t, PathOf(e.key), PutTree(MergeSeq(imap[], o).0));
  }

  /** Storing at an unbound, unblocked path only adds bindings. */
  lemma SetAdds(t: View, p: Path, w: Put, q: Path)
    requires Shaped(t) && p != [] && p !in t && !Blocked(t, p) && q in t
    ensures SetAt(t, p, w, q) == Some(t[q])
  {
    if StrictlyAbove(q, p) {
      assert !t[q].LeafK?;
    }
  }

  lemma EntryConserves(t: View, e: Entry, q: Path)
    requires Shaped(t) && q in t
    ensures At(MergeEntry(t, e).0, q) == Some(t[q])
  {
    var p := PathOf(e.key);
    if p !in t && !Blocked(t, p) {
      match e.val
      case VisitNil =>
      case VisitLeaf(v) => SetAdds(t, p, PutLeaf(v), q);
      case VisitMap(o) => SetAdds(t, p, PutTree(MergeSeq(imap[], o).0), q);
    }
  }

  /** Every earlier value and configuration stays, whether or not the merge succeeds. */
  lemma {:induction false} MergeConserves(t: View, order: seq<Entry>, q: Path)
    requires Shaped(t) && q in t
    ensures At(MergeSeq(t, order).0, q) == Some(t[q])
    decreases order
  {
    if order != [] {
      var n := |order| - 1;
      MergeConserves(t, order[..n], q);
      MergeShaped(t, order[..n]);
      EntryConserves(MergeSeq(t, order[..n]).0, order[n], q);
    }
  }

  /** After a successful merge every default reads as something. */
  lemma {:induction false} MergeCompletes(t: View, order: seq<Entry>, i: nat)
    requires Shaped(t) && MergeSeq(t, order).1 == Merged && i < |order|
    ensures PathOf(order[i].key) in MergeSeq(t, order).0
    decreases order
  {
    var n := |order| - 1;
    var u := MergeSeq(t, order[..n]).0;
    if i < n {
      MergeCompletes(t, order[..n], i);
      MergeShaped(t, order[..n]);
      EntryConserves(u, order[n], PathOf(order[i].key));
    } else {
      var p := PathOf(order[n].key);
      if p !in u {
        assert forall w :: SetAt(u, p, w, p).Some?;
      }
    }
  }

  lemma {:induction false} MergeNothing(t: View, order: seq<Entry>)
    requires forall i :: 0 <= i < |order| ==> PathOf(order[i].key) in t
    ensures MergeSeq(t, order) == (t, Merged)
    decreases order
  {
    if order != [] { MergeNothing(t, order[..|order| - 1]); }
  }

  /** A second run over the same defaults, in any order, succeeds and changes nothing. */
  lemma MergeIdempotent(t: View, raw: Raw, order: seq<Entry>, again: seq<Entry>)
    requires Shaped(t) && raw.RawMap? && Visits(raw, order) && Visits(raw, again)
    requires MergeSeq(t, order).1 == Merged
    ensures MergeSeq(MergeSeq(t, order).0, again) == (MergeSeq(t, order).0, Merged)
  {
    var u := MergeSeq(t, order).0;
    forall i | 0 <= i < |again|
      ensures PathOf(again[i].key) in u
    {
      assert again[i].key in raw.entries;
      var j :| 0 <= j < |order| && order[j].key == again[i].key;
      MergeCompletes(t, order, j);
    }
    MergeNothing(u, again);
  }

  // ---------------------------------------------------------------- independence of the order

  /** At every level, no key's path is at or above another's. */
  ghost predicate Separated(raw: Raw)
  {
    raw.RawMap? ==>
      && (forall k, l :: k in raw.entries && l in raw.entries && k != l ==> Incomparable(PathOf(k), PathOf(l)))
      && (forall k :: k in raw.entries ==> Separated(raw.entries[k]))
  }

  /** Every entry can be merged into t. */
  ghost predicate AllFine(t: View, raw: Raw)
    requires raw.RawMap?
    decreases raw, 0
  {
    forall k :: k in raw.entries ==> Fine(t, raw.entries[k], PathOf(k))
  }

  ghost predicate Fine(t: View, raw: Raw, p: Path)
    decreases raw, 1
  {
    || p in t
    || (!raw.RawNil? && !Blocked(t, p) && (raw.RawMap? ==> AllFine(imap[], raw)))
  }

  /** What a default under path p contributes at q. */
  ghost predicate Gives(raw: Raw, p: Path, q: Path, kd: Kind)
    decreases raw, 2
  {
    && q != []
    && if StrictlyAbove(q, p) then kd == NodeK
       else if q == p then kd == match raw case RawLeaf(v) => LeafK(v) case _ => NodeK
       else StrictlyAbove(p, q) && raw.RawMap? && Contributed(imap[], raw, q[|p|..], kd)
  }

  /** What q reads as after a successful merge, without reference to any order. */
  ghost predicate Contributed(t: View, raw: Raw, q: Path, kd: Kind)
    requires raw.RawMap?
    decreases raw, 1
  {
    At(t, q) == Some(kd) || (q !in t && exists k :: Gives1(t, raw, k, q, kd))
  }

  /** The default under key k is merged, and gives kd at q. */
  ghost predicate Gives1(t: View, raw: Raw, k: string, q: Path, kd: Kind)
    requires raw.RawMap?
    decreases raw, 0
  {
    k in raw.entries && PathOf(k) !in t && Gives(raw.entries[k], PathOf(k), q, kd)
  }

  /** One of the first n entries of an order gives kd at q. */
  ghost predicate GivenBy(t: View, raw: Raw, order: seq<Entry>, n: nat, q: Path, kd: Kind)
    requires raw.RawMap? && n <= |order|
  {
    exists i :: 0 <= i < n && Gives1(t, raw, order[i].key, q, kd)
  }

  /** A contribution at a path comparable with p comes from above p only. */
  lemma GivesAside(raw: Raw, p: Path, o: Path, q: Path, kd: Kind)
    requires Incomparable(p, o) && Gives(raw, o, q, kd)
    ensures !Above(p, q)
    ensures StrictlyAbove(q, p) ==> kd == NodeK
  {
    Comparable(p, o, q);
    AboveTrans(p, q, o);
    StrictTrans(o, q, p);
  }

  /** What a successfully stored default contributes, given that its own merge is characterized. */
  ghost predicate EntryGives(raw: Raw, v: Visit)
  {
    match v
    case VisitNil => raw.RawNil?
    case VisitLeaf(x) => raw == RawLeaf(x)
    case VisitMap(o) =>
      && raw.RawMap?
      && (MergeSeq(imap[], o).1 == Merged <==> AllFine(imap[], raw))
      && (MergeSeq(imap[], o).1 == Merged ==>
           forall q, kd :: At(MergeSeq(imap[], o).0, q) == Some(kd) <==> Contributed(imap[], raw, q, kd))
  }

  ghost function PutOfVisit(v: Visit): Put
    requires !v.VisitNil?
  {
    match v case VisitLeaf(x) => PutLeaf(x) case VisitMap(o) => PutTree(MergeSeq(imap[], o).0)
  }

  /** Storing the default binds at and below p exactly what it gives. */
  lemma StoredGives(t: View, raw: Raw, v: Visit, p: Path, q: Path, kd: Kind)
    requires EntryGives(raw, v) && p != [] && !v.VisitNil? && (v.VisitMap? ==> MergeSeq(imap[], v.order).1 == Merged)
    requires q != [] && (Above(p, q) || StrictlyAbove(q, p))
    ensures SetAt(t, p, PutOfVisit(v), q) == Some(kd) <==> Gives(raw, p, q, kd)
  {
  }

  /** The first n entries of the order have been merged into r. */
  ghost predicate Progress(t: View, raw: Raw, order: seq<Entry>, n: nat, r: View)
    requires raw.RawMap? && n <= |order|
  {
    forall q, kd :: At(r, q) == Some(kd) <==>
      At(t, q) == Some(kd) || (q !in t && GivenBy(t, raw, order, n, q, kd))
  }

  /** An entry that is separate from all earlier ones sees them only above its own path. */
  lemma EarlierAside(t: View, raw: Raw, order: seq<Entry>, n: nat, r: View, q: Path)
    requires raw.RawMap? && n < |order| && Separated(raw) && Visits(raw, order) && Progress(t, raw, order, n, r)
    requires q in r && q !in t
    ensures var p := PathOf(order[n].key);
            !Above(p, q) && (StrictlyAbove(q, p) ==> r[q] == NodeK)
  {
    var i := Earlier(t, raw, order, n, r, q);
    KeysAside(raw, order, i, n);
    GivesAside(raw.entries[order[i].key], PathOf(order[n].key), PathOf(order[i].key), q, r[q]);
  }

  lemma Earlier(t: View, raw: Raw, order: seq<Entry>, n: nat, r: View, q: Path) returns (i: nat)
    requires raw.RawMap? && n <= |order| && Progress(t, raw, order, n, r) && q in r && q !in t
    ensures i < n && Gives1(t, raw, order[i].key, q, r[q])
  {
    assert At(r, q) == Some(r[q]);
    assert GivenBy(t, raw, order, n, q, r[q]);
    i :| 0 <= i < n && Gives1(t, raw, order[i].key, q, r[q]);
  }

  lemma KeysAside(raw: Raw, order: seq<Entry>, i: nat, n: nat)
    requires raw.RawMap? && Separated(raw) && Visits(raw, order) && i < n < |order|
    ensures order[i].key in raw.entries && order[n].key in raw.entries
    ensures Incomparable(PathOf(order[n].key), PathOf(order[i].key))
  {
    assert order[i].key != order[n].key;
  }

  lemma EntryProgress(t: View, raw: Raw, order: seq<Entry>, n: nat, r: View)
    requires Shaped(t) && raw.RawMap? && n < |order| && Separated(raw) && Visits(raw, order)
    requires Progress(t, raw, order, n, r)
    requires EntryGives(raw.entries[order[n].key], order[n].val)
    ensures MergeEntry(r, order[n]).1 == Merged <==> Fine(t, raw.entries[order[n].key], PathOf(order[n].key))
    ensures MergeEntry(r, order[n]).1 == Merged ==> Progress(t, raw, order, n + 1, MergeEntry(r, order[n]).0)
  {
    EntryBound(t, raw, order, n, r);
    if PathOf(order[n].key) in t {
      EntrySkips(t, raw, order, n, r);
    } else {
      EntryBlocked(t, raw, order, n, r);
      EntryFine(t, raw, order[n], r);
      if MergeEntry(r, order[n]).1 == Merged {
        EntryStores(t, raw, order, n, r);
      }
    }
  }

  lemma EntryBound(t: View, raw: Raw, order: seq<Entry>, n: nat, r: View)
    requires raw.RawMap? && n < |order| && Separated(raw) && Visits(raw, order) && Progress(t, raw, order, n, r)
    ensures PathOf(order[n].key) in r <==> PathOf(order[n].key) in t
  {
    var p := PathOf(order[n].key);
    if p in r && p !in t { EarlierAside(t, raw, order, n, r, p); }
    if p in t { assert At(r, p) == Some(t[p]); }
  }

  lemma EntrySkips(t: View, raw: Raw, order: seq<Entry>, n: nat, r: View)
    requires raw.RawMap? && n < |order| && Progress(t, raw, order, n, r)
    requires PathOf(order[n].key) in t && PathOf(order[n].key) in r
    ensures MergeEntry(r, order[n]) == (r, Merged) && Progress(t, raw, order, n + 1, r)
  {
    forall q, kd
      ensures GivenBy(t, raw, order, n + 1, q, kd) <==> GivenBy(t, raw, order, n, q, kd)
    {
      GivenByNext(t, raw, order, n, q, kd);
    }
  }

  lemma EntryFine(t: View, raw: Raw, e: Entry, r: View)
    requires raw.RawMap? && e.key in raw.entries && EntryGives(raw.entries[e.key], e.val)
    requires PathOf(e.key) !in t && PathOf(e.key) !in r && (Blocked(r, PathOf(e.key)) <==> Blocked(t, PathOf(e.key)))
    ensures MergeEntry(r, e).1 == Merged <==> Fine(t, raw.entries[e.key], PathOf(e.key))
  {
  }

  lemma EntryBlocked(t: View, raw: Raw, order: seq<Entry>, n: nat, r: View)
    requires raw.RawMap? && n < |order| && Separated(raw) && Visits(raw, order)
    requires Progress(t, raw, order, n, r)
    ensures Blocked(r, PathOf(order[n].key)) <==> Blocked(t, PathOf(order[n].key))
  {
    var p := PathOf(order[n].key);
    if Blocked(r, p) {
      var q :| StrictlyAbove(q, p) && q in r && r[q].LeafK?;
      if q !in t { EarlierAside(t, raw, order, n, r, q); }
      assert At(t, q) == Some(r[q]);
    }
    if Blocked(t, p) {
      var q :| StrictlyAbove(q, p) && q in t && t[q].LeafK?;
      assert At(r, q) == Some(t[q]);
    }
  }

  lemma EntryStores(t: View, raw: Raw, order: seq<Entry>, n: nat, r: View)
    requires Shaped(t) && raw.RawMap? && n < |order| && Separated(raw) && Visits(raw, order)
    requires Progress(t, raw, order, n, r)
    requires EntryGives(raw.entries[order[n].key], order[n].val)
    requires PathOf(order[n].key) !in t && PathOf(order[n].key) !in r && !Blocked(t, PathOf(order[n].key))
    requires MergeEntry(r, order[n]).1 == Merged
    ensures Progress(t, raw, order, n + 1, MergeEntry(r, order[n]).0)
  {
    var e := order[n];
    var u := MergeEntry(r, e).0;
    forall q, kd
      ensures At(u, q) == Some(kd) <==>
        At(t, q) == Some(kd) || (q !in t && GivenBy(t, raw, order, n + 1, q, kd))
    {
      StoresAt(t, raw, order, n, r, q, kd);
    }
  }

  lemma StoresAt(t: View, raw: Raw, order: seq<Entry>, n: nat, r: View, q: Path, kd: Kind)
    requires Shaped(t) && raw.RawMap? && n < |order| && Separated(raw) && Visits(raw, order)
    requires Progress(t, raw, order, n, r)
    requires EntryGives(raw.entries[order[n].key], order[n].val)
    requires PathOf(order[n].key) !in t && PathOf(order[n].key) !in r && !Blocked(t, PathOf(order[n].key))
    requires MergeEntry(r, order[n]).1 == Merged
    ensures At(MergeEntry(r, order[n]).0, q) == Some(kd) <==>
      At(t, q) == Some(kd) || (q !in t && GivenBy(t, raw, order, n + 1, q, kd))
  {
    var e := order[n];
    var p := PathOf(e.key);
    assert MergeEntry(r, e).0 == SetView(r, p, PutOfVisit(e.val));
    if q != [] && (Above(p, q) || StrictlyAbove(q, p)) {
      StoresNear(t, raw, order, n, r, q, kd);
    } else {
      StoresFar(t, raw, order, n, r, q, kd);
    }
  }

  lemma StoresNear(t: View, raw: Raw, order: seq<Entry>, n: nat, r: View, q: Path, kd: Kind)
    requires Shaped(t) && raw.RawMap? && n < |order| && Separated(raw) && Visits(raw, order)
    requires var e := order[n];
      && EntryGives(raw.entries[e.key], e.val) && !e.val.VisitNil?
      && (e.val.VisitMap? ==> MergeSeq(imap[], e.val.order).1 == Merged)
      && PathOf(e.key) !in t && !Blocked(t, PathOf(e.key))
      && q != [] && (Above(PathOf(e.key), q) || StrictlyAbove(q, PathOf(e.key)))
    ensures SetAt(r, PathOf(order[n].key), PutOfVisit(order[n].val), q) == Some(kd) <==>
      At(t, q) == Some(kd) || (q !in t && GivenBy(t, raw, order, n + 1, q, kd))
  {
    var e := order[n];
    var p := PathOf(e.key);
    if q in t {
      UnboundAt(t, p, q);
    } else {
      StoredGives(r, raw.entries[e.key], e.val, p, q, kd);
      EarlierGivesToo(t, raw, order, n, q, kd);
      GivenByNext(t, raw, order, n, q, kd);
    }
  }

  lemma StoresFar(t: View, raw: Raw, order: seq<Entry>, n: nat, r: View, q: Path, kd: Kind)
    requires raw.RawMap? && n < |order| && Visits(raw, order) && Progress(t, raw, order, n, r) && !order[n].val.VisitNil?
    requires q == [] || !(Above(PathOf(order[n].key), q) || StrictlyAbove(q, PathOf(order[n].key)))
    requires [] !in t
    ensures SetAt(r, PathOf(order[n].key), PutOfVisit(order[n].val), q) == Some(kd) <==>
      At(t, q) == Some(kd) || (q !in t && GivenBy(t, raw, order, n + 1, q, kd))
  {
    GivenByNext(t, raw, order, n, q, kd);
    if q == [] {
      forall i | 0 <= i < n
        ensures !Gives1(t, raw, order[i].key, q, kd)
      {
      }
    } else {
      assert At(r, q) == Some(kd) <==> At(t, q) == Some(kd) || (q !in t && GivenBy(t, raw, order, n, q, kd));
    }
  }

  /** Around an unbound, unblocked path a view binds only configurations above it. */
  lemma UnboundAt(t: View, p: Path, q: Path)
    requires Shaped(t) && p !in t && !Blocked(t, p) && q in t && q != [] && p != []
    requires Above(p, q) || StrictlyAbove(q, p)
    ensures StrictlyAbove(q, p) && t[q] == NodeK
  {
    assert q[..|q|] == q;
  }

  lemma GivenByNext(t: View, raw: Raw, order: seq<Entry>, n: nat, q: Path, kd: Kind)
    requires raw.RawMap? && n < |order|
    ensures GivenBy(t, raw, order, n + 1, q, kd) <==> GivenBy(t, raw, order, n, q, kd) || Gives1(t, raw, order[n].key, q, kd)
  {
  }

  /** At paths comparable with entry n's path, entry n gives whatever an earlier one gives. */
  lemma EarlierGivesToo(t: View, raw: Raw, order: seq<Entry>, n: nat, q: Path, kd: Kind)
    requires raw.RawMap? && n < |order| && Separated(raw) && Visits(raw, order)
    requires PathOf(order[n].key) !in t && q != []
    requires Above(PathOf(order[n].key), q) || StrictlyAbove(q, PathOf(order[n].key))
    ensures GivenBy(t, raw, order, n, q, kd) ==> Gives1(t, raw, order[n].key, q, kd)
  {
    if GivenBy(t, raw, order, n, q, kd) {
      var i :| 0 <= i < n && Gives1(t, raw, order[i].key, q, kd);
      KeysAside(raw, order, i, n);
      GivesAside(raw.entries[order[i].key], PathOf(order[n].key), PathOf(order[i].key), q, kd);
    }
  }

  /** The result of a merge over separated keys, whatever the order. */
  lemma {:induction false} MergeCharacter(t: View, raw: Raw, order: seq<Entry>)
    requires Shaped(t) && raw.RawMap? && Visits(raw, order) && Separated(raw)
    ensures MergeSeq(t, order).1 == Merged <==> AllFine(t, raw)
    ensures MergeSeq(t, order).1 == Merged ==>
      forall q, kd :: At(MergeSeq(t, order).0, q) == Some(kd) <==> Contributed(t, raw, q, kd)
    decreases raw, 1
  {
    MergePrefix(t, raw, order, |order|);
    assert order[..|order|] == order;
    OrderFine(t, raw, order);
    if MergeSeq(t, order).1 == Merged {
      forall q, kd
        ensures At(MergeSeq(t, order).0, q) == Some(kd) <==> Contributed(t, raw, q, kd)
      {
        CharacterAt(t, raw, order, MergeSeq(t, order).0, q, kd);
      }
    }
  }

  lemma CharacterAt(t: View, raw: Raw, order: seq<Entry>, r: View, q: Path, kd: Kind)
    requires raw.RawMap? && Visits(raw, order) && Progress(t, raw, order, |order|, r)
    ensures At(r, q) == Some(kd) <==> Contributed(t, raw, q, kd)
  {
    OrderCoversMap(t, raw, order, q, kd);
  }

  lemma OrderFine(t: View, raw: Raw, order: seq<Entry>)
    requires raw.RawMap? && Visits(raw, order)
    ensures AllFine(t, raw) <==> FineUpTo(t, raw, order, |order|)
  {
    if FineUpTo(t, raw, order, |order|) {
      forall k | k in raw.entries
        ensures Fine(t, raw.entries[k], PathOf(k))
      {
        var i :| 0 <= i < |order| && order[i].key == k;
        assert Fine(t, raw.entries[order[i].key], PathOf(order[i].key));
      }
    }
  }

  lemma OrderCoversMap(t: View, raw: Raw, order: seq<Entry>, q: Path, kd: Kind)
    requires raw.RawMap? && Visits(raw, order)
    ensures GivenBy(t, raw, order, |order|, q, kd) ==> exists k :: Gives1(t, raw, k, q, kd)
    ensures (exists k :: Gives1(t, raw, k, q, kd)) ==> GivenBy(t, raw, order, |order|, q, kd)
  {
    if GivenBy(t, raw, order, |order|, q, kd) {
      var i :| 0 <= i < |order| && Gives1(t, raw, order[i].key, q, kd);
      assert exists k :: Gives1(t, raw, k, q, kd);
    }
    forall k | Gives1(t, raw, k, q, kd)
      ensures GivenBy(t, raw, order, |order|, q, kd)
    {
      var i :| 0 <= i < |order| && order[i].key == k;
      assert Gives1(t, raw, order[i].key, q, kd);
    }
  }

  /** The first n entries can be merged, or the merge stops among them. */
  ghost predicate Reaches(t: View, raw: Raw, order: seq<Entry>, n: nat)
    requires raw.RawMap? && Visits(raw, order) && n <= |order|
  {
    var r := MergeSeq(t, order[..n]);
    (r.1 == Merged <==> FineUpTo(t, raw, order, n)) && (r.1 == Merged ==> Progress(t, raw, order, n, r.0))
  }

  ghost predicate FineUpTo(t: View, raw: Raw, order: seq<Entry>, n: nat)
    requires raw.RawMap? && Visits(raw, order) && n <= |order|
  {
    forall i :: 0 <= i < n ==> Fine(t, raw.entries[order[i].key], PathOf(order[i].key))
  }

  lemma {:induction false} MergePrefix(t: View, raw: Raw, order: seq<Entry>, n: nat)
    requires Shaped(t) && raw.RawMap? && Visits(raw, order) && Separated(raw) && n <= |order|
    ensures Reaches(t, raw, order, n)
    decreases raw, 0, n
  {
    if n > 0 {
      var m := n - 1;
      MergePrefix(t, raw, order, m);
      var sub, visit := raw.entries[order[m].key], order[m].val;
      assert Matches(sub, visit);
      if sub.RawMap? { MergeCharacter(imap[], sub, visit.order); }
      PrefixStep(t, raw, order, m);
    }
  }

  lemma PrefixStep(t: View, raw: Raw, order: seq<Entry>, m: nat)
    requires Shaped(t) && raw.RawMap? && Visits(raw, order) && Separated(raw) && m < |order|
    requires EntryGives(raw.entries[order[m].key], order[m].val) && Reaches(t, raw, order, m)
    ensures Reaches(t, raw, order, m + 1)
  {
    var r := MergeSeq(t, order[..m]);
    TakeOneMore(order, m);
    MergeNext(t, order[..m], order[m]);
    FineNext(t, raw, order, m);
    if r.1 == Merged {
      EntryProgress(t, raw, order, m, r.0);
    }
  }

  lemma TakeOneMore<T>(order: seq<T>, m: nat)
    requires m < |order|
    ensures order[..m + 1] == order[..m] + [order[m]]
  {
  }

  lemma FineNext(t: View, raw: Raw, order: seq<Entry>, m: nat)
    requires raw.RawMap? && Visits(raw, order) && m < |order|
    ensures FineUpTo(t, raw, order, m + 1) <==>
            FineUpTo(t, raw, order, m) && Fine(t, raw.entries[order[m].key], PathOf(order[m].key))
  {
  }

  /** MergeDefault does not depend on the iteration order of its maps: over separated
      keys either every order succeeds with the same view, or every order fails. */
  lemma MergeOrderIndependent(t: View, raw: Raw, one: seq<Entry>, two: seq<Entry>)
    requires Shaped(t) && raw.RawMap? && Separated(raw) && Visits(raw, one) && Visits(raw, two)
    ensures MergeSeq(t, one).1 == Merged <==> MergeSeq(t, two).1 == Merged
    ensures MergeSeq(t, one).1 == Merged ==> MergeSeq(t, one).0 == MergeSeq(t, two).0
  {
    MergeCharacter(t, raw, one);
    MergeCharacter(t, raw, two);
    if MergeSeq(t, one).1 == Merged {
      SameContributions(t, raw, MergeSeq(t, one).0, MergeSeq(t, two).0);
    }
  }

  lemma SameContributions(t: View, raw: Raw, a: View, b: View)
    requires raw.RawMap?
    requires forall q, kd :: At(a, q) == Some(kd) <==> Contributed(t, raw, q, kd)
    requires forall q, kd :: At(b, q) == Some(kd) <==> Contributed(t, raw, q, kd)
    ensures a == b
  {
    forall q
      ensures At(a, q) == At(b, q)
    {
      if q in a { assert At(a, q) == Some(a[q]); }
      if q in b { assert At(b, q) == Some(b[q]); }
    }
    SameView(a, b);
  }

  // ---------------------------------------------------------------- building an order one entry at a time

  /** order visits, once each, the entries whose keys are not in todo. */
  ghost predicate VisitsAllBut(raw: Raw, order: seq<Entry>, todo: set<string>)
    requires raw.RawMap?
  {
    && (forall i :: 0 <= i < |order| ==>
         order[i].key in raw.entries && order[i].key !in todo && Matches(raw.entries[order[i].key], order[i].val))
    && (forall i, j :: 0 <= i < j < |order| ==> order[i].key != order[j].key)
    && (forall k :: k in raw.entries && k !in todo ==> exists i :: 0 <= i < |order| && order[i].key == k)
  }

  lemma VisitNext(raw: Raw, order: seq<Entry>, todo: set<string>, k: string, v: Visit)
    requires raw.RawMap? && k in raw.entries && k !in todo && VisitsAllBut(raw, order, todo + {k})
    requires Matches(raw.entries[k], v)
    ensures VisitsAllBut(raw, order + [Entry(k, v)], todo)
  {
    var next := order + [Entry(k, v)];
    forall l | l in raw.entries && l !in todo
      ensures exists i :: 0 <= i < |next| && next[i].key == l
    {
      if l == k {
        assert next[|order|].key == l;
      } else {
        var i :| 0 <= i < |order| && order[i].key == l;
        assert next[i].key == l;
      }
    }
  }

  /** Every default can be visited in some order. */
  lemma {:induction false} AnyVisit(raw: Raw) returns (v: Visit)
    ensures Matches(raw, v)
    decreases raw, 1
  {
    match raw
    case RawNil => v := VisitNil;
    case RawLeaf(x) => v := VisitLeaf(x);
    case RawMap(m) =>
      var order := AnyRest(raw, [], m.Keys);
      assert [] + order == order;
      v := VisitMap(order);
  }

  lemma {:induction false} AnyRest(raw: Raw, order: seq<Entry>, todo: set<string>) returns (rest: seq<Entry>)
    requires raw.RawMap? && todo <= raw.entries.Keys && VisitsAllBut(raw, order, todo)
    ensures Visits(raw, order + rest)
    decreases raw, 0, todo
  {
    if todo == {} {
      rest := [];
      assert order + rest == order;
    } else {
      var k :| k in todo;
      var v := AnyVisit(raw.entries[k]);
      PutBack(todo, k);
      VisitNext(raw, order, todo - {k}, k, v);
      var more := AnyRest(raw, order + [Entry(k, v)], todo - {k});
      rest := [Entry(k, v)] + more;
      OneThenMore(order, Entry(k, v), more);
    }
  }

  lemma OneThenMore<T>(order: seq<T>, e: T, more: seq<T>)
    ensures order + ([e] + more) == order + [e] + more
  {
  }

  /** A default that already reads as something is skipped. */
  lemma EntrySkipped(t: View, k: string, v: Visit)
    requires PathOf(k) in t
    ensures MergeEntry(t, Entry(k, v)) == (t, Merged)
  {
  }

  lemma MergeNext(t: View, order: seq<Entry>, e: Entry)
    ensures var r := MergeSeq(t, order);
            MergeSeq(t, order + [e]) == if r.1 != Merged then r else MergeEntry(r.0, e)
  {
    assert (order + [e])[..|order|] == order;
  }

  /** A merge that has failed ignores the entries it has not reached. */
  lemma {:induction false} MergeStops(t: View, order: seq<Entry>, rest: seq<Entry>)
    requires MergeSeq(t, order).1 != Merged
    ensures MergeSeq(t, order + rest) == MergeSeq(t, order)
    decreases |rest|
  {
    if rest == [] {
      assert order + rest == order;
    } else {
      var n := |rest| - 1;
      MergeStops(t, order, rest[..n]);
      MergeNext(t, order + rest[..n], rest[n]);
      assert order + rest[..n] + [rest[n]] == order + rest;
    }
  }

  /** When a merge has failed, the rest of the order does not matter. */
  lemma Abandon(t: View, raw: Raw, order: seq<Entry>, todo: set<string>) returns (order': seq<Entry>)
    requires raw.RawMap? && todo <= raw.entries.Keys && VisitsAllBut(raw, order, todo)
    requires MergeSeq(t, order).1 != Merged
    ensures Visits(raw, order') && MergeSeq(t, order') == MergeSeq(t, order)
  {
    var rest := AnyRest(raw, order, todo);
    MergeStops(t, order, rest);
    order' := order + rest;
  }

  lemma PutBack(todo: set<string>, k: string)
    requires k in todo
    ensures todo - {k} + {k} == todo
  {
  }

  /** How a default that is not skipped can fail: a nil is refused, a nested map that cannot be
      merged on its own panics, and a plain value above its path blocks what is left. */
  lemma EntryOutcomes(t: View, k: string, x: Scalar, o: seq<Entry>)
    requires PathOf(k) !in t
    ensures MergeEntry(t, Entry(k, VisitNil)) == (t, Failed(ErrFieldNil))
    ensures Blocked(t, PathOf(k)) ==> MergeEntry(t, Entry(k, VisitLeaf(x))) == (t, Failed(ErrFieldNotConfig))
    ensures MergeSeq(imap[], o).1 != Merged ==> MergeEntry(t, Entry(k, VisitMap(o))) == (t, Panicked)
    ensures MergeSeq(imap[], o).1 == Merged && Blocked(t, PathOf(k)) ==>
              MergeEntry(t, Entry(k, VisitMap(o))) == (t, Failed(ErrFieldNotConfig))
  {
  }

  /** Merging an absent default stores what its visit yields. */
  lemma EntryStored(t: View, k: string, v: Visit)
    requires PathOf(k) !in t && !v.VisitNil? && (v.VisitMap? ==> MergeSeq(imap[], v.order).1 == Merged)
    ensures MergeEntry(t, Entry(k, v)) ==
            (Apply(t, PathOf(k), PutOfVisit(v)), if Blocked(t, PathOf(k)) then Failed(ErrFieldNotConfig) else Merged)
  {
  }

  /** Separation is needed: with keys "a" and "a.b" one order succeeds and the other fails. */
  lemma MergeOrderMatters() returns (raw: Raw, one: seq<Entry>, two: seq<Entry>)
    ensures raw.RawMap? && Visits(raw, one) && Visits(raw, two)
    ensures MergeSeq(imap[], one).1 == Failed(ErrFieldNotConfig) && MergeSeq(imap[], two).1 == Merged
  {
    raw := RawMap(map["a" := RawLeaf(Num(1)), "a.b" := RawLeaf(Num(2))]);
    var a, b := Entry("a", VisitLeaf(Num(1))), Entry("a.b", VisitLeaf(Num(2)));
    one, two := [a, b], [b, a];
    assert one[0] == a && one[1] == b && two[0] == b && two[1] == a;
    UpperFirst(a, b);
    LowerFirst(a, b);
  }

  lemma UpperFirst(a: Entry, b: Entry)
    requires a == Entry("a", VisitLeaf(Num(1))) && b == Entry("a.b", VisitLeaf(Num(2)))
    ensures MergeSeq(imap[], [a, b]).1 == Failed(ErrFieldNotConfig)
  {
    DottedPaths();
    MergePair(imap[], a, b);
    var t := MergeEntry(imap[], a).0;
    assert StrictlyAbove(["a"], ["a", "b"]) && ["a"] in t && t[["a"]].LeafK?;
    assert Blocked(t, ["a", "b"]);
  }

  lemma LowerFirst(a: Entry, b: Entry)
    requires a == Entry("a", VisitLeaf(Num(1))) && b == Entry("a.b", VisitLeaf(Num(2)))
    ensures MergeSeq(imap[], [b, a]).1 == Merged
  {
    DottedPaths();
    MergePair(imap[], b, a);
    var t := MergeEntry(imap[], b).0;
    assert StrictlyAbove(["a"], ["a", "b"]) && ["a"] in t;
  }

  lemma DottedPaths()
    ensures PathOf("a") == ["a"] && PathOf("a.b") == ["a", "b"]
  {
    SplitHead("a", "b", SUB_SEPARATOR);
    SplitHead("b", "", SUB_SEPARATOR);
    assert "a" + [SUB_SEPARATOR] + "b" == "a.b";
    assert Split("a.b", SUB_SEPARATOR) == ["a", "b"];
    assert ToLower("a") == "a" && ToLower("b") == "b";
  }

  lemma MergePair(t: View, a: Entry, b: Entry)
    ensures var r := MergeEntry(t, a);
            MergeSeq(t, [a, b]) == if r.1 != Merged then r else MergeEntry(r.0, b)
  {
    MergeNext(t, [], a);
    MergeNext(t, [a], b);
    assert [] + [a] == [a] && [a] + [b] == [a, b];
  }
}
