/** UserDB under arbitrary schedules: one caller, whose calls are broken into their table
    and cache accesses, and any number of cache goroutines that interleave with it write
    by write, in any order. */
module UserSchedules {
  import opened Text
  import opened Users
  import Decimal

  datatype NewUser = NewUser(name: string, email: string, hash: Option<string>, now: Time)

  /** What the caller does with the answer of a lookup. */
  datatype Then = Returns | ChecksEmail(n: NewUser) | Inserts(n: NewUser) | Caches | Deletes(w: Where)

  /** Where the caller is: a lookup is a cache read and then, on a miss, a select. */
  datatype Phase =
    | Ready
    | ReadsCache(w: Where, then_: Then)
    | SelectsRow(w: Where, then_: Then)
    | InsertsRow(n: NewUser)
    | DeletesRows(w: Where)

  /** selected collects the records selected from the table or accepted by an update. */
  datatype Sys = Sys(rows: map<int, Row>, cache: map<string, Public>, active: bool,
                     tasks: seq<seq<CacheOp>>, phase: Phase, selected: set<User>)

  /** Some goroutine performs its next write. */
  ghost predicate TaskStep(s: Sys, s': Sys, i: nat)
  {
    && i < |s.tasks| && s.tasks[i] != []
    && s' == s.(cache := if s.active then RunOp(s.cache, s.tasks[i][0]) else s.cache,
                tasks := s.tasks[i := s.tasks[i][1..]])
  }

  /** How the caller goes on after a lookup that found u, or nobody. */
  function After(s: Sys, k: Then, u: Option<User>): Sys
  {
    match k
    case Returns => s.(phase := Ready)
    case ChecksEmail(n) =>
      s.(phase := if u.Some? then Ready else ReadsCache(ByEmail(n.email), Inserts(n)))
    case Inserts(n) =>
      s.(phase := if u.Some? || HasSpace(n.name) || n.hash.None? then Ready else InsertsRow(n))
    case Caches =>
      if u.Some? then s.(phase := Ready, tasks := s.tasks + [UpdateOps(u.value)]) else s.(phase := Ready)
    case Deletes(w) =>
      if u.Some? then s.(phase := DeletesRows(w), tasks := s.tasks + [ClearOps(u.value)]) else s.(phase := Ready)
  }

  /** The caller's next access. A new call starts from Ready. */
  ghost predicate CallerStep(s: Sys, s': Sys)
  {
    match s.phase
    case Ready =>
      || (exists n: NewUser :: s' == s.(phase := ReadsCache(ByName(n.name), ChecksEmail(n))))
      || (exists w: Where :: s' == s.(phase := ReadsCache(w, Returns)))
      || (exists w: Where :: s' == s.(phase := ReadsCache(w, Deletes(w))))
    case ReadsCache(w, k) =>
      if s.active && CacheKey(KeyOf(w)) in s.cache then s' == After(s, k, Some(User(0, s.cache[CacheKey(KeyOf(w))])))
      else s' == s.(phase := SelectsRow(w, k))
    case SelectsRow(w, k) =>
      if Found(s.rows, w) then exists id :: SelectsId(s, s', w, k, id)
      else s' == After(s, k, None)
    case InsertsRow(n) =>
      exists id: int :: id !in s.rows && InsertsId(s, s', n, id)
    case DeletesRows(w) =>
      s' == s.(rows := Without(s.rows, w), phase := Ready)
  }

  /** The select answers with the row of id, which is handed to a caching goroutine. */
  ghost predicate SelectsId(s: Sys, s': Sys, w: Where, k: Then, id: int)
  {
    && id in s.rows && Selects(w, id, s.rows[id])
    && var u := User(id, s.rows[id].pub);
       s' == After(s.(tasks := s.tasks + [UpdateOps(u)], selected := s.selected + {u}), k, Some(u))
  }

  ghost predicate InsertsId(s: Sys, s': Sys, n: NewUser, id: int)
  {
    s' == s.(rows := s.rows[id := Row(Public(n.name, n.email, n.now, n.now), n.hash.GetOr(""))],
             phase := ReadsCache(ByName(n.name), Caches))
  }

  /** Update of a user record the caller made up; only provenance allows it. An update the
      table refuses does nothing. */
  ghost predicate UpdateStep(s: Sys, s': Sys, u: User, now: Time)
  {
    && s.phase.Ready?
    && s' == s.(rows := if u.id in s.rows then s.rows[u.id := s.rows[u.id].(pub := s.rows[u.id].pub.(name := u.pub.name, email := u.pub.email, updated := now))] else s.rows,
                tasks := s.tasks + [UpdateOps(u)], selected := s.selected + {u})
  }

  /** UpdateUserPassword stores a new hash under the record's id and caches the record as
      given. When encryption fails it does nothing. */
  ghost predicate PasswordStep(s: Sys, s': Sys, u: User, hash: string, now: Time)
  {
    && s.phase.Ready?
    && s' == s.(rows := if u.id in s.rows then s.rows[u.id := Row(s.rows[u.id].pub.(updated := now), hash)] else s.rows,
                tasks := s.tasks + [UpdateOps(u)], selected := s.selected + {u})
  }

  /** GetAll selects a row without its id and caches it. */
  ghost predicate ListStep(s: Sys, s': Sys, id: int)
  {
    && s.phase.Ready? && id in s.rows
    && var u := User(0, s.rows[id].pub.(updated := 0));
       s' == s.(tasks := s.tasks + [UpdateOps(u)], selected := s.selected + {u})
  }

  // ---------------------------------------------------------------- uniqueness

  /** What the caller has already established about the table. */
  ghost predicate Established(s: Sys)
  {
    match s.phase
    case ReadsCache(w, Inserts(n)) => !Found(s.rows, ByName(n.name)) && w == ByEmail(n.email)
    case SelectsRow(w, Inserts(n)) => !Found(s.rows, ByName(n.name)) && w == ByEmail(n.email)
    case ReadsCache(w, ChecksEmail(n)) => w == ByName(n.name)
    case SelectsRow(w, ChecksEmail(n)) => w == ByName(n.name)
    case InsertsRow(n) => !Found(s.rows, ByName(n.name)) && !Found(s.rows, ByEmail(n.email))
    case _ => true
  }

  ghost predicate Distinct(s: Sys) { Unique(s.rows) && Established(s) }

  /** Whatever the cache holds and however its goroutines run, no step of a caller that
      does not use Update lets two rows share a name or an email. */
  lemma StaysDistinct(s: Sys, s': Sys, i: nat)
    requires Distinct(s) && (TaskStep(s, s', i) || CallerStep(s, s'))
    ensures Distinct(s')
  {
    if CallerStep(s, s') {
      CallerDistinct(s, s');
    }
  }

  lemma CallerDistinct(s: Sys, s': Sys)
    requires Distinct(s) && CallerStep(s, s')
    ensures Distinct(s')
  {
    match s.phase
    case ReadsCache(w, k) =>
      if CacheKey(KeyOf(w)) in s.cache { AnswerDistinct(s, k, Some(User(0, s.cache[CacheKey(KeyOf(w))]))); }
    case SelectsRow(w, k) =>
      if Found(s.rows, w) {
        var id :| SelectsId(s, s', w, k, id);
        var u := User(id, s.rows[id].pub);
        AnswerDistinct(s.(tasks := s.tasks + [UpdateOps(u)], selected := s.selected + {u}), k, Some(u));
      } else {
        AnswerDistinct(s, k, None);
      }
    case InsertsRow(n) =>
      var id: int :| id !in s.rows && InsertsId(s, s', n, id);
      InsertDistinct(s.rows, n, id);
    case _ =>
  }

  /** An insertion is reached only past two selects that found nobody. */
  lemma AnswerDistinct(s: Sys, k: Then, u: Option<User>)
    requires Unique(s.rows)
    requires u.None? && k.ChecksEmail? ==> !Found(s.rows, ByName(k.n.name))
    requires k.Inserts? ==> !Found(s.rows, ByName(k.n.name)) && (u.None? ==> !Found(s.rows, ByEmail(k.n.email)))
    ensures Distinct(After(s, k, u))
  {
  }

  lemma InsertDistinct(rows: map<int, Row>, n: NewUser, id: int)
    requires Unique(rows) && !Found(rows, ByName(n.name)) && !Found(rows, ByEmail(n.email)) && id !in rows
    ensures Unique(rows[id := Row(Public(n.name, n.email, n.now, n.now), n.hash.GetOr(""))])
  {
    NobodyNamed(rows, n.name, n.email);
  }

  ghost predicate PlainStep(s: Sys, s': Sys)
  {
    || CallerStep(s, s')
    || (exists i: nat :: TaskStep(s, s', i))
    || (exists u, hash, now :: PasswordStep(s, s', u, hash, now))
  }

  lemma PasswordDistinct(s: Sys, s': Sys, u: User, hash: string, now: Time)
    requires Distinct(s) && PasswordStep(s, s', u, hash, now)
    ensures Distinct(s')
  {
  }

  ghost predicate PlainRun(run: seq<Sys>)
  {
    && run != [] && run[0].phase.Ready? && Unique(run[0].rows)
    && forall i, j :: 0 <= i && j == i + 1 < |run| ==> PlainStep(run[i], run[j])
  }

  lemma {:induction false} RunsStayDistinct(run: seq<Sys>, i: nat)
    requires PlainRun(run) && i < |run|
    ensures Distinct(run[i])
  {
    if i > 0 {
      var j := i - 1;
      RunsStayDistinct(run, j);
      assert PlainStep(run[j], run[i]);
      if t: nat :| TaskStep(run[j], run[i], t) {
        StaysDistinct(run[j], run[i], t);
      } else if u, hash, now :| PasswordStep(run[j], run[i], u, hash, now) {
        PasswordDistinct(run[j], run[i], u, hash, now);
      } else {
        StaysDistinct(run[j], run[i], 0);
      }
    }
  }

  // ---------------------------------------------------------------- provenance

  /** pub under key is the public part of a selected or accepted record, and key names
      that record: by name, by email, by its id, or by the id 0 of a copy read back from
      the cache. */
  ghost predicate Justified(s: Sys, key: string, pub: Public)
  {
    exists u :: u in s.selected && u.pub == pub && (key in KeysOf(u) || key == CacheKey(Decimal.OfInt(0)))
  }

  ghost predicate JustifiedOp(s: Sys, op: CacheOp)
  {
    op.Put? ==> Justified(s, op.key, op.pub)
  }

  ghost predicate Provenance(s: Sys)
  {
    && (forall key :: key in s.cache ==> Justified(s, key, s.cache[key]))
    && forall i, j :: 0 <= i < |s.tasks| && 0 <= j < |s.tasks[i]| ==> JustifiedOp(s, s.tasks[i][j])
  }

  ghost predicate AnyStep(s: Sys, s': Sys)
  {
    || CallerStep(s, s')
    || (exists i: nat :: TaskStep(s, s', i))
    || (exists u, now :: UpdateStep(s, s', u, now))
    || (exists u, hash, now :: PasswordStep(s, s', u, hash, now))
    || (exists id :: ListStep(s, s', id))
  }

  /** Spawning a goroutine with justified writes keeps provenance. */
  lemma SpawnJustified(s: Sys, s': Sys, ops: seq<CacheOp>)
    requires Provenance(s) && s.selected <= s'.selected && s'.cache == s.cache && s'.tasks == s.tasks + [ops]
    requires forall j :: 0 <= j < |ops| ==> JustifiedOp(s', ops[j])
    ensures Provenance(s')
  {
    forall key | key in s'.cache
      ensures Justified(s', key, s'.cache[key])
    {
      StillJustified(s, s', key, s.cache[key]);
    }
    forall i, j | 0 <= i < |s'.tasks| && 0 <= j < |s'.tasks[i]|
      ensures JustifiedOp(s', s'.tasks[i][j])
    {
      if i < |s.tasks| {
        assert JustifiedOp(s, s.tasks[i][j]);
        if s.tasks[i][j].Put? { StillJustified(s, s', s.tasks[i][j].key, s.tasks[i][j].pub); }
      }
    }
  }

  lemma StillJustified(s: Sys, s': Sys, key: string, pub: Public)
    requires Justified(s, key, pub) && s.selected <= s'.selected
    ensures Justified(s', key, pub)
  {
    var u :| u in s.selected && u.pub == pub && (key in KeysOf(u) || key == CacheKey(Decimal.OfInt(0)));
    assert u in s'.selected;
  }

  /** The writes of updateCache for a record, or for a copy of it that has lost its id. */
  lemma UpdateJustified(s: Sys, u: User, original: User)
    requires original in s.selected && original.pub == u.pub && (u == original || u.id == 0)
    ensures forall j :: 0 <= j < |UpdateOps(u)| ==> JustifiedOp(s, UpdateOps(u)[j])
  {
    forall j | 0 <= j < |UpdateOps(u)|
      ensures JustifiedOp(s, UpdateOps(u)[j])
    {
      var key := UpdateOps(u)[j].key;
      assert key == KeysOf(u)[j];
      assert key in KeysOf(original) || key == CacheKey(Decimal.OfInt(0)) by {
        assert KeysOf(original)[0] == KeysOf(u)[0] && KeysOf(original)[1] == KeysOf(u)[1];
      }
    }
  }

  lemma TaskKeeps(s: Sys, s': Sys, i: nat)
    requires Provenance(s) && TaskStep(s, s', i)
    ensures Provenance(s')
  {
    var op := s.tasks[i][0];
    assert JustifiedOp(s, op);
    forall key | key in s'.cache
      ensures Justified(s', key, s'.cache[key])
    {
      if s.active && op == Put(key, s'.cache[key]) {
        StillJustified(s, s', key, op.pub);
      } else {
        StillJustified(s, s', key, s.cache[key]);
      }
    }
    forall a, b | 0 <= a < |s'.tasks| && 0 <= b < |s'.tasks[a]|
      ensures JustifiedOp(s', s'.tasks[a][b])
    {
      var was := if a == i then s.tasks[i][b + 1] else s.tasks[a][b];
      assert s'.tasks[a][b] == was && JustifiedOp(s, was);
      if was.Put? { StillJustified(s, s', was.key, was.pub); }
    }
  }

  /** Going on with a user that is a selected record or a copy of one. */
  lemma AfterKeeps(s: Sys, k: Then, u: Option<User>)
    requires Provenance(s)
    requires u.Some? ==> exists o :: o in s.selected && o.pub == u.value.pub && (u.value == o || u.value.id == 0)
    ensures Provenance(After(s, k, u))
  {
    var s' := After(s, k, u);
    if u.Some? && k.Caches? {
      var o :| o in s.selected && o.pub == u.value.pub && (u.value == o || u.value.id == 0);
      UpdateJustified(s', u.value, o);
      SpawnJustified(s, s', UpdateOps(u.value));
    } else if u.Some? && k.Deletes? {
      SpawnJustified(s, s', ClearOps(u.value));
    } else {
      SameEntries(s, s');
    }
  }

  lemma SameEntries(s: Sys, s': Sys)
    requires Provenance(s) && s'.cache == s.cache && s'.tasks == s.tasks && s'.selected == s.selected
    ensures Provenance(s')
  {
    forall key | key in s'.cache
      ensures Justified(s', key, s'.cache[key])
    {
      StillJustified(s, s', key, s.cache[key]);
    }
    forall i, j | 0 <= i < |s'.tasks| && 0 <= j < |s'.tasks[i]|
      ensures JustifiedOp(s', s'.tasks[i][j])
    {
      var op := s.tasks[i][j];
      assert JustifiedOp(s, op);
      if op.Put? { StillJustified(s, s', op.key, op.pub); }
    }
  }

  lemma SelectKeeps(s: Sys, s': Sys, w: Where, k: Then, id: int)
    requires Provenance(s) && SelectsId(s, s', w, k, id)
    ensures Provenance(s')
  {
    var u := User(id, s.rows[id].pub);
    var mid := s.(tasks := s.tasks + [UpdateOps(u)], selected := s.selected + {u});
    UpdateJustified(mid, u, u);
    SpawnJustified(s, mid, UpdateOps(u));
    AfterKeeps(mid, k, Some(u));
  }

  lemma CallerKeeps(s: Sys, s': Sys)
    requires Provenance(s) && CallerStep(s, s')
    ensures Provenance(s')
  {
    match s.phase
    case ReadsCache(w, k) =>
      var key := CacheKey(KeyOf(w));
      if s.active && key in s.cache {
        assert Justified(s, key, s.cache[key]);
        AfterKeeps(s, k, Some(User(0, s.cache[key])));
      } else {
        SameEntries(s, s');
      }
    case SelectsRow(w, k) =>
      if Found(s.rows, w) {
        var id :| SelectsId(s, s', w, k, id);
        SelectKeeps(s, s', w, k, id);
      } else {
        AfterKeeps(s, k, None);
      }
    case _ =>
      SameEntries(s, s');
  }

  /** Under any schedule every cache entry, and every write still to come, is justified. */
  lemma ProvenanceKept(s: Sys, s': Sys)
    requires Provenance(s) && AnyStep(s, s')
    ensures Provenance(s')
  {
    if CallerStep(s, s') {
      CallerKeeps(s, s');
    } else if i: nat :| TaskStep(s, s', i) {
      TaskKeeps(s, s', i);
    } else if u, now :| UpdateStep(s, s', u, now) {
      UpdateJustified(s', u, u);
      SpawnJustified(s, s', UpdateOps(u));
    } else if u, hash, now :| PasswordStep(s, s', u, hash, now) {
      UpdateJustified(s', u, u);
      SpawnJustified(s, s', UpdateOps(u));
    } else {
      var id :| ListStep(s, s', id);
      var u := User(0, s.rows[id].pub.(updated := 0));
      UpdateJustified(s', u, u);
      SpawnJustified(s, s', UpdateOps(u));
    }
  }

  ghost predicate AnyRun(run: seq<Sys>)
  {
    && run != [] && run[0].cache == map[] && run[0].tasks == []
    && forall i, j :: 0 <= i && j == i + 1 < |run| ==> AnyStep(run[i], run[j])
  }

  lemma {:induction false} RunsKeepProvenance(run: seq<Sys>, i: nat)
    requires AnyRun(run) && i < |run|
    ensures Provenance(run[i])
  {
    if i > 0 {
      var j := i - 1;
      RunsKeepProvenance(run, j);
      assert AnyStep(run[j], run[i]);
      ProvenanceKept(run[j], run[i]);
    }
  }
}
