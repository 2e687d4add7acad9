/** UserDB: a table of users with a read-through cache that goroutines keep up to date. */
module Users {
  import opened Text
  import Decimal

  type Time = int

  /** The fields of a user that survive JSON. The id does not: it is unexported. */
  datatype Public = Public(name: string, email: string, created: Time, updated: Time)

  datatype User = User(id: int, pub: Public)

  datatype Row = Row(pub: Public, password: string)

  datatype UserError = ErrUserExists | ErrSpaces | ErrCreateUser | ErrNoUser

  datatype Result<+T> = Ok(value: T) | Err(error: UserError)

  /** One write to the cache. */
  datatype CacheOp = Put(key: string, pub: Public) | Drop(key: string)

  function CacheKey(k: string): string { "user_" + k }

  function KeysOf(u: User): (ks: seq<string>)
  {
    [CacheKey(u.pub.name), CacheKey(u.pub.email), CacheKey(Decimal.OfInt(u.id))]
  }

  /** The writes of updateCache and clearCache, in order. */
  function UpdateOps(u: User): seq<CacheOp>
  {
    [Put(KeysOf(u)[0], u.pub), Put(KeysOf(u)[1], u.pub), Put(KeysOf(u)[2], u.pub)]
  }

  function ClearOps(u: User): seq<CacheOp>
  {
    [Drop(KeysOf(u)[0]), Drop(KeysOf(u)[1]), Drop(KeysOf(u)[2])]
  }

  function RunOp(cache: map<string, Public>, op: CacheOp): map<string, Public>
  {
    match op
    case Put(k, p) => cache[k := p]
    case Drop(k) => cache - {k}
  }

  function RunOps(cache: map<string, Public>, ops: seq<CacheOp>): map<string, Public>
    decreases |ops|
  {
    if ops == [] then cache else RunOps(RunOp(cache, ops[0]), ops[1..])
  }

  lemma {:induction false} RunOpsConcat(cache: map<string, Public>, a: seq<CacheOp>, b: seq<CacheOp>)
    ensures RunOps(cache, a + b) == RunOps(RunOps(cache, a), b)
    decreases |a|
  {
    if a == [] {
      assert a + b == b;
    } else {
      assert (a + b)[1..] == a[1..] + b;
      RunOpsConcat(RunOp(cache, a[0]), a[1..], b);
    }
  }

  /** The three conditions a Select filters by. */
  datatype Where = ByName(name: string) | ByEmail(email: string) | ById(id: int)

  predicate Selects(w: Where, id: int, row: Row)
  {
    match w
    case ByName(n) => row.pub.name == n
    case ByEmail(e) => row.pub.email == e
    case ById(i) => id == i
  }

  function KeyOf(w: Where): string
  {
    match w case ByName(n) => n case ByEmail(e) => e case ById(i) => Decimal.OfInt(i)
  }

  ghost predicate Found(rows: map<int, Row>, w: Where)
  {
    exists id :: id in rows && Selects(w, id, rows[id])
  }

  /** SELECT ... LIMIT 1: some row that satisfies the condition. */
  ghost function SelectOne(rows: map<int, Row>, w: Where): (id: int)
    requires Found(rows, w)
    ensures id in rows && Selects(w, id, rows[id])
  {
    var id :| id in rows && Selects(w, id, rows[id]);
    id
  }

  /** The table, the cache once all pending writes have run, and, for the statements
      only, the public fields of every row ever inserted. */
  datatype Db = Db(rows: map<int, Row>, cache: map<string, Public>, active: bool, ever: map<int, Public>)

  function AfterOps(db: Db, ops: seq<CacheOp>): Db
  {
    if db.active then db.(cache := RunOps(db.cache, ops)) else db
  }

  /** GetByName, GetByEmail and GetById: the cache first, whose users have lost their
      id, then the table, whose answer is cached. */
  ghost function Get(db: Db, w: Where): (Db, Option<User>)
  {
    if db.active && CacheKey(KeyOf(w)) in db.cache then
      (db, Some(User(0, db.cache[CacheKey(KeyOf(w))])))
    else if Found(db.rows, w) then
      var id := SelectOne(db.rows, w);
      var u := User(id, db.rows[id].pub);
      (AfterOps(db, UpdateOps(u)), Some(u))
    else (db, None)
  }

  predicate HasSpace(name: string) { ' ' in name || '\t' in name || '\r' in name }

  /** Create; newId is the id the table gives the row, hash what encryption returned. */
  ghost function Create(db: Db, name: string, email: string, hash: Option<string>, now: Time, newId: int): (Db, Result<User>)
  {
    var byName := Get(db, ByName(name));
    if byName.1.Some? then (byName.0, Err(ErrUserExists))
    else
      var byEmail := Get(byName.0, ByEmail(email));
      if byEmail.1.Some? then (byEmail.0, Err(ErrUserExists))
      else if HasSpace(name) then (byEmail.0, Err(ErrSpaces))
      else if hash.None? then (byEmail.0, Err(ErrCreateUser))
      else
        var row := Row(Public(name, email, now, now), hash.value);
        var inserted := byEmail.0.(rows := byEmail.0.rows[newId := row], ever := byEmail.0.ever[newId := row.pub]);
        var again := Get(inserted, ByName(name));
        match again.1
        case None => (again.0, Err(ErrCreateUser))
        case Some(u) => (AfterOps(again.0, UpdateOps(u)), Ok(u))
  }

  function Without(rows: map<int, Row>, w: Where): map<int, Row>
  {
    map id | id in rows && !Selects(w, id, rows[id]) :: rows[id]
  }

  /** DeleteById and DeleteByName. */
  ghost function Delete(db: Db, w: Where): (Db, Option<UserError>)
  {
    var got := Get(db, w);
    match got.1
    case None => (got.0, Some(ErrNoUser))
    case Some(u) =>
      var cleared := AfterOps(got.0, ClearOps(u));
      (cleared.(rows := Without(cleared.rows, w)), None)
  }

  /** Update writes the row with the user's in-memory id, if there is one, and caches the
      user as given. */
  function Update(db: Db, u: User, now: Time): Db
  {
    var rows := if u.id in db.rows then db.rows[u.id := db.rows[u.id].(pub := db.rows[u.id].pub.(name := u.pub.name, email := u.pub.email, updated := now))]
                else db.rows;
    AfterOps(db.(rows := rows), UpdateOps(u))
  }

  // ---------------------------------------------------------------- coherence

  /** The names and emails in use, kept apart from each other and from decimal ids. */
  datatype Names = Names(names: set<string>, emails: set<string>)

  ghost predicate Apart(ns: Names)
  {
    && ns.names !! ns.emails
    && (forall s :: s in ns.names || s in ns.emails ==> s != "")
    && (forall i: int :: Decimal.OfInt(i) !in ns.names && Decimal.OfInt(i) !in ns.emails)
  }

  /** No two rows share a name or an email. */
  ghost predicate Unique(rows: map<int, Row>)
  {
    forall i, j :: i in rows && j in rows && i != j ==>
      rows[i].pub.name != rows[j].pub.name && rows[i].pub.email != rows[j].pub.email
  }

  ghost predicate Live(rows: map<int, Row>, id: int, pub: Public)
  {
    id in rows && rows[id].pub == pub
  }

  /** What a cache entry may hold: under a name or an email, the public fields of the live
      row with that name or email; under an id, those of the row ever inserted with it. */
  ghost predicate EntryOk(db: Db, ns: Names, key: string, pub: Public)
  {
    || (key == CacheKey(pub.name) && pub.name in ns.names && exists id :: Live(db.rows, id, pub))
    || (key == CacheKey(pub.email) && pub.email in ns.emails && exists id :: Live(db.rows, id, pub))
    || exists id :: id in db.ever && key == CacheKey(Decimal.OfInt(id)) && pub == db.ever[id]
  }

  ghost predicate Coherent(db: Db, ns: Names)
  {
    && Unique(db.rows)
    && (forall id :: id in db.rows ==> id in db.ever && db.rows[id].pub == db.ever[id])
    && (forall id :: id in db.ever ==> id > 0 && db.ever[id].name in ns.names && db.ever[id].email in ns.emails)
    && (!db.active ==> db.cache == map[])
    && (forall key :: key in db.cache ==> EntryOk(db, ns, key, db.cache[key]))
  }

  /** The keys of names, emails and ids never clash. */
  lemma KeysApart(ns: Names, k: string, l: string)
    ensures CacheKey(k) == CacheKey(l) <==> k == l
  {
    assert CacheKey(k)[5..] == k && CacheKey(l)[5..] == l;
  }

  lemma RunOps3(cache: map<string, Public>, a: CacheOp, b: CacheOp, c: CacheOp)
    ensures RunOps(cache, [a, b, c]) == RunOp(RunOp(RunOp(cache, a), b), c)
  {
    assert [a, b, c][1..] == [b, c] && [b, c][1..] == [c] && [c][1..] == [];
    assert forall m :: RunOps(m, [c]) == RunOp(m, c);
    assert forall m :: RunOps(m, [b, c]) == RunOps(RunOp(m, b), [c]);
  }

  /** Caching a live row keeps the cache coherent. */
  lemma CachingKeeps(db: Db, ns: Names, id: int)
    requires Coherent(db, ns) && id in db.rows
    ensures Coherent(AfterOps(db, UpdateOps(User(id, db.rows[id].pub))), ns)
  {
    var u := User(id, db.rows[id].pub);
    var ops := UpdateOps(u);
    RunOps3(db.cache, ops[0], ops[1], ops[2]);
    assert Live(db.rows, id, u.pub);
    forall key | key in AfterOps(db, ops).cache
      ensures EntryOk(db, ns, key, AfterOps(db, ops).cache[key])
    {
    }
  }

  /** A lookup keeps the database coherent and never touches the table. */
  lemma GetKeeps(db: Db, ns: Names, w: Where)
    requires Coherent(db, ns)
    ensures Coherent(Get(db, w).0, ns) && Get(db, w).0.rows == db.rows && Get(db, w).0.ever == db.ever
    ensures Get(db, w).0.active == db.active
  {
    if !(db.active && CacheKey(KeyOf(w)) in db.cache) && Found(db.rows, w) {
      CachingKeeps(db, ns, SelectOne(db.rows, w));
    }
  }

  /** Lookups by name and by email are transparent: they find a user exactly when the
      table has a row for it, and return that row's public fields. */
  lemma LookupIsExact(db: Db, ns: Names, w: Where)
    requires Coherent(db, ns) && Apart(ns)
    requires (w.ByName? && w.name in ns.names) || (w.ByEmail? && w.email in ns.emails)
    ensures Get(db, w).1.Some? <==> Found(db.rows, w)
    ensures Get(db, w).1.Some? ==> Live(db.rows, SelectOne(db.rows, w), Get(db, w).1.value.pub)
  {
    var key := CacheKey(KeyOf(w));
    if db.active && key in db.cache {
      assert EntryOk(db, ns, key, db.cache[key]);
      CachedIsLive(db, ns, w, db.cache[key]);
    }
  }

  lemma CachedIsLive(db: Db, ns: Names, w: Where, pub: Public)
    requires Coherent(db, ns) && Apart(ns) && EntryOk(db, ns, CacheKey(KeyOf(w)), pub)
    requires (w.ByName? && w.name in ns.names) || (w.ByEmail? && w.email in ns.emails)
    ensures Found(db.rows, w) && Live(db.rows, SelectOne(db.rows, w), pub)
  {
    KeysApart(ns, KeyOf(w), pub.name);
    KeysApart(ns, KeyOf(w), pub.email);
    forall id: int
      ensures CacheKey(KeyOf(w)) != CacheKey(Decimal.OfInt(id))
    {
      KeysApart(ns, KeyOf(w), Decimal.OfInt(id));
    }
    var id :| Live(db.rows, id, pub);
    assert Selects(w, id, db.rows[id]);
  }

  /** A lookup by id is answered from the table or from a stale entry: it finds a user
      exactly when the row is there or its key is still cached, and what it returns are
      the public fields once inserted under that id. */
  lemma LookupById(db: Db, ns: Names, id: int)
    requires Coherent(db, ns) && Apart(ns)
    ensures Get(db, ById(id)).1.Some? <==> id in db.rows || CacheKey(Decimal.OfInt(id)) in db.cache
    ensures Get(db, ById(id)).1.Some? ==> id in db.ever && Get(db, ById(id)).1.value.pub == db.ever[id]
  {
    var key := CacheKey(Decimal.OfInt(id));
    if id in db.rows { assert Selects(ById(id), id, db.rows[id]); }
    if key in db.cache {
      IdEntry(db, ns, id);
    }
  }

  lemma IdEntry(db: Db, ns: Names, id: int)
    requires Coherent(db, ns) && Apart(ns) && CacheKey(Decimal.OfInt(id)) in db.cache
    ensures id in db.ever && db.cache[CacheKey(Decimal.OfInt(id))] == db.ever[id]
  {
    var key := CacheKey(Decimal.OfInt(id));
    var pub := db.cache[key];
    assert EntryOk(db, ns, key, pub);
    KeysApart(ns, Decimal.OfInt(id), pub.name);
    KeysApart(ns, Decimal.OfInt(id), pub.email);
    var i :| i in db.ever && key == CacheKey(Decimal.OfInt(i)) && pub == db.ever[i];
    KeysApart(ns, Decimal.OfInt(id), Decimal.OfInt(i));
    Decimal.OfIntInjective(id, i);
  }

  // ---------------------------------------------------------------- every call keeps coherence

  lemma NobodyNamed(rows: map<int, Row>, name: string, email: string)
    requires !Found(rows, ByName(name)) && !Found(rows, ByEmail(email))
    ensures forall i :: i in rows ==> rows[i].pub.name != name && rows[i].pub.email != email
  {
    forall i | i in rows
      ensures rows[i].pub.name != name && rows[i].pub.email != email
    {
      assert !Selects(ByName(name), i, rows[i]);
      assert !Selects(ByEmail(email), i, rows[i]);
    }
  }

  lemma InsertKeeps(db: Db, ns: Names, name: string, email: string, hash: string, now: Time, newId: int)
    requires Coherent(db, ns) && name in ns.names && email in ns.emails
    requires newId > 0 && newId !in db.ever
    requires !Found(db.rows, ByName(name)) && !Found(db.rows, ByEmail(email))
    ensures var row := Row(Public(name, email, now, now), hash);
            Coherent(db.(rows := db.rows[newId := row], ever := db.ever[newId := row.pub]), ns)
  {
    var row := Row(Public(name, email, now, now), hash);
    var db' := db.(rows := db.rows[newId := row], ever := db.ever[newId := row.pub]);
    NobodyNamed(db.rows, name, email);
    forall key | key in db'.cache
      ensures EntryOk(db', ns, key, db'.cache[key])
    {
      EntryGrows(db, db', ns, key, db.cache[key]);
    }
  }

  lemma EntryGrows(db: Db, db': Db, ns: Names, key: string, pub: Public)
    requires EntryOk(db, ns, key, pub)
    requires forall id :: id in db.rows ==> id in db'.rows && db'.rows[id] == db.rows[id]
    requires forall id :: id in db.ever ==> id in db'.ever && db'.ever[id] == db.ever[id]
    ensures EntryOk(db', ns, key, pub)
  {
    if exists id :: Live(db.rows, id, pub) {
      var id :| Live(db.rows, id, pub);
      assert Live(db'.rows, id, pub);
    }
  }

  lemma CreateKeeps(db: Db, ns: Names, name: string, email: string, hash: Option<string>, now: Time, newId: int)
    requires Coherent(db, ns) && Apart(ns) && name in ns.names && email in ns.emails
    requires newId > 0 && newId !in db.ever
    ensures Coherent(Create(db, name, email, hash, now, newId).0, ns)
    ensures db.ever.Keys <= Create(db, name, email, hash, now, newId).0.ever.Keys <= db.ever.Keys + {newId}
  {
    LookupIsExact(db, ns, ByName(name));
    GetKeeps(db, ns, ByName(name));
    if Get(db, ByName(name)).1.None? {
      var db1 := Get(db, ByName(name)).0;
      LookupIsExact(db1, ns, ByEmail(email));
      GetKeeps(db1, ns, ByEmail(email));
      if Get(db1, ByEmail(email)).1.None? && !HasSpace(name) && hash.Some? {
        CreateInserts(Get(db1, ByEmail(email)).0, ns, name, email, hash.value, now, newId);
      }
    }
  }

  lemma CreateInserts(db: Db, ns: Names, name: string, email: string, hash: string, now: Time, newId: int)
    requires Coherent(db, ns) && Apart(ns) && name in ns.names && email in ns.emails
    requires newId > 0 && newId !in db.ever
    requires !Found(db.rows, ByName(name)) && !Found(db.rows, ByEmail(email))
    ensures var row := Row(Public(name, email, now, now), hash);
            var inserted := db.(rows := db.rows[newId := row], ever := db.ever[newId := row.pub]);
            var again := Get(inserted, ByName(name));
            && again.1 == Some(User(newId, row.pub)) && Coherent(again.0, ns)
            && Coherent(AfterOps(again.0, UpdateOps(again.1.value)), ns)
  {
    var row := Row(Public(name, email, now, now), hash);
    var inserted := db.(rows := db.rows[newId := row], ever := db.ever[newId := row.pub]);
    InsertKeeps(db, ns, name, email, hash, now, newId);
    assert Selects(ByName(name), newId, inserted.rows[newId]);
    forall i | i in db.rows
      ensures db.rows[i].pub.name != name
    {
      assert !Selects(ByName(name), i, db.rows[i]);
    }
    if db.active && CacheKey(name) in db.cache {
      assert EntryOk(db, ns, CacheKey(name), db.cache[CacheKey(name)]);
      CachedIsLive(db, ns, ByName(name), db.cache[CacheKey(name)]);
    }
    GetKeeps(inserted, ns, ByName(name));
    CachingKeeps(Get(inserted, ByName(name)).0, ns, newId);
  }

  /** The user found for a deletion carries the public fields of every row deleted. */
  lemma DeletedUser(db: Db, ns: Names, w: Where, id: int)
    requires Coherent(db, ns) && Apart(ns) && (w.ByName? ==> w.name in ns.names) && !w.ByEmail?
    requires Get(db, w).1.Some? && id in db.rows && Selects(w, id, db.rows[id])
    ensures db.rows[id].pub == Get(db, w).1.value.pub
  {
    match w {
      case ByName(n) => LookupIsExact(db, ns, w);
      case ById(i) => LookupById(db, ns, i);
    }
  }

  lemma DeleteKeeps(db: Db, ns: Names, w: Where)
    requires Coherent(db, ns) && Apart(ns) && (w.ByName? ==> w.name in ns.names) && !w.ByEmail?
    ensures Coherent(Delete(db, w).0, ns) && Delete(db, w).0.ever == db.ever
  {
    GetKeeps(db, ns, w);
    if Get(db, w).1.Some? {
      var got := Get(db, w);
      var u := got.1.value;
      var ops := ClearOps(u);
      RunOps3(got.0.cache, ops[0], ops[1], ops[2]);
      var db' := Delete(db, w).0;
      forall key | key in db'.cache
        ensures EntryOk(db', ns, key, db'.cache[key])
      {
        assert EntryOk(got.0, ns, key, got.0.cache[key]);
        EntrySurvives(db, got.0, db', ns, w, u, key);
      }
    }
  }

  lemma EntrySurvives(db: Db, got: Db, db': Db, ns: Names, w: Where, u: User, key: string)
    requires Coherent(db, ns) && Apart(ns) && (w.ByName? ==> w.name in ns.names) && !w.ByEmail?
    requires Get(db, w) == (got, Some(u)) && got.rows == db.rows && got.ever == db.ever
    requires db'.rows == Without(db.rows, w) && db'.ever == db.ever
    requires key in got.cache && EntryOk(got, ns, key, got.cache[key])
    requires key != CacheKey(u.pub.name) && key != CacheKey(u.pub.email)
    ensures EntryOk(db', ns, key, got.cache[key])
  {
    var pub := got.cache[key];
    if id :| id in db.ever && key == CacheKey(Decimal.OfInt(id)) && pub == db.ever[id] {
      assert id in db'.ever;
    } else {
      var id :| Live(got.rows, id, pub);
      if Selects(w, id, db.rows[id]) { DeletedUser(db, ns, w, id); }
      assert Live(db'.rows, id, pub);
    }
  }

  // ---------------------------------------------------------------- runs

  datatype Call =
    | CreateCall(name: string, email: string, hash: Option<string>, now: Time, newId: int)
    | GetCall(w: Where)
    | DeleteCall(w: Where)

  /** The table hands out fresh positive ids; keys keep to their kinds. */
  ghost predicate Allowed(db: Db, ns: Names, c: Call)
  {
    match c
    case CreateCall(name, email, _, _, newId) => name in ns.names && email in ns.emails && newId > 0 && newId !in db.ever
    case GetCall(_) => true
    case DeleteCall(w) => !w.ByEmail? && (w.ByName? ==> w.name in ns.names)
  }

  ghost function Exec(db: Db, c: Call): Db
  {
    match c
    case CreateCall(name, email, hash, now, newId) => Create(db, name, email, hash, now, newId).0
    case GetCall(w) => Get(db, w).0
    case DeleteCall(w) => Delete(db, w).0
  }

  ghost predicate AllowedRun(db: Db, ns: Names, calls: seq<Call>)
    decreases |calls|
  {
    calls == [] || (Allowed(db, ns, calls[0]) && AllowedRun(Exec(db, calls[0]), ns, calls[1..]))
  }

  ghost function RunCalls(db: Db, calls: seq<Call>): Db
    decreases |calls|
  {
    if calls == [] then db else RunCalls(Exec(db, calls[0]), calls[1..])
  }

  /** After any run of calls the cache is coherent, so lookups by name and email are exact
      and lookups by id return what was once inserted under that id. */
  lemma {:induction false} RunsAreCoherent(db: Db, ns: Names, calls: seq<Call>)
    requires Coherent(db, ns) && Apart(ns) && AllowedRun(db, ns, calls)
    ensures Coherent(RunCalls(db, calls), ns)
    decreases |calls|
  {
    if calls != [] {
      match calls[0] {
        case CreateCall(name, email, hash, now, newId) => CreateKeeps(db, ns, name, email, hash, now, newId);
        case GetCall(w) => GetKeeps(db, ns, w);
        case DeleteCall(w) => DeleteKeeps(db, ns, w);
      }
      RunsAreCoherent(Exec(db, calls[0]), ns, calls[1..]);
    }
  }

  /** From an empty table and cache every allowed run is coherent throughout. */
  lemma RunsFromEmpty(active: bool, ns: Names, calls: seq<Call>)
    requires Apart(ns) && AllowedRun(Db(map[], map[], active, map[]), ns, calls)
    ensures Coherent(RunCalls(Db(map[], map[], active, map[]), calls), ns)
  {
    RunsAreCoherent(Db(map[], map[], active, map[]), ns, calls);
  }

  // ---------------------------------------------------------------- what a deletion and a rename leave behind

  /** The only row that satisfies a condition on an id or a name. */
  lemma OneSelected(db: Db, ns: Names, w: Where, id: int, other: int)
    requires Coherent(db, ns) && id in db.rows && Selects(w, id, db.rows[id])
    requires other in db.rows && Selects(w, other, db.rows[other])
    ensures other == id
  {
  }

  /** The keys of a row's name, email and id are three different keys, and none is that of id 0. */
  lemma RowKeysApart(db: Db, ns: Names, id: int)
    requires Coherent(db, ns) && Apart(ns) && id in db.ever
    ensures CacheKey(Decimal.OfInt(id)) != CacheKey(db.ever[id].name)
    ensures CacheKey(Decimal.OfInt(id)) != CacheKey(db.ever[id].email)
    ensures CacheKey(Decimal.OfInt(id)) != CacheKey(Decimal.OfInt(0))
  {
    KeysApart(ns, Decimal.OfInt(id), db.ever[id].name);
    KeysApart(ns, Decimal.OfInt(id), db.ever[id].email);
    KeysApart(ns, Decimal.OfInt(id), Decimal.OfInt(0));
    if Decimal.OfInt(id) == Decimal.OfInt(0) { Decimal.OfIntInjective(id, 0); }
  }

  /** A deletion hides the deleted row from lookups by its id exactly when it was not
      answered from the cache while the id's own key was cached. */
  lemma DeletionHidesIdExactly(db: Db, ns: Names, w: Where, id: int)
    requires Coherent(db, ns) && Apart(ns) && (w.ByName? ==> w.name in ns.names) && !w.ByEmail?
    requires id in db.rows && Selects(w, id, db.rows[id])
    ensures Get(Delete(db, w).0, ById(id)).1.None? <==>
            !(CacheKey(KeyOf(w)) in db.cache && CacheKey(Decimal.OfInt(id)) in db.cache)
  {
    assert Found(db.rows, w);
    RowKeysApart(db, ns, id);
    if CacheKey(KeyOf(w)) in db.cache {
      DeletedUser(db, ns, w, id);
      DeletionFromCache(db, w, id, db.cache[CacheKey(KeyOf(w))]);
    } else {
      OneSelected(db, ns, w, id, SelectOne(db.rows, w));
      DeletionFromTable(db, w, id);
    }
  }

  /** A deletion answered from the cache clears the key of id 0 and leaves that of the row's id. */
  lemma DeletionFromCache(db: Db, w: Where, id: int, pub: Public)
    requires db.active && CacheKey(KeyOf(w)) in db.cache && db.cache[CacheKey(KeyOf(w))] == pub
    requires id in db.rows && Selects(w, id, db.rows[id])
    requires CacheKey(Decimal.OfInt(id)) !in {CacheKey(pub.name), CacheKey(pub.email), CacheKey(Decimal.OfInt(0))}
    ensures Get(Delete(db, w).0, ById(id)).1.None? <==> CacheKey(Decimal.OfInt(id)) !in db.cache
  {
    var ops := ClearOps(User(0, pub));
    RunOps3(db.cache, ops[0], ops[1], ops[2]);
  }

  /** One answered from the table clears the key of the row's id. */
  lemma DeletionFromTable(db: Db, w: Where, id: int)
    requires CacheKey(KeyOf(w)) !in db.cache && Found(db.rows, w) && SelectOne(db.rows, w) == id
    requires !db.active ==> db.cache == map[]
    ensures Get(Delete(db, w).0, ById(id)).1.None?
  {
    var u := User(id, db.rows[id].pub);
    var ops := ClearOps(u);
    RunOps3(Get(db, w).0.cache, ops[0], ops[1], ops[2]);
  }

  /** Lookups by the deleted row's name or email never find it. */
  lemma DeletionHidesNames(db: Db, ns: Names, w: Where, id: int)
    requires Coherent(db, ns) && Apart(ns) && (w.ByName? ==> w.name in ns.names) && !w.ByEmail?
    requires id in db.rows && Selects(w, id, db.rows[id])
    ensures Get(Delete(db, w).0, ByName(db.rows[id].pub.name)).1.None?
    ensures Get(Delete(db, w).0, ByEmail(db.rows[id].pub.email)).1.None?
  {
    var db' := Delete(db, w).0;
    DeleteKeeps(db, ns, w);
    GetKeeps(db, ns, w);
    assert Found(db.rows, w);
    DeletedUser(db, ns, w, id);
    LookupIsExact(db', ns, ByName(db.rows[id].pub.name));
    LookupIsExact(db', ns, ByEmail(db.rows[id].pub.email));
  }

  /** After an update that replaces a name no row has the old one, and lookups by it find
      nobody exactly when it was not cached; likewise for the email. */
  lemma UpdateHidesOldKeysExactly(db: Db, ns: Names, id: int, pub: Public, now: Time)
    requires Coherent(db, ns) && Apart(ns) && id in db.rows && pub.name in ns.names && pub.email in ns.emails
    ensures var old_, db' := db.rows[id].pub, Update(db, User(id, pub), now);
      && (pub.name != old_.name ==>
           !Found(db'.rows, ByName(old_.name)) &&
           (Get(db', ByName(old_.name)).1.None? <==> CacheKey(old_.name) !in db.cache))
      && (pub.email != old_.email ==>
           !Found(db'.rows, ByEmail(old_.email)) &&
           (Get(db', ByEmail(old_.email)).1.None? <==> CacheKey(old_.email) !in db.cache))
  {
    var was := db.rows[id].pub;
    if pub.name != was.name { OldKeyStays(db, ns, id, pub, now, ByName(was.name)); }
    if pub.email != was.email { OldKeyStays(db, ns, id, pub, now, ByEmail(was.email)); }
  }

  lemma OldKeyStays(db: Db, ns: Names, id: int, pub: Public, now: Time, w: Where)
    requires Coherent(db, ns) && Apart(ns) && id in db.rows && pub.name in ns.names && pub.email in ns.emails
    requires (w == ByName(db.rows[id].pub.name) && pub.name != w.name) || (w == ByEmail(db.rows[id].pub.email) && pub.email != w.email)
    ensures !Found(Update(db, User(id, pub), now).rows, w)
    ensures Get(Update(db, User(id, pub), now), w).1.None? <==> CacheKey(KeyOf(w)) !in db.cache
  {
    var u := User(id, pub);
    var ops := UpdateOps(u);
    RunOps3(db.cache, ops[0], ops[1], ops[2]);
    KeysApart(ns, KeyOf(w), pub.name);
    KeysApart(ns, KeyOf(w), pub.email);
    KeysApart(ns, KeyOf(w), Decimal.OfInt(id));
  }

  /** Lookups by every name and every email find somebody exactly when the table does. */
  ghost predicate NamesExact(db: Db, ns: Names)
  {
    && (forall n :: n in ns.names ==> Exact(db, ByName(n)))
    && (forall e :: e in ns.emails ==> Exact(db, ByEmail(e)))
  }

  ghost predicate Exact(db: Db, w: Where)
  {
    Get(db, w).1.Some? <==> Found(db.rows, w)
  }

  /** The condition under which an update of u leaves every such lookup exact: the keys it
      replaces are not cached, and a user without a row is not new to the table. */
  predicate UpdatesCleanly(db: Db, u: User)
  {
    db.active ==>
      if u.id in db.rows then
        var was := db.rows[u.id].pub;
        && (was.name == u.pub.name || CacheKey(was.name) !in db.cache)
        && (was.email == u.pub.email || CacheKey(was.email) !in db.cache)
      else
        && (exists id :: id in db.rows && db.rows[id].pub.name == u.pub.name)
        && (exists id :: id in db.rows && db.rows[id].pub.email == u.pub.email)
  }

  /** Whether the update's own name or email, or one it replaces, is affected. */
  ghost predicate KeptBy(db: Db, u: User, w: Where)
  {
    db.active ==>
      if u.id in db.rows then
        Selects(w, u.id, db.rows[u.id]) && !Selects(w, u.id, Row(u.pub, "")) ==> CacheKey(KeyOf(w)) !in db.cache
      else Selects(w, u.id, Row(u.pub, "")) ==> Found(db.rows, w)
  }

  /** One lookup by a name or an email in use. */
  lemma UpdateKeepsExactly(db: Db, ns: Names, u: User, now: Time, w: Where)
    requires Coherent(db, ns) && Apart(ns) && u.pub.name in ns.names && u.pub.email in ns.emails
    requires (w.ByName? && w.name in ns.names) || (w.ByEmail? && w.email in ns.emails)
    ensures Exact(Update(db, u, now), w) <==> KeptBy(db, u, w)
  {
    var ops := UpdateOps(u);
    RunOps3(db.cache, ops[0], ops[1], ops[2]);
    KeysApart(ns, KeyOf(w), u.pub.name);
    KeysApart(ns, KeyOf(w), u.pub.email);
    KeysApart(ns, KeyOf(w), Decimal.OfInt(u.id));
    LookupIsExact(db, ns, w);
    UpdatedRows(db, ns, u, now, w);
  }

  /** Which rows a condition selects after the update. */
  lemma UpdatedRows(db: Db, ns: Names, u: User, now: Time, w: Where)
    requires Coherent(db, ns) && !w.ById?
    ensures var rows := Update(db, u, now).rows;
      if u.id in db.rows then
        Found(rows, w) <==> Selects(w, u.id, Row(u.pub, "")) || (Found(db.rows, w) && !Selects(w, u.id, db.rows[u.id]))
      else rows == db.rows
  {
    var rows := Update(db, u, now).rows;
    if u.id in db.rows {
      if Found(rows, w) {
        var i :| i in rows && Selects(w, i, rows[i]);
        assert i != u.id ==> Selects(w, i, db.rows[i]);
      }
      if Selects(w, u.id, Row(u.pub, "")) { assert Selects(w, u.id, rows[u.id]); }
      if Found(db.rows, w) && !Selects(w, u.id, db.rows[u.id]) {
        var i :| i in db.rows && Selects(w, i, db.rows[i]);
        assert Selects(w, i, rows[i]);
      }
    }
  }

  /** An update keeps lookups by name and email exact exactly when it is clean. A user read
      back from the cache has id 0, hence no row, and is then in the second case. */
  lemma UpdateStaysExactly(db: Db, ns: Names, u: User, now: Time)
    requires Coherent(db, ns) && Apart(ns) && u.pub.name in ns.names && u.pub.email in ns.emails
    ensures NamesExact(Update(db, u, now), ns) <==> UpdatesCleanly(db, u)
  {
    forall w: Where | (w.ByName? && w.name in ns.names) || (w.ByEmail? && w.email in ns.emails)
      ensures Exact(Update(db, u, now), w) <==> KeptBy(db, u, w)
    {
      UpdateKeepsExactly(db, ns, u, now, w);
    }
    CleanMeansKept(db, ns, u);
  }

  lemma CleanMeansKept(db: Db, ns: Names, u: User)
    requires Coherent(db, ns) && u.pub.name in ns.names && u.pub.email in ns.emails
    ensures UpdatesCleanly(db, u) <==>
      && (forall n :: n in ns.names ==> KeptBy(db, u, ByName(n)))
      && (forall e :: e in ns.emails ==> KeptBy(db, u, ByEmail(e)))
  {
    if UpdatesCleanly(db, u) {
      forall n | n in ns.names
        ensures KeptBy(db, u, ByName(n))
      {
        if db.active && u.id !in db.rows && n == u.pub.name {
          var id :| id in db.rows && db.rows[id].pub.name == u.pub.name;
          assert Selects(ByName(n), id, db.rows[id]);
        }
      }
      forall e | e in ns.emails
        ensures KeptBy(db, u, ByEmail(e))
      {
        if db.active && u.id !in db.rows && e == u.pub.email {
          var id :| id in db.rows && db.rows[id].pub.email == u.pub.email;
          assert Selects(ByEmail(e), id, db.rows[id]);
        }
      }
    } else if u.id in db.rows {
      var was := db.rows[u.id].pub;
      assert db.ever[u.id] == was;
      assert !KeptBy(db, u, ByName(was.name)) || !KeptBy(db, u, ByEmail(was.email));
    } else {
      assert !KeptBy(db, u, ByName(u.pub.name)) || !KeptBy(db, u, ByEmail(u.pub.email));
    }
  }

  /** A run on which a deletion does not hide the id: the deleted user is still found, because deleting
      through a cached entry, which has lost the id, leaves the id's own entry behind. */
  lemma DeletedUserStillFound() returns (ns: Names, calls: seq<Call>)
    ensures Apart(ns) && AllowedRun(Db(map[], map[], true, map[]), ns, calls)
    ensures var db := RunCalls(Db(map[], map[], true, map[]), calls);
            1 !in db.rows && Get(db, ById(1)).1.Some?
  {
    ns := Names({"ann"}, {"ann@example.net"});
    var db0 := Db(map[], map[], true, map[]);
    var create := CreateCall("ann", "ann@example.net", Some("hash"), 0, 1);
    var delete := DeleteCall(ById(1));
    calls := [create, delete];
    NamesApart(ns);
    var db1 := Exec(db0, create);
    CreatedIsCached(db0, db1);
    CreateKeeps(db0, ns, "ann", "ann@example.net", Some("hash"), 0, 1);
    DeletionHidesIdExactly(db1, ns, ById(1), 1);
    TwoCalls(db0, ns, create, delete);
  }

  lemma NamesApart(ns: Names)
    requires ns.names <= {"ann", "bob"} && ns.emails == {"ann@example.net"}
    ensures Apart(ns)
  {
    LettersAreNotDecimal("ann", 0);
    LettersAreNotDecimal("bob", 0);
    LettersAreNotDecimal("ann@example.net", 0);
    assert |"ann"| == 3 && |"bob"| == 3 && |"ann@example.net"| == 15;
  }

  lemma TwoCalls(db: Db, ns: Names, a: Call, b: Call)
    requires Allowed(db, ns, a) && Allowed(Exec(db, a), ns, b)
    ensures AllowedRun(db, ns, [a, b]) && RunCalls(db, [a, b]) == Exec(Exec(db, a), b)
  {
    var db1 := Exec(db, a);
    var db2 := Exec(db1, b);
    assert [a, b][1..] == [b] && [b][1..] == [];
    assert AllowedRun(db2, ns, []) && RunCalls(db2, []) == db2;
    assert AllowedRun(db1, ns, [b]) && RunCalls(db1, [b]) == db2;
  }

  /** A text that contains a letter is not a decimal. */
  lemma LettersAreNotDecimal(s: string, k: nat)
    requires k < |s| && s[k] != '-' && !Decimal.IsDigit(s[k])
    ensures forall i: int :: Decimal.OfInt(i) != s
  {
    forall i: int
      ensures Decimal.OfInt(i) != s
    {
      Decimal.OfIntChars(i);
    }
  }

  lemma CreatedIsCached(db0: Db, db1: Db)
    requires db0 == Db(map[], map[], true, map[])
    requires db1 == Exec(db0, CreateCall("ann", "ann@example.net", Some("hash"), 0, 1))
    ensures 1 in db1.rows && db1.active && CacheKey(Decimal.OfInt(1)) in db1.cache && CacheKey("ann") in db1.cache
    ensures db1.rows[1].pub == Public("ann", "ann@example.net", 0, 0)
    ensures db1.cache[CacheKey(Decimal.OfInt(1))] == Public("ann", "ann@example.net", 0, 0)
  {
    var row := Row(Public("ann", "ann@example.net", 0, 0), "hash");
    var u := User(1, row.pub);
    assert !Found(db0.rows, ByName("ann")) && !Found(db0.rows, ByEmail("ann@example.net"));
    var inserted := Db(map[1 := row], map[], true, map[1 := row.pub]);
    assert Selects(ByName("ann"), 1, row);
    var ops := UpdateOps(u);
    RunOps3(map[], ops[0], ops[1], ops[2]);
    RunOps3(RunOps(map[], ops), ops[0], ops[1], ops[2]);
  }

  /** A run on which an update does not hide the old name: a renamed user still answers to the old name. */
  lemma RenamedUserStillFound() returns (ns: Names, create: Call, pub: Public)
    ensures Apart(ns) && Allowed(Db(map[], map[], true, map[]), ns, create)
    ensures var db := Update(Exec(Db(map[], map[], true, map[]), create), User(1, pub), 1);
            !Found(db.rows, ByName("ann")) && Get(db, ByName("ann")).1.Some?
  {
    ns := Names({"ann", "bob"}, {"ann@example.net"});
    var db0 := Db(map[], map[], true, map[]);
    create := CreateCall("ann", "ann@example.net", Some("hash"), 0, 1);
    pub := Public("bob", "ann@example.net", 0, 0);
    NamesApart(ns);
    CreatedIsCached(db0, Exec(db0, create));
    CreateKeeps(db0, ns, "ann", "ann@example.net", Some("hash"), 0, 1);
    UpdateHidesOldKeysExactly(Exec(db0, create), ns, 1, pub, 1);
  }
}
