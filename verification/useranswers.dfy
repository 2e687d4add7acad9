/** What the calls of UserDB answer and leave behind, told on the rows, the texts of the
    cache keys and the fields themselves. */
module UserAnswers {
  import opened Text
  import opened Users
  import opened UserSchedules
  import Decimal

  ghost predicate Named(rows: map<int, Row>, name: string)
  {
    exists id :: id in rows && rows[id].pub.name == name
  }

  ghost predicate Mailed(rows: map<int, Row>, email: string)
  {
    exists id :: id in rows && rows[id].pub.email == email
  }

  lemma FoundIs(rows: map<int, Row>, name: string, email: string)
    ensures Found(rows, ByName(name)) <==> Named(rows, name)
    ensures Found(rows, ByEmail(email)) <==> Mailed(rows, email)
  {
    if Named(rows, name) {
      var id :| id in rows && rows[id].pub.name == name;
      assert Selects(ByName(name), id, rows[id]);
    }
    if Mailed(rows, email) {
      var id :| id in rows && rows[id].pub.email == email;
      assert Selects(ByEmail(email), id, rows[id]);
    }
  }

  // ---------------------------------------------------------------- creating

  /** What creating a user answers. */
  ghost function CreateAnswer(rows: map<int, Row>, name: string, email: string, hash: Option<string>, now: Time, newId: int): Result<User>
  {
    if Named(rows, name) || Mailed(rows, email) then Err(ErrUserExists)
    else if ' ' in name || '\t' in name || '\r' in name then Err(ErrSpaces)
    else if hash.None? then Err(ErrCreateUser)
    else Ok(User(newId, Public(name, email, now, now)))
  }

  /** Create answers Ok, with the new user, exactly when name and email are free, the name
      has no blank and encryption succeeded; each error comes exactly in its case. Only then
      is anything inserted: one row with the given fields and hash. */
  lemma CreateAnswers(db: Db, ns: Names, name: string, email: string, hash: Option<string>, now: Time, newId: int)
    requires Coherent(db, ns) && Apart(ns) && name in ns.names && email in ns.emails
    requires newId > 0 && newId !in db.ever
    ensures var r := Create(db, name, email, hash, now, newId);
      && r.1 == CreateAnswer(db.rows, name, email, hash, now, newId)
      && r.0.rows == if r.1.Ok? then db.rows[newId := Row(Public(name, email, now, now), hash.value)] else db.rows
  {
    FoundIs(db.rows, name, email);
    LookupIsExact(db, ns, ByName(name));
    GetKeeps(db, ns, ByName(name));
    var byName := Get(db, ByName(name));
    if byName.1.None? {
      LookupIsExact(byName.0, ns, ByEmail(email));
      GetKeeps(byName.0, ns, ByEmail(email));
      var byEmail := Get(byName.0, ByEmail(email));
      if byEmail.1.None? && !HasSpace(name) && hash.Some? {
        CreatesRow(byEmail.0, ns, name, email, hash.value, now, newId);
      }
    }
  }

  lemma CreatesRow(db: Db, ns: Names, name: string, email: string, hash: string, now: Time, newId: int)
    requires Coherent(db, ns) && Apart(ns) && name in ns.names && email in ns.emails
    requires newId > 0 && newId !in db.ever
    requires !Found(db.rows, ByName(name)) && !Found(db.rows, ByEmail(email))
    ensures var row := Row(Public(name, email, now, now), hash);
            var again := Get(db.(rows := db.rows[newId := row], ever := db.ever[newId := row.pub]), ByName(name));
            again.1 == Some(User(newId, row.pub)) && again.0.rows == db.rows[newId := row]
  {
    CreateInserts(db, ns, name, email, hash, now, newId);
    InsertKeeps(db, ns, name, email, hash, now, newId);
    var row := Row(Public(name, email, now, now), hash);
    GetKeeps(db.(rows := db.rows[newId := row], ever := db.ever[newId := row.pub]), ns, ByName(name));
  }

  // ---------------------------------------------------------------- deleting

  /** Deleting by name fails exactly when no row has the name; otherwise no row with that
      name remains and every other row stays. */
  lemma DeleteByNameAnswers(db: Db, ns: Names, name: string)
    requires Coherent(db, ns) && Apart(ns) && name in ns.names
    ensures var r := Delete(db, ByName(name));
      && r.1 == (if Named(db.rows, name) then None else Some(ErrNoUser))
      && (forall id :: id in r.0.rows <==> id in db.rows && db.rows[id].pub.name != name)
      && (forall id :: id in r.0.rows ==> r.0.rows[id] == db.rows[id])
  {
    FoundIs(db.rows, name, "");
    LookupIsExact(db, ns, ByName(name));
    GetKeeps(db, ns, ByName(name));
  }

  /** Deleting by id fails exactly when there is neither a row nor a cached entry for it;
      the row does not remain and every other row stays. */
  lemma DeleteByIdAnswers(db: Db, ns: Names, i: int)
    requires Coherent(db, ns) && Apart(ns)
    ensures var r := Delete(db, ById(i));
      && r.1 == (if i in db.rows || "user_" + Decimal.OfInt(i) in db.cache then None else Some(ErrNoUser))
      && (forall id :: id in r.0.rows <==> id in db.rows && id != i)
      && (forall id :: id in r.0.rows ==> r.0.rows[id] == db.rows[id])
  {
    LookupById(db, ns, i);
    GetKeeps(db, ns, ById(i));
  }

  // ---------------------------------------------------------------- the cache

  /** What a coherent cache holds, key by key. */
  lemma CoherentSays(db: Db, ns: Names)
    requires Coherent(db, ns) && Apart(ns)
    ensures forall n :: n in ns.names && "user_" + n in db.cache ==>
              db.cache["user_" + n].name == n && exists id :: id in db.rows && db.rows[id].pub == db.cache["user_" + n]
    ensures forall e :: e in ns.emails && "user_" + e in db.cache ==>
              db.cache["user_" + e].email == e && exists id :: id in db.rows && db.rows[id].pub == db.cache["user_" + e]
    ensures forall id: int :: "user_" + Decimal.OfInt(id) in db.cache ==>
              id in db.ever && db.cache["user_" + Decimal.OfInt(id)] == db.ever[id]
  {
    forall n | n in ns.names && "user_" + n in db.cache
      ensures db.cache["user_" + n].name == n && exists id :: id in db.rows && db.rows[id].pub == db.cache["user_" + n]
    {
      NamedEntry(db, ns, ByName(n));
    }
    forall e | e in ns.emails && "user_" + e in db.cache
      ensures db.cache["user_" + e].email == e && exists id :: id in db.rows && db.rows[id].pub == db.cache["user_" + e]
    {
      NamedEntry(db, ns, ByEmail(e));
    }
    forall id: int | "user_" + Decimal.OfInt(id) in db.cache
      ensures id in db.ever && db.cache["user_" + Decimal.OfInt(id)] == db.ever[id]
    {
      IdEntry(db, ns, id);
    }
  }

  lemma NamedEntry(db: Db, ns: Names, w: Where)
    requires Coherent(db, ns) && Apart(ns) && CacheKey(KeyOf(w)) in db.cache
    requires (w.ByName? && w.name in ns.names) || (w.ByEmail? && w.email in ns.emails)
    ensures Found(db.rows, w) && db.rows[SelectOne(db.rows, w)].pub == db.cache[CacheKey(KeyOf(w))]
  {
    assert EntryOk(db, ns, CacheKey(KeyOf(w)), db.cache[CacheKey(KeyOf(w))]);
    CachedIsLive(db, ns, w, db.cache[CacheKey(KeyOf(w))]);
  }

  function KeyTexts(u: User): set<string>
  {
    {"user_" + u.pub.name, "user_" + u.pub.email, "user_" + Decimal.OfInt(u.id)}
  }

  /** The three keys of a record hold pub, or nothing. */
  ghost predicate Holds3(cache: map<string, Public>, u: User, pub: Option<Public>)
  {
    forall key :: key in KeyTexts(u) ==>
      (pub.None? ==> key !in cache) && (pub.Some? ==> key in cache && cache[key] == pub.value)
  }

  /** A record that is cached is stored under all its three keys, and a cleared one under none;
      no other key changes. */
  lemma ThreeKeys(cache: map<string, Public>, u: User)
    ensures Holds3(RunOps(cache, UpdateOps(u)), u, Some(u.pub))
    ensures Holds3(RunOps(cache, ClearOps(u)), u, None)
    ensures forall key :: key !in KeyTexts(u) ==>
      && (key in RunOps(cache, UpdateOps(u)) <==> key in cache) && (key in RunOps(cache, ClearOps(u)) <==> key in cache)
      && (key in cache ==> RunOps(cache, UpdateOps(u))[key] == cache[key] && RunOps(cache, ClearOps(u))[key] == cache[key])
  {
    var put, drop := UpdateOps(u), ClearOps(u);
    RunOps3(cache, put[0], put[1], put[2]);
    RunOps3(cache, drop[0], drop[1], drop[2]);
  }

  /** A lookup that the cache cannot answer caches the row it finds. */
  lemma LookupCaches(db: Db, w: Where)
    requires db.active && "user_" + KeyOf(w) !in db.cache && Found(db.rows, w)
    ensures var r := Get(db, w); r.1.Some? && Holds3(r.0.cache, r.1.value, Some(r.1.value.pub))
    ensures var r := Get(db, w); r.1.value.id in db.rows && db.rows[r.1.value.id].pub == r.1.value.pub
  {
    ThreeKeys(db.cache, User(SelectOne(db.rows, w), db.rows[SelectOne(db.rows, w)].pub));
  }

  /** One that it can answer returns the entry, without an id, and changes nothing. */
  lemma LookupReads(db: Db, w: Where)
    requires db.active && "user_" + KeyOf(w) in db.cache
    ensures Get(db, w) == (db, Some(User(0, db.cache["user_" + KeyOf(w)])))
  {
  }

  // ---------------------------------------------------------------- updating

  /** An update changes name, email and time of the record's own row and nothing else, and
      caches the record as given. */
  lemma UpdateWrites(db: Db, u: User, now: Time)
    ensures var db' := Update(db, u, now);
      && db'.rows.Keys == db.rows.Keys
      && (forall id :: id in db.rows && id != u.id ==> db'.rows[id] == db.rows[id])
      && (u.id in db.rows ==>
           && db'.rows[u.id].pub.name == u.pub.name && db'.rows[u.id].pub.email == u.pub.email
           && db'.rows[u.id].pub.updated == now && db'.rows[u.id].pub.created == db.rows[u.id].pub.created
           && db'.rows[u.id].password == db.rows[u.id].password)
      && (if db.active then Holds3(db'.cache, u, Some(u.pub)) else db'.cache == db.cache)
  {
    ThreeKeys(db.cache, u);
  }

  /** The same of the update among schedules, whose caching is left to a goroutine. */
  lemma UpdateStepWrites(s: Sys, s': Sys, u: User, now: Time)
    requires UpdateStep(s, s', u, now)
    ensures s'.rows == Update(Db(s.rows, s.cache, s.active, map[]), u, now).rows && s'.cache == s.cache
    ensures s'.tasks == s.tasks + [UpdateOps(u)]
  {
  }

  /** A password change stores the hash and the time in the record's own row and nothing else. */
  lemma PasswordStepWrites(s: Sys, s': Sys, u: User, hash: string, now: Time)
    requires PasswordStep(s, s', u, hash, now)
    ensures s'.rows.Keys == s.rows.Keys && s'.cache == s.cache && s'.tasks == s.tasks + [UpdateOps(u)]
    ensures forall id :: id in s.rows && id != u.id ==> s'.rows[id] == s.rows[id]
    ensures u.id in s.rows ==>
      && s'.rows[u.id].password == hash && s'.rows[u.id].pub.updated == now
      && s'.rows[u.id].pub.name == s.rows[u.id].pub.name && s'.rows[u.id].pub.email == s.rows[u.id].pub.email
      && s'.rows[u.id].pub.created == s.rows[u.id].pub.created
  {
  }

  /** Listing caches each user without id and without time of update. */
  lemma ListStepCaches(s: Sys, s': Sys, id: int)
    requires ListStep(s, s', id)
    ensures id in s.rows && s'.rows == s.rows && s'.cache == s.cache
    ensures var pub := Public(s.rows[id].pub.name, s.rows[id].pub.email, s.rows[id].pub.created, 0);
            s'.tasks == s.tasks + [[Put("user_" + pub.name, pub), Put("user_" + pub.email, pub), Put("user_0", pub)]]
  {
    Decimal.OfIntSpells(0);
    Decimal.SpellsOne(0, Decimal.OfInt(0), "0");
    assert "user_" + "0" == "user_0";
  }
}
