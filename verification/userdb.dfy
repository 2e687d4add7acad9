/** UserDB as an object: its methods change the table at once and leave their cache
    writes to goroutines, which may run, in the order they were spawned, at any point. */
module UserStore {
  import opened Text
  import opened Users
  import Decimal

  class UserDB {
    var rows: map<int, Row>
    var cache: map<string, Public>
    const active: bool
    var pending: seq<CacheOp>
    ghost var ever: map<int, Public>

    constructor (active: bool)
      ensures this.active == active && pending == []
      ensures Abs() == Db(map[], map[], active, map[]) && Unique(rows)
    {
      rows, cache, pending, ever := map[], map[], [], map[];
      this.active := active;
    }

    /** The state once every pending write has run. */
    ghost function Abs(): Db
      reads this
    {
      Db(rows, if active then RunOps(cache, pending) else cache, active, ever)
    }

    /** Any number of the pending cache writes run now. */
    method Yield()
      modifies this`cache, this`pending
      ensures Abs() == old(Abs())
      ensures old(pending) == [] ==> pending == [] && cache == old(cache)
    {
      var steps :| 0 <= steps <= |pending|;
      for i := 0 to steps
        invariant steps - i <= |pending|
        invariant Abs() == old(Abs())
        invariant old(pending) == [] ==> pending == [] && cache == old(cache)
      {
        if active { cache := RunOp(cache, pending[0]); }
        pending := pending[1..];
      }
    }

    /** All pending cache writes run. */
    method Drain()
      modifies this`cache, this`pending
      ensures pending == [] && Abs() == old(Abs())
    {
      while pending != []
        invariant Abs() == old(Abs())
        decreases |pending|
      {
        if active { cache := RunOp(cache, pending[0]); }
        pending := pending[1..];
      }
    }

    /** Starts a goroutine that performs the writes. */
    method Go(ops: seq<CacheOp>)
      modifies this`pending
      ensures pending == old(pending) + ops
      ensures Abs() == AfterOps(old(Abs()), ops)
    {
      RunOpsConcat(cache, pending, ops);
      pending := pending + ops;
    }

    method GetFromCache(key: string) returns (r: Option<User>)
      ensures r == if active && CacheKey(key) in cache then Some(User(0, cache[CacheKey(key)])) else None
    {
      if !active {
        return None;
      }
      if CacheKey(key) in cache {
        return Some(User(0, cache[CacheKey(key)]));
      }
      return None;
    }

    method GetUserWithWhere(w: Where) returns (u: Option<User>)
      requires Unique(rows)
      modifies this`pending
      ensures !Found(rows, w) ==> u == None && Abs() == old(Abs()) && pending == old(pending)
      ensures Found(rows, w) ==>
        var id := SelectOne(rows, w);
        u == Some(User(id, rows[id].pub)) && Abs() == AfterOps(old(Abs()), UpdateOps(u.value))
    {
      var candidates := map id | id in rows && Selects(w, id, rows[id]) :: rows[id];
      if candidates == map[] {
        assert forall id :: id in rows ==> id !in candidates;
        return None;
      }
      var id :| id in candidates;
      assert Found(rows, w) && SelectOne(rows, w) == id;
      u := Some(User(id, rows[id].pub));
      Go(UpdateOps(u.value));
    }

    /** GetByName, GetByEmail and GetById. */
    method GetBy(w: Where) returns (u: Option<User>)
      requires Unique(rows) && pending == []
      modifies this`pending
      ensures (Abs(), u) == Get(old(Abs()), w)
      ensures u.None? ==> pending == []
    {
      u := GetFromCache(KeyOf(w));
      if u.Some? {
        return;
      }
      u := GetUserWithWhere(w);
    }

    method Create(name: string, email: string, hash: Option<string>, now: Time, newId: int) returns (r: Result<User>)
      requires Unique(rows) && pending == [] && newId !in ever && ever.Keys >= rows.Keys
      modifies this
      ensures (Abs(), r) == Users.Create(old(Abs()), name, email, hash, now, newId)
      ensures Unique(rows)
    {
      var byName := GetBy(ByName(name));
      if byName.Some? {
        Yield();
        return Err(ErrUserExists);
      }
      Yield();
      var byEmail := GetBy(ByEmail(email));
      if byEmail.Some? {
        Yield();
        return Err(ErrUserExists);
      }
      Yield();
      if HasSpace(name) {
        return Err(ErrSpaces);
      }
      if hash.None? {
        return Err(ErrCreateUser);
      }
      UniqueGrows(rows, name, email, newId, Row(Public(name, email, now, now), hash.value));
      rows := rows[newId := Row(Public(name, email, now, now), hash.value)];
      ever := ever[newId := Public(name, email, now, now)];
      Yield();
      var user := GetBy(ByName(name));
      if user.None? {
        return Err(ErrCreateUser);
      }
      Yield();
      Go(UpdateOps(user.value));
      Yield();
      r := Ok(user.value);
    }

    /** DeleteById and DeleteByName. */
    method DeleteBy(w: Where) returns (err: Option<UserError>)
      requires Unique(rows) && pending == []
      modifies this
      ensures (Abs(), err) == Delete(old(Abs()), w)
      ensures Unique(rows)
    {
      var user := GetBy(w);
      if user.None? {
        return Some(ErrNoUser);
      }
      Yield();
      Go(ClearOps(user.value));
      Yield();
      rows := Without(rows, w);
      Yield();
      return None;
    }
  }

  lemma UniqueGrows(rows: map<int, Row>, name: string, email: string, newId: int, row: Row)
    requires Unique(rows) && !Found(rows, ByName(name)) && !Found(rows, ByEmail(email))
    requires row.pub.name == name && row.pub.email == email && newId !in rows
    ensures Unique(rows[newId := row])
  {
    forall i | i in rows
      ensures rows[i].pub.name != name && rows[i].pub.email != email
    {
      assert !Selects(ByName(name), i, rows[i]);
      assert !Selects(ByEmail(email), i, rows[i]);
    }
  }
}
