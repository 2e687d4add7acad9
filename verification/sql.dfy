/** Transactions over an abstract database. A transaction is an object with its own copy
    of the data; whoever begins one has to end it, by an attempt to commit or to roll
    back. Each wrapped query does so exactly once, and initialisation is a sequence of
    such transactions. */
module Sql {
  import opened Text

  datatype DBError = ErrTxStart | ErrTxCommit | ErrTxRollback | ErrQuery | ErrDBInsert | ErrOpenInitFile | ErrInitDB

  /** What a statement does to the data of its transaction. A failing one may leave anything. */
  datatype Effect<D> = Effect(data: D, ok: bool)

  /** What a server does with a statement, with a batch of rows (where it also says how many
      it copied), and with a query. */
  datatype Behaviour<!D, !R> = Behaviour(
    exec: (D, string) -> Effect<D>,
    copyFrom: (D, seq<R>) -> (Effect<D>, nat),
    answers: (D, string) -> bool)

  /** Which parts of one transaction the server lets fail. */
  datatype Faults = Faults(begin: bool, rollback: bool, commit: bool)

  /** One entry of the init directory: a directory, a file whose info cannot be read, or a
      file with what parsing it gives and the faults of its transaction. */
  datatype DirEntry = Dir | NoInfo | File(query: Option<string>, faults: Faults)

  predicate IsSelect(query: string) { "SELECT" <= query }

  /** What a query does inside its transaction. */
  function QueryEffect<D, R>(b: Behaviour<D, R>, db: D, query: string): Effect<D>
  {
    if IsSelect(query) then Effect(db, b.answers(db, query)) else b.exec(db, query)
  }

  /** What copying all rows does; copying fewer counts as a failure. */
  function InsertEffect<D, R>(b: Behaviour<D, R>, db: D, values: seq<R>): Effect<D>
  {
    var (e, n) := b.copyFrom(db, values);
    Effect(e.data, e.ok && n == |values|)
  }

  predicate Commits<D, R>(b: Behaviour<D, R>, db: D, query: string, f: Faults)
  {
    !f.begin && QueryEffect(b, db, query).ok && !f.commit
  }

  /** Loading the entry succeeds: it is skipped, or it parses and its query commits. */
  predicate Loads<D, R>(b: Behaviour<D, R>, db: D, e: DirEntry)
  {
    e.File? ==> e.query.Some? && Commits(b, db, e.query.value, e.faults)
  }

  function Loaded<D, R>(b: Behaviour<D, R>, db: D, e: DirEntry): D
    requires Loads(b, db, e)
  {
    if e.File? then QueryEffect(b, db, e.query.value).data else db
  }

  /** The database after loading all the entries in order, each of them successfully. */
  ghost predicate Reaches<D(!new), R>(b: Behaviour<D, R>, db: D, entries: seq<DirEntry>, db': D)
    decreases |entries|
  {
    if entries == [] then db' == db
    else
      var n := |entries| - 1;
      exists mid :: Reaches(b, db, entries[..n], mid) && Loads(b, mid, entries[n]) && db' == Loaded(b, mid, entries[n])
  }

  /** The fold of the files' statements: selects and skipped entries leave the database alone. */
  function ExecFiles<D, R>(b: Behaviour<D, R>, db: D, entries: seq<DirEntry>): D
  {
    if entries == [] then db
    else
      var before := ExecFiles(b, db, entries[..|entries| - 1]);
      match entries[|entries| - 1]
      case File(Some(query), _) => if "SELECT" <= query then before else b.exec(before, query).data
      case _ => before
  }

  lemma {:induction false} ReachesExec<D(!new), R>(b: Behaviour<D, R>, db: D, entries: seq<DirEntry>, x: D)
    requires Reaches(b, db, entries, x)
    ensures x == ExecFiles(b, db, entries)
    decreases |entries|
  {
    if entries != [] {
      var n := |entries| - 1;
      var mid :| Reaches(b, db, entries[..n], mid) && Loads(b, mid, entries[n]) && x == Loaded(b, mid, entries[n]);
      ReachesExec(b, db, entries[..n], mid);
    }
  }

  lemma ReachesNext<D(!new), R>(b: Behaviour<D, R>, db: D, entries: seq<DirEntry>, i: nat, mid: D)
    requires i < |entries| && Reaches(b, db, entries[..i], mid) && Loads(b, mid, entries[i])
    ensures Reaches(b, db, entries[..i + 1], Loaded(b, mid, entries[i]))
  {
    assert entries[..i + 1][..i] == entries[..i];
  }

  /** What loading reaches is unique. */
  lemma {:induction false} ReachesOne<D(!new), R>(b: Behaviour<D, R>, db: D, entries: seq<DirEntry>, x: D, y: D)
    requires Reaches(b, db, entries, x) && Reaches(b, db, entries, y)
    ensures x == y
    decreases |entries|
  {
    if entries != [] {
      var n := |entries| - 1;
      var a :| Reaches(b, db, entries[..n], a) && Loads(b, a, entries[n]) && x == Loaded(b, a, entries[n]);
      var c :| Reaches(b, db, entries[..n], c) && Loads(b, c, entries[n]) && y == Loaded(b, c, entries[n]);
      ReachesOne(b, db, entries[..n], a, c);
    }
  }

  /** A transaction ends Aborted when its rollback fails, and Lost when its commit does. */
  datatype Status = Open | Committed | RolledBack | Aborted | Lost

  /** A transaction: its own copy of the data, and how often its end has been attempted. */
  class Tx<!D(!new)> {
    var data: D
    var status: Status
    var commits: nat
    var rollbacks: nat

    constructor (db: D)
      ensures data == db && status == Open && commits == 0 && rollbacks == 0
    {
      data, status, commits, rollbacks := db, Open, 0, 0;
    }

    /** Its end was attempted exactly once. */
    predicate Ended()
      reads this
    {
      !status.Open? && commits + rollbacks == 1
    }

    method Exec<R>(b: Behaviour<D, R>, query: string) returns (ok: bool)
      requires status.Open?
      modifies this`data
      ensures Effect(data, ok) == b.exec(old(data), query)
    {
      var e := b.exec(data, query);
      data, ok := e.data, e.ok;
    }

    method Query<R>(b: Behaviour<D, R>, query: string) returns (ok: bool)
      requires status.Open?
      ensures ok == b.answers(data, query)
    {
      ok := b.answers(data, query);
    }

    method CopyFrom<R>(b: Behaviour<D, R>, values: seq<R>) returns (ok: bool, copied: nat)
      requires status.Open?
      modifies this`data
      ensures (Effect(data, ok), copied) == b.copyFrom(old(data), values)
    {
      var (e, n) := b.copyFrom(data, values);
      data, ok, copied := e.data, e.ok, n;
    }

    method Rollback(fails: bool) returns (ok: bool)
      requires status.Open?
      modifies this`status, this`rollbacks
      ensures ok == !fails && rollbacks == old(rollbacks) + 1
      ensures status == if ok then RolledBack else Aborted
    {
      rollbacks, ok := rollbacks + 1, !fails;
      status := if ok then RolledBack else Aborted;
    }
  }

  /** Database and connection pool; begun lists the transactions begun so far. */
  class DataBase<!D(!new), !R> {
    var db: D
    var begun: seq<Tx<D>>
    const b: Behaviour<D, R>

    constructor (db: D, b: Behaviour<D, R>)
      ensures this.db == db && this.b == b && begun == []
    {
      this.db, this.b, begun := db, b, [];
    }

    /** No transaction is left open, and none was ended twice. */
    predicate Settled()
      reads this, begun
    {
      forall tx :: tx in begun ==> tx.Ended()
    }

    /** One more transaction was begun and has ended: by a commit exactly when ok, which
        counts when it is not refused. */
    twostate predicate Ran(ok: bool, refused: bool)
      reads this, begun
    {
      && |begun| == |old(begun)| + 1 && begun[..|old(begun)|] == old(begun)
      && var tx := begun[|old(begun)|];
         && fresh(tx) && tx.Ended()
         && (tx.commits == 1 <==> ok)
         && (tx.status.Committed? <==> ok && !refused)
    }

    method BeginTx(fails: bool) returns (tx: Option<Tx<D>>)
      modifies this`begun
      ensures tx.None? <==> fails
      ensures tx.None? ==> begun == old(begun)
      ensures tx.Some? ==> fresh(tx.value) && begun == old(begun) + [tx.value] && tx.value.data == db
      ensures tx.Some? ==> tx.value.status.Open? && tx.value.commits == 0 && tx.value.rollbacks == 0
    {
      if fails {
        return None;
      }
      var t := new Tx<D>(db);
      begun := begun + [t];
      tx := Some(t);
    }

    /** The transaction's data become the database's; a refused commit has no effect. */
    method Commit(tx: Tx<D>, fails: bool) returns (ok: bool)
      requires tx.status.Open?
      modifies this`db, tx`status, tx`commits
      ensures ok == !fails && tx.commits == old(tx.commits) + 1
      ensures tx.status == if ok then Committed else Lost
      ensures db == if ok then tx.data else old(db)
    {
      tx.commits, ok := tx.commits + 1, !fails;
      tx.status := if ok then Committed else Lost;
      if ok { db := tx.data; }
    }

    /** transactionWrapper: unless no transaction begins, exactly one is begun and ended,
        committed exactly when the query succeeded, and only then is anything changed. */
    method TransactionWrapper(query: string, f: Faults) returns (err: Option<DBError>)
      requires Settled()
      modifies this`db, this`begun
      ensures Settled()
      ensures if f.begin then begun == old(begun) else Ran(QueryEffect(b, old(db), query).ok, f.commit)
      ensures err.None? <==> Commits(b, old(db), query, f)
      ensures db == if err.None? then QueryEffect(b, old(db), query).data else old(db)
      ensures err.None? && !("SELECT" <= query) ==> b.exec(old(db), query).ok && db == b.exec(old(db), query).data
      ensures !("SELECT" <= query) && !f.begin && !f.commit ==> (err.None? <==> b.exec(old(db), query).ok)
      ensures "SELECT" <= query ==> db == old(db) && (!f.begin && !f.commit ==> (err.None? <==> b.answers(old(db), query)))
      ensures err == Some(ErrTxStart) <==> f.begin
      ensures err == Some(ErrTxCommit) <==> !f.begin && QueryEffect(b, old(db), query).ok && f.commit
      ensures err == Some(ErrTxRollback) <==> !f.begin && !QueryEffect(b, old(db), query).ok && f.rollback
      ensures err == Some(ErrQuery) <==> !f.begin && !QueryEffect(b, old(db), query).ok && !f.rollback
    {
      var begin := BeginTx(f.begin);
      if begin.None? {
        return Some(ErrTxStart);
      }
      var tx := begin.value;
      var ok;
      if IsSelect(query) {
        ok := tx.Query(b, query);
      } else {
        ok := tx.Exec(b, query);
      }
      if !ok {
        var rolled := tx.Rollback(f.rollback);
        return Some(if rolled then ErrQuery else ErrTxRollback);
      }
      var committed := Commit(tx, f.commit);
      return if committed then None else Some(ErrTxCommit);
    }

    /** Insert: all rows are copied and committed in one transaction, or nothing is. */
    method Insert(values: seq<R>, f: Faults) returns (err: Option<DBError>)
      requires Settled()
      modifies this`db, this`begun
      ensures Settled()
      ensures if f.begin then begun == old(begun) else Ran(InsertEffect(b, old(db), values).ok, f.commit)
      ensures err.None? <==> !f.begin && b.copyFrom(old(db), values).0.ok && b.copyFrom(old(db), values).1 == |values| && !f.commit
      ensures db == if err.None? then b.copyFrom(old(db), values).0.data else old(db)
      ensures var copied := b.copyFrom(old(db), values).0.ok && b.copyFrom(old(db), values).1 == |values|;
        && (err == Some(ErrTxStart) <==> f.begin)
        && (err == Some(ErrTxCommit) <==> !f.begin && copied && f.commit)
        && (err == Some(ErrTxRollback) <==> !f.begin && !copied && f.rollback)
        && (err == Some(ErrDBInsert) <==> !f.begin && !copied && !f.rollback)
    {
      var begin := BeginTx(f.begin);
      if begin.None? {
        return Some(ErrTxStart);
      }
      var tx := begin.value;
      var ok, copied := tx.CopyFrom(b, values);
      if !ok || copied != |values| {
        var rolled := tx.Rollback(f.rollback);
        return Some(if rolled then ErrDBInsert else ErrTxRollback);
      }
      var committed := Commit(tx, f.commit);
      return if committed then None else Some(ErrTxCommit);
    }

    method LoadInitFile(file: DirEntry) returns (err: Option<DBError>)
      requires file.File? && Settled()
      modifies this`db, this`begun
      ensures Settled()
      ensures err.None? <==> Loads(b, old(db), file)
      ensures err.None? ==> db == Loaded(b, old(db), file) && Ran(true, false)
      ensures err.Some? ==> db == old(db) && err == Some(ErrInitDB)
      ensures err.Some? ==> begun == old(begun) || exists ok, refused :: (!ok || refused) && Ran(ok, refused)
    {
      if file.query.None? {
        return Some(ErrInitDB);
      }
      err := TransactionWrapper(file.query.value, file.faults);
      if err.Some? {
        err := Some(ErrInitDB);
      }
    }

    /** The transactions begun after the first n, up to the m-th, all committed. */
    predicate CommittedFrom(n: nat, m: nat)
      reads this, begun
    {
      n <= m <= |begun| && forall i :: n <= i < m ==> begun[i].status.Committed?
    }

    /** loadInitDir: on success the database is as after all the files, each of which has
        committed its own transaction; on failure it is as after exactly the files before the
        first one that fails, whose transaction, if it began, did not commit. */
    method LoadInitDir(files: Option<seq<DirEntry>>) returns (err: Option<DBError>)
      requires Settled()
      modifies this`db, this`begun
      ensures Settled() && old(begun) <= begun
      ensures files.None? ==> err == Some(ErrOpenInitFile) && db == old(db) && begun == old(begun)
      ensures files.Some? && err.None? ==>
        && Reaches(b, old(db), files.value, db) && db == ExecFiles(b, old(db), files.value)
        && |begun| == |old(begun)| + Files(files.value) && CommittedFrom(|old(begun)|, |begun|)
      ensures files.Some? && err.Some? ==>
        && err == Some(ErrInitDB)
        && exists k :: 0 <= k < |files.value| && Reaches(b, old(db), files.value[..k], db) && !Loads(b, db, files.value[k])
             && db == ExecFiles(b, old(db), files.value[..k])
             && var m := |old(begun)| + Files(files.value[..k]);
                CommittedFrom(|old(begun)|, m) && |begun| <= m + 1 && (|begun| == m + 1 ==> !begun[m].status.Committed?)
    {
      if files.None? {
        return Some(ErrOpenInitFile);
      }
      var entries := files.value;
      ghost var n := |begun|;
      for i := 0 to |entries|
        invariant Settled() && old(begun) <= begun
        invariant Reaches(b, old(db), entries[..i], db)
        invariant |begun| == n + Files(entries[..i]) && CommittedFrom(n, |begun|)
      {
        FilesNext(entries, i);
        var f := entries[i];
        ghost var mid, before := db, begun;
        if f.Dir? || f.NoInfo? {
          ReachesNext(b, old(db), entries, i, mid);
          continue;
        }
        var e := LoadInitFile(f);
        if e.Some? {
          ReachesExec(b, old(db), entries[..i], db);
          return Some(ErrInitDB);
        }
        assert begun == before + [begun[|before|]];
        ReachesNext(b, old(db), entries, i, mid);
      }
      assert entries[..|entries|] == entries;
      ReachesExec(b, old(db), entries, db);
      return None;
    }
  }

  /** How many of the entries are files. */
  function Files(entries: seq<DirEntry>): nat
  {
    if entries == [] then 0 else Files(entries[..|entries| - 1]) + if entries[|entries| - 1].File? then 1 else 0
  }

  lemma FilesNext(entries: seq<DirEntry>, i: nat)
    requires i < |entries|
    ensures Files(entries[..i + 1]) == Files(entries[..i]) + if entries[i].File? then 1 else 0
  {
    assert entries[..i + 1][..i] == entries[..i];
  }

  /** The point where initialisation stops does not depend on how it is described: only
      one prefix can be followed by a failing entry. */
  lemma StopsOnce<D(!new), R>(b: Behaviour<D, R>, db: D, entries: seq<DirEntry>, j: nat, k: nat, x: D, y: D)
    requires j <= k < |entries|
    requires Reaches(b, db, entries[..j], x) && !Loads(b, x, entries[j])
    requires Reaches(b, db, entries[..k], y)
    ensures j == k && x == y
  {
    var mid := PrefixReached(b, db, entries, j, k, y);
    ReachesOne(b, db, entries[..j], x, mid);
  }

  /** A reached prefix reaches all its own prefixes, and loads every entry in between. */
  lemma {:induction false} PrefixReached<D(!new), R>(b: Behaviour<D, R>, db: D, entries: seq<DirEntry>, j: nat, k: nat, y: D) returns (x: D)
    requires j <= k <= |entries| && Reaches(b, db, entries[..k], y)
    ensures Reaches(b, db, entries[..j], x)
    ensures j < k ==> Loads(b, x, entries[j])
    ensures j == k ==> x == y
    decreases k
  {
    if j == k {
      x := y;
    } else {
      var n := k - 1;
      assert entries[..k][..n] == entries[..n];
      var mid :| Reaches(b, db, entries[..n], mid) && Loads(b, mid, entries[n]) && y == Loaded(b, mid, entries[n]);
      x := PrefixReached(b, db, entries, j, n, mid);
    }
  }
}
