/** The single accesses of UserSchedules, taken one after the other while the cache
    goroutines keep up, make up the calls of Users. */
module UserSteps {
  import opened Text
  import opened Users
  import opened UserSchedules

  /** The cache once all goroutines have run, in the order they were started. */
  ghost function Drained(cache: map<string, Public>, tasks: seq<seq<CacheOp>>): map<string, Public>
    decreases |tasks|
  {
    if tasks == [] then cache else Drained(RunOps(cache, tasks[0]), tasks[1..])
  }

  ghost function AtRest(s: Sys): Sys
  {
    s.(cache := if s.active then Drained(s.cache, s.tasks) else s.cache, tasks := [])
  }

  /** The table and the cache at rest. */
  ghost function Settled(s: Sys, ever: map<int, Public>): Db
  {
    Db(s.rows, AtRest(s).cache, s.active, ever)
  }

  lemma {:induction false} DrainedSnoc(cache: map<string, Public>, tasks: seq<seq<CacheOp>>, ops: seq<CacheOp>)
    ensures Drained(cache, tasks + [ops]) == RunOps(Drained(cache, tasks), ops)
    decreases |tasks|
  {
    if tasks == [] {
      assert ([] + [ops])[0] == ops && ([] + [ops])[1..] == [];
    } else {
      assert (tasks + [ops])[1..] == tasks[1..] + [ops];
      DrainedSnoc(RunOps(cache, tasks[0]), tasks[1..], ops);
    }
  }

  lemma Spawns(s: Sys, ops: seq<CacheOp>, ever: map<int, Public>)
    ensures Settled(s.(tasks := s.tasks + [ops]), ever) == AfterOps(Settled(s, ever), ops)
  {
    DrainedSnoc(s.cache, s.tasks, ops);
  }

  /** A goroutine's write, in the order of their start, brings the cache closer to rest. */
  lemma TaskSettles(s: Sys, s': Sys, i: nat, ever: map<int, Public>)
    requires TaskStep(s, s', i) && forall j :: 0 <= j < i ==> s.tasks[j] == []
    ensures Settled(s', ever) == Settled(s, ever)
  {
    if s.active { DrainedStep(s.cache, s.tasks, i); }
  }

  lemma {:induction false} DrainedStep(cache: map<string, Public>, tasks: seq<seq<CacheOp>>, i: nat)
    requires i < |tasks| && tasks[i] != [] && forall j :: 0 <= j < i ==> tasks[j] == []
    ensures Drained(RunOp(cache, tasks[i][0]), tasks[i := tasks[i][1..]]) == Drained(cache, tasks)
    decreases i
  {
    var tasks' := tasks[i := tasks[i][1..]];
    if i == 0 {
      assert tasks'[1..] == tasks[1..];
    } else {
      assert tasks'[1..] == tasks[1..][i - 1 := tasks[i][1..]];
      DrainedStep(cache, tasks[1..], i - 1);
    }
  }

  /** The accesses of one lookup: the cache, and on a miss the table. */
  ghost predicate Looks(s: Sys, s': Sys, w: Where, k: Then)
  {
    && s.phase == ReadsCache(w, k)
    && if s.active && "user_" + KeyOf(w) in s.cache then CallerStep(s, s')
       else exists mid :: CallerStep(s, mid) && CallerStep(mid, s')
  }

  /** A lookup goes on with the answer of Get, in a state that settles as after Get. */
  lemma LooksIsGet(s: Sys, s': Sys, w: Where, k: Then, ever: map<int, Public>) returns (t: Sys)
    requires Looks(s, s', w, k) && s.tasks == [] && Unique(s.rows)
    ensures var got := Get(Settled(s, ever), w);
            s' == After(t, k, got.1) && Settled(t, ever) == got.0 && t.rows == s.rows && t.active == s.active
  {
    t := s;
    if !(s.active && "user_" + KeyOf(w) in s.cache) {
      var mid :| CallerStep(s, mid) && CallerStep(mid, s');
      t := mid;
      if Found(s.rows, w) {
        var id :| SelectsId(mid, s', w, k, id);
        assert id == SelectOne(s.rows, w);
        var u := User(id, s.rows[id].pub);
        t := mid.(tasks := mid.tasks + [UpdateOps(u)], selected := mid.selected + {u});
        Spawns(mid, UpdateOps(u), ever);
      }
    }
  }

  /** The accesses of a deletion are Delete. */
  lemma StepsOfDelete(s: Sys, a: Sys, b: Sys, w: Where, ever: map<int, Public>)
    requires s.tasks == [] && Unique(s.rows) && Looks(s, a, w, Deletes(w))
    requires if a.phase.Ready? then b == a else CallerStep(a, b)
    ensures b.phase.Ready? && Settled(b, ever) == Delete(Settled(s, ever), w).0
  {
    var t := LooksIsGet(s, a, w, Deletes(w), ever);
    var got := Get(Settled(s, ever), w).1;
    if got.Some? { Spawns(t, ClearOps(got.value), ever); }
  }

  /** The accesses of a creation, with the goroutines keeping up in between, are Create. */
  lemma StepsOfCreate(s: Sys, a: Sys, b: Sys, c: Sys, d: Sys, n: NewUser, id: int, ever: map<int, Public>)
    requires s.tasks == [] && Unique(s.rows) && Looks(s, a, ByName(n.name), ChecksEmail(n))
    requires if a.phase.Ready? then b == a else Looks(AtRest(a), b, ByEmail(n.email), Inserts(n))
    requires if b.phase.Ready? then d == b
             else id !in b.rows && InsertsId(AtRest(b), c, n, id) && Looks(c, d, ByName(n.name), Caches)
    ensures d.phase.Ready?
    ensures Settled(d, if b.phase.Ready? then ever else ever[id := Public(n.name, n.email, n.now, n.now)])
            == Create(Settled(s, ever), n.name, n.email, n.hash, n.now, id).0
  {
    var t := LooksIsGet(s, a, ByName(n.name), ChecksEmail(n), ever);
    if !a.phase.Ready? {
      var u := LooksIsGet(AtRest(a), b, ByEmail(n.email), Inserts(n), ever);
      if !b.phase.Ready? {
        InsertDistinct(s.rows, n, id);
        var ever' := ever[id := Public(n.name, n.email, n.now, n.now)];
        var v := LooksIsGet(c, d, ByName(n.name), Caches, ever');
        var again := Get(Settled(c, ever'), ByName(n.name)).1;
        if again.Some? { Spawns(v, UpdateOps(again.value), ever'); }
      }
    }
  }
}
