/** Queries, writes, probes and other connections' commits around the result cache, in any interleaving (client.rs). */
module CacheProtocol {
  import opened Bytes
  import opened QueryCache
  import opened CacheKey

  /** A state of the database. */
  type Db = nat

  datatype Request = Request(sql: seq<Byte>, params: seq<SqlValue>)

  /** What callers ask, what SQLite answers (nothing: an error), and what the client knows about a statement. */
  datatype World = World(
    asks: Request -> bool,
    eval: (Request, Db) -> Option<seq<Byte>>,
    safe: seq<Byte> -> bool,
    readonly: seq<Byte> -> bool,
    inMemory: bool)

  /** SQLite prepares no statement with a NUL in it. */
  ghost predicate Proper(w: World) {
    forall r: Request, db: Db :: w.eval(r, db).Some? ==> NulFree(r.sql)
  }

  /** No NUL in the SQL, and no value of 2^32 bytes or more. */
  predicate Plain(r: Request) { NulFree(r.sql) && AllShort(r.params) }

  function KeyFor(r: Request): Key { KeyOf(r.sql, r.params) }

  // ---- the system ----

  /** Who holds the connection, and how far along. `before` is the state an unfinished write started from. */
  datatype Phase =
    | Free
    | Querying(req: Request)
    | Answering(req: Request, bytes: seq<Byte>)
    | Clearing(before: Db)

  /** `version` counts the commits of other connections. */
  datatype System = System(db: Db, version: nat, cache: Contents, dataVersion: Option<nat>, phase: Phase)

  function Start(db: Db): System { System(db, 0, EMPTY, None, Free) }

  datatype Step =
    | QueryCheck(req: Request)
    | QueryRun(after: Db)
    | QueryInsert
    | ExecuteRun(after: Db)
    | ExecuteClear
    | ExecuteFail(after: Db)
    | Probe(req: Request)
    | OtherCommit(after: Db)

  /** Writes that never reach the clear: a query that is not read-only, and what a failing execute leaves behind. */
  type Bypass = (Db, Db) -> bool

  ghost predicate Allowed(w: World, admits: Bypass, s: System, step: Step) {
    match step
    case QueryCheck(r) => s.phase.Free? && w.asks(r)
    case QueryRun(after) =>
      s.phase.Querying? && if w.readonly(s.phase.req.sql) then after == s.db else after == s.db || admits(s.db, after)
    case QueryInsert => s.phase.Answering?
    case ExecuteRun(_) => s.phase.Free?
    case ExecuteClear => s.phase.Clearing?
    case ExecuteFail(after) => s.phase.Free? && (after == s.db || admits(s.db, after))
    case Probe(r) => w.asks(r)
    case OtherCommit(_) => !w.inMemory
  }

  /** The check on a file: another connection's commit empties the cache. */
  function Refreshed(w: World, s: System): System {
    if w.inMemory || s.dataVersion == Some(s.version) then s else s.(cache := EMPTY, dataVersion := Some(s.version))
  }

  /** The result a locked check finds, if any. */
  function Found(w: World, s: System, r: Request): Option<seq<Byte>> {
    if w.safe(r.sql) && KeyFor(r) in Refreshed(w, s).cache.entries then Some(Refreshed(w, s).cache.entries[KeyFor(r)]) else None
  }

  /** What a probe returns: in-memory databases only, without the connection. */
  function Probed(w: World, s: System, r: Request): Option<seq<Byte>> {
    if w.inMemory && w.safe(r.sql) && KeyFor(r) in s.cache.entries then Some(s.cache.entries[KeyFor(r)]) else None
  }

  function Next(w: World, s: System, step: Step): System {
    match step
    case QueryCheck(r) =>
      if !w.safe(r.sql) then s.(phase := Querying(r))
      else if Found(w, s, r).Some? then Refreshed(w, s) else Refreshed(w, s).(phase := Querying(r))
    case QueryRun(after) =>
      if !s.phase.Querying? then s
      else if !w.readonly(s.phase.req.sql) then s.(db := after, phase := Free)
      else
        (match w.eval(s.phase.req, s.db)
         case None => s.(phase := Free)
         case Some(bytes) => s.(phase := Answering(s.phase.req, bytes)))
    case QueryInsert =>
      if !s.phase.Answering? then s
      else if w.safe(s.phase.req.sql) then s.(cache := Inserted(s.cache, KeyFor(s.phase.req), s.phase.bytes), phase := Free)
      else s.(phase := Free)
    case ExecuteRun(after) => s.(db := after, phase := Clearing(s.db))
    case ExecuteClear => s.(cache := EMPTY, phase := Free)
    case ExecuteFail(after) => s.(db := after)
    case Probe(_) => s
    case OtherCommit(after) => s.(db := after, version := s.version + 1)
  }

  // ---- the invariant ----

  /** Every entry is what running a request that finds it returns on `db`. */
  ghost predicate Fresh(w: World, cache: Contents, db: Db) {
    forall r: Request :: w.asks(r) && w.safe(r.sql) && KeyFor(r) in cache.entries ==>
      w.eval(r, db) == Some(cache.entries[KeyFor(r)]) && w.readonly(r.sql)
  }

  /** No other connection has committed since the cache was last checked. */
  predicate Current(w: World, s: System) { w.inMemory || s.dataVersion == Some(s.version) }

  ghost predicate Inv(w: World, s: System) {
    && Sound(s.cache)
    && (s.dataVersion.Some? ==> s.dataVersion.value <= s.version)
    && (Current(w, s) ==> Fresh(w, s.cache, if s.phase.Clearing? then s.phase.before else s.db))
    && (s.phase.Querying? ==> w.asks(s.phase.req) && (w.safe(s.phase.req.sql) ==> KeyFor(s.phase.req) !in s.cache.entries))
    && (s.phase.Answering? ==>
          && w.asks(s.phase.req) && w.readonly(s.phase.req.sql)
          && (w.safe(s.phase.req.sql) ==> KeyFor(s.phase.req) !in s.cache.entries)
          && (Current(w, s) ==> w.eval(s.phase.req, s.db) == Some(s.phase.bytes)))
  }

  /** A bypassing write changes no result the cache could hold. */
  ghost predicate Harmless(w: World, admits: Bypass) {
    forall d: Db, e: Db, r: Request :: admits(d, e) && Cacheable(w, r, d) ==> w.eval(r, e) == w.eval(r, d)
  }

  /** Requests asked under one key have one answer, as soon as one of them can be cached. */
  ghost predicate Tellable(w: World) {
    forall d: Db, r: Request, t: Request ::
      Cacheable(w, r, d) && w.asks(t) && w.safe(t.sql) && KeyFor(t) == KeyFor(r) ==> w.eval(t, d) == w.eval(r, d)
  }

  predicate Cacheable(w: World, r: Request, d: Db) {
    && w.asks(r) && w.safe(r.sql) && w.readonly(r.sql)
    && w.eval(r, d).Some? && |w.eval(r, d).value| <= CACHE_MAX_RESULT_BYTES
  }

  lemma EmptyFresh(w: World, db: Db)
    ensures Fresh(w, EMPTY, db) && Sound(EMPTY)
  {
  }

  lemma InsertFresh(w: World, cache: Contents, db: Db, r: Request, bytes: seq<Byte>)
    requires Proper(w) && Tellable(w) && Sound(cache) && Fresh(w, cache, db) && KeyFor(r) !in cache.entries
    requires w.asks(r) && w.safe(r.sql) && w.readonly(r.sql) && w.eval(r, db) == Some(bytes)
    ensures Fresh(w, Inserted(cache, KeyFor(r), bytes), db)
  {
    var d := Inserted(cache, KeyFor(r), bytes);
    forall t: Request | w.asks(t) && w.safe(t.sql) && KeyFor(t) in d.entries
      ensures w.eval(t, db) == Some(d.entries[KeyFor(t)]) && w.readonly(t.sql)
    {
      InsertedEntries(cache, KeyFor(r), bytes, KeyFor(t));
      if KeyFor(t) == KeyFor(r) {
        assert Cacheable(w, r, db);
        KeySql(t.sql, t.params, r.sql, r.params);
      }
    }
  }

  lemma InsertSound(cache: Contents, key: Key, bytes: seq<Byte>)
    requires Sound(cache) && key !in cache.entries
    ensures Sound(Inserted(cache, key, bytes))
  {
    InsertedSoundIff(cache, key, bytes);
    if |bytes| <= CACHE_MAX_RESULT_BYTES {
      EvictedIs(cache, |bytes|);
      var n: nat :| Dropped(cache, Evicted(cache, |bytes|), n);
    }
  }

  /** A harmless bypass keeps the entries fresh. */
  lemma BypassFresh(w: World, admits: Bypass, cache: Contents, d: Db, e: Db)
    requires Sound(cache) && Fresh(w, cache, d) && Harmless(w, admits) && (e == d || admits(d, e))
    ensures Fresh(w, cache, e)
  {
    if e != d {
      forall r: Request | w.asks(r) && w.safe(r.sql) && KeyFor(r) in cache.entries ensures w.eval(r, e) == Some(cache.entries[KeyFor(r)]) {
        assert Cacheable(w, r, d);
      }
    }
  }

  /** Every step of every interleaving keeps the invariant. */
  lemma StepKeepsInv(w: World, admits: Bypass, s: System, step: Step)
    requires Proper(w) && Tellable(w) && Harmless(w, admits) && Inv(w, s) && Allowed(w, admits, s, step)
    ensures Inv(w, Next(w, s, step))
  {
    match step
    case QueryCheck(r) => EmptyFresh(w, s.db);
    case QueryRun(after) =>
      if Current(w, s) {
        BypassFresh(w, admits, s.cache, s.db, after);
      }
    case QueryInsert =>
      if w.safe(s.phase.req.sql) {
        InsertSound(s.cache, KeyFor(s.phase.req), s.phase.bytes);
        if Current(w, s) {
          InsertFresh(w, s.cache, s.db, s.phase.req, s.phase.bytes);
        }
      }
    case ExecuteClear => EmptyFresh(w, s.db);
    case ExecuteFail(after) =>
      if Current(w, s) {
        BypassFresh(w, admits, s.cache, s.db, after);
      }
    case _ =>
  }

  // ---- what callers see ----

  /** A locked hit is what running the statement now would return. A probe returns that too, or, while a write is
      unfinished, what it would have returned just before that write. */
  ghost predicate AnswerRight(w: World, s: System, step: Step) {
    match step
    case QueryCheck(r) => Found(w, s, r).Some? ==> w.eval(r, s.db) == Found(w, s, r)
    case Probe(r) =>
      Probed(w, s, r).Some? ==>
        w.eval(r, if s.phase.Clearing? then s.phase.before else s.db) == Probed(w, s, r)
    case _ => true
  }

  lemma InvAnswers(w: World, admits: Bypass, s: System, step: Step)
    requires Inv(w, s) && Allowed(w, admits, s, step)
    ensures AnswerRight(w, s, step)
  {
  }

  /** Every answer along a run is right. */
  ghost predicate RunRight(w: World, admits: Bypass, s: System, steps: seq<Step>)
    decreases steps
  {
    steps == [] ||
    (Allowed(w, admits, s, steps[0]) ==> AnswerRight(w, s, steps[0]) && RunRight(w, admits, Next(w, s, steps[0]), steps[1..]))
  }

  lemma {:induction false} InvRuns(w: World, admits: Bypass, s: System, steps: seq<Step>)
    requires Proper(w) && Tellable(w) && Harmless(w, admits) && Inv(w, s)
    ensures RunRight(w, admits, s, steps)
    decreases steps
  {
    if steps != [] && Allowed(w, admits, s, steps[0]) {
      InvAnswers(w, admits, s, steps[0]);
      StepKeepsInv(w, admits, s, steps[0]);
      InvRuns(w, admits, Next(w, s, steps[0]), steps[1..]);
    }
  }

  /** The cache is never wrong, from any initial state and in any run. */
  ghost predicate Coherent(w: World, admits: Bypass) {
    forall db: Db, steps: seq<Step> :: RunRight(w, admits, Start(db), steps)
  }

  /** Cache a result, change it behind the cache's back, and ask again. */
  lemma StaleRun(w: World, admits: Bypass, d: Db, e: Db, r: Request)
    requires admits(d, e) && Cacheable(w, r, d) && w.eval(r, e) != w.eval(r, d)
    ensures !RunRight(w, admits, Start(d), [QueryCheck(r), QueryRun(d), QueryInsert, ExecuteFail(e), QueryCheck(r)])
  {
    var s0 := Start(d);
    var s1 := Next(w, s0, QueryCheck(r));
    var s2 := Next(w, s1, QueryRun(d));
    var s3 := Next(w, s2, QueryInsert);
    var s4 := Next(w, s3, ExecuteFail(e));
    CachedRun(w, d, r);
    assert Refreshed(w, s4) == s4 && Found(w, s4, r) == w.eval(r, d);
    assert !AnswerRight(w, s4, QueryCheck(r));
    WrongLast(w, admits, s4, QueryCheck(r));
    WrongStep(w, admits, s3, ExecuteFail(e), [QueryCheck(r)]);
    WrongStep(w, admits, s2, QueryInsert, [ExecuteFail(e), QueryCheck(r)]);
    WrongStep(w, admits, s1, QueryRun(d), [QueryInsert, ExecuteFail(e), QueryCheck(r)]);
    WrongStep(w, admits, s0, QueryCheck(r), [QueryRun(d), QueryInsert, ExecuteFail(e), QueryCheck(r)]);
  }

  /** Cache a result, and ask under its key for another. */
  lemma MixedRun(w: World, admits: Bypass, d: Db, r: Request, t: Request)
    requires Cacheable(w, r, d) && w.asks(t) && w.safe(t.sql) && KeyFor(t) == KeyFor(r) && w.eval(t, d) != w.eval(r, d)
    ensures !RunRight(w, admits, Start(d), [QueryCheck(r), QueryRun(d), QueryInsert, QueryCheck(t)])
  {
    var s1 := Next(w, Start(d), QueryCheck(r));
    var s2 := Next(w, s1, QueryRun(d));
    var s3 := Next(w, s2, QueryInsert);
    CachedRun(w, d, r);
    assert !AnswerRight(w, s3, QueryCheck(t));
    WrongLast(w, admits, s3, QueryCheck(t));
    WrongStep(w, admits, s2, QueryInsert, [QueryCheck(t)]);
    WrongStep(w, admits, s1, QueryRun(d), [QueryInsert, QueryCheck(t)]);
    WrongStep(w, admits, Start(d), QueryCheck(r), [QueryRun(d), QueryInsert, QueryCheck(t)]);
  }

  /** Asked once from the start, a cacheable result is kept. */
  lemma CachedRun(w: World, d: Db, r: Request)
    requires Cacheable(w, r, d)
    ensures var s1 := Next(w, Start(d), QueryCheck(r));
            var s2 := Next(w, s1, QueryRun(d));
            var s3 := Next(w, s2, QueryInsert);
            && s1.phase == Querying(r) && s2.phase == Answering(r, w.eval(r, d).value)
            && s3.phase.Free? && s3.db == d && Refreshed(w, s3) == s3
            && KeyFor(r) in s3.cache.entries && s3.cache.entries[KeyFor(r)] == w.eval(r, d).value
  {
    assert Evicted(EMPTY, |w.eval(r, d).value|) == EMPTY;
  }

  /** Asked again, a kept result is answered from the cache, and in memory to a probe as well. */
  lemma AskedAgain(w: World, d: Db, r: Request)
    requires Cacheable(w, r, d)
    ensures var s := Next(w, Next(w, Next(w, Start(d), QueryCheck(r)), QueryRun(d)), QueryInsert);
            && Found(w, s, r) == w.eval(r, d) && Next(w, s, QueryCheck(r)) == s
            && (w.inMemory ==> Probed(w, s, r) == w.eval(r, d))
  {
    CachedRun(w, d, r);
  }

  lemma WrongLast(w: World, admits: Bypass, s: System, step: Step)
    requires Allowed(w, admits, s, step) && !AnswerRight(w, s, step)
    ensures !RunRight(w, admits, s, [step])
  {
  }

  lemma WrongStep(w: World, admits: Bypass, s: System, step: Step, rest: seq<Step>)
    requires Allowed(w, admits, s, step) && !RunRight(w, admits, Next(w, s, step), rest)
    ensures !RunRight(w, admits, s, [step] + rest)
  {
    assert ([step] + rest)[1..] == rest;
  }

  /** The cache is coherent if and only if no write that bypasses the clear changes a result the cache could hold, and
      no request asked is answered from the entry of another. */
  lemma CoherentIff(w: World, admits: Bypass)
    requires Proper(w)
    ensures Coherent(w, admits) <==> Harmless(w, admits) && Tellable(w)
  {
    if Harmless(w, admits) && Tellable(w) {
      forall db: Db, steps: seq<Step> ensures RunRight(w, admits, Start(db), steps) {
        EmptyFresh(w, db);
        InvRuns(w, admits, Start(db), steps);
      }
    } else if !Harmless(w, admits) {
      var d: Db, e: Db, r: Request :| admits(d, e) && Cacheable(w, r, d) && w.eval(r, e) != w.eval(r, d);
      StaleRun(w, admits, d, e, r);
      assert !RunRight(w, admits, Start(d), [QueryCheck(r), QueryRun(d), QueryInsert, ExecuteFail(e), QueryCheck(r)]);
    } else {
      var d: Db, r: Request, t: Request :|
        Cacheable(w, r, d) && w.asks(t) && w.safe(t.sql) && KeyFor(t) == KeyFor(r) && w.eval(t, d) != w.eval(r, d);
      MixedRun(w, admits, d, r, t);
      assert !RunRight(w, admits, Start(d), [QueryCheck(r), QueryRun(d), QueryInsert, QueryCheck(t)]);
    }
  }

  /** Callers that send no NUL in SQL and no value of 2^32 bytes are never answered from another request's entry. */
  lemma PlainTellable(w: World)
    requires forall r :: w.asks(r) ==> Plain(r)
    ensures Tellable(w)
  {
    forall d: Db, r: Request, t: Request |
      Cacheable(w, r, d) && w.asks(t) && w.safe(t.sql) && KeyFor(t) == KeyFor(r)
      ensures w.eval(t, d) == w.eval(r, d)
    {
      KeyInjective(t.sql, t.params, r.sql, r.params);
    }
  }

  /** For such callers, all writes through `execute`, and no failing one leaving anything behind: always coherent. */
  lemma NoBypassCoherent(w: World)
    requires Proper(w) && forall r :: w.asks(r) ==> Plain(r)
    ensures Coherent(w, (d, e) => false)
  {
    PlainTellable(w);
    CoherentIff(w, (d, e) => false);
  }

  /** A lookup whose SQL holds a NUL can hit another statement's result, where running it is an error. */
  lemma NulLookupHits(w: World, admits: Bypass, r: Request, d: Db)
    requires Proper(w) && Cacheable(w, Request(r.sql, [Null] + r.params), d)
    requires var odd := Request(r.sql + [0], r.params); w.asks(odd) && w.safe(odd.sql)
    ensures var odd := Request(r.sql + [0], r.params);
            var s := Next(w, Next(w, Next(w, Start(d), QueryCheck(Request(r.sql, [Null] + r.params))), QueryRun(d)), QueryInsert);
            Found(w, s, odd).Some? && w.eval(odd, d) == None
    ensures !Coherent(w, admits)
  {
    var q, odd := Request(r.sql, [Null] + r.params), Request(r.sql + [0], r.params);
    NulCollides(r.sql, r.params);
    CachedRun(w, d, q);
    assert odd.sql[|r.sql|] == 0;
    assert w.eval(odd, d) == None;
    assert !Tellable(w);
    CoherentIff(w, admits);
  }

  // ---- the cache's own invariant needs no policy ----

  /** An insertion only follows a miss of its key, under one lock. */
  ghost predicate Tidy(w: World, s: System) {
    && Sound(s.cache)
    && (s.phase.Querying? && w.safe(s.phase.req.sql) ==> KeyFor(s.phase.req) !in s.cache.entries)
    && (s.phase.Answering? && w.safe(s.phase.req.sql) ==> KeyFor(s.phase.req) !in s.cache.entries)
  }

  function After(w: World, s: System, steps: seq<Step>): System
    decreases steps
  {
    if steps == [] then s else After(w, Next(w, s, steps[0]), steps[1..])
  }

  ghost predicate Possible(w: World, admits: Bypass, s: System, steps: seq<Step>)
    decreases steps
  {
    steps == [] || (Allowed(w, admits, s, steps[0]) && Possible(w, admits, Next(w, s, steps[0]), steps[1..]))
  }

  lemma {:induction false} TidyKept(w: World, admits: Bypass, s: System, steps: seq<Step>)
    requires Tidy(w, s) && Possible(w, admits, s, steps)
    ensures Tidy(w, After(w, s, steps))
    decreases steps
  {
    if steps != [] {
      TidyStep(w, admits, s, steps[0]);
      TidyKept(w, admits, Next(w, s, steps[0]), steps[1..]);
    }
  }

  lemma TidyStep(w: World, admits: Bypass, s: System, step: Step)
    requires Tidy(w, s) && Allowed(w, admits, s, step)
    ensures Tidy(w, Next(w, s, step))
  {
    EmptyFresh(w, s.db);
    if step == QueryInsert && w.safe(s.phase.req.sql) {
      InsertSound(s.cache, KeyFor(s.phase.req), s.phase.bytes);
    }
  }

  /** In every reachable state, whatever writes bypass the cache, its order, map and total agree, its limits hold, and
      an insertion is only ever due for a key that is not in it. */
  lemma ReachableSound(w: World, admits: Bypass, db: Db, steps: seq<Step>)
    requires Possible(w, admits, Start(db), steps)
    ensures Tidy(w, After(w, Start(db), steps))
  {
    EmptyFresh(w, db);
    TidyKept(w, admits, Start(db), steps);
  }
}
