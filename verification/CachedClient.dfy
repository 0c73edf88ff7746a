/** The client's calls around the cache, each a few steps of the protocol under one lock (client.rs). */
module CachedClient {
  import opened Bytes
  import opened QueryCache
  import opened CacheKey
  import opened CacheProtocol

  class Client {
    /** The database, and how often other connections have committed to it. */
    var db: Db
    var version: nat
    const cache: Cache
    const world: World

    function Now(): System
      reads this, cache
    {
      System(db, version, cache.View(), cache.dataVersion, Free)
    }

    constructor (world: World, db: Db)
      ensures Now() == Start(db) && this.world == world && fresh(cache)
    {
      this.world, this.db, version := world, db, 0;
      cache := new Cache();
    }

    /** A statement run on the connection: its answer, and the state it leaves. */
    method RunStatement(r: Request, after: Db) returns (bytes: Option<seq<Byte>>, readonly: bool)
      requires world.readonly(r.sql) ==> after == db
      modifies `db
      ensures db == after && readonly == world.readonly(r.sql) && bytes == world.eval(r, old(db))
    {
      bytes, readonly := world.eval(r, db), world.readonly(r.sql);
      db := after;
    }

    /** `query_bytes_shared`: check, run, insert, with the connection held throughout. */
    method QueryBytesShared(r: Request, after: Db) returns (bytes: Option<seq<Byte>>)
      requires world.readonly(r.sql) ==> after == db
      modifies `db, cache
      ensures var s0 := old(Now());
              var s1 := Next(world, s0, QueryCheck(r));
              var s2 := Next(world, s1, QueryRun(after));
              if s1.phase.Free? then Now() == s1 && bytes == Found(world, s0, r)
              else if s2.phase.Free? then Now() == s2 && bytes == world.eval(r, s1.db)
              else Now() == Next(world, s2, QueryInsert) && bytes == Some(s2.phase.bytes)
    {
      var cacheable := world.safe(r.sql);
      var key := MakeKey(r.sql, r.params);
      if cacheable {
        if !world.inMemory && cache.dataVersion != Some(version) {
          cache.Clear();
          cache.dataVersion := Some(version);
        }
        if key in cache.entries {
          return Some(cache.entries[key]);
        }
      }
      var readonly;
      bytes, readonly := RunStatement(r, after);
      if bytes.Some? && cacheable && readonly {
        cache.Insert(key, bytes.value);
      }
    }

    /** `probe_cache` */
    method ProbeCache(r: Request) returns (bytes: Option<seq<Byte>>)
      ensures bytes == Probed(world, Now(), r)
    {
      if !world.inMemory || !world.safe(r.sql) {
        return None;
      }
      var key := MakeKey(r.sql, r.params);
      return if key in cache.entries then Some(cache.entries[key]) else None;
    }

    /** `execute`: the clear comes after a write that worked, and not after one that failed. */
    method Execute(after: Db, fails: bool) returns (ok: bool)
      modifies `db, cache
      ensures ok == !fails
      ensures Now() == if fails then Next(world, old(Now()), ExecuteFail(after))
                       else Next(world, Next(world, old(Now()), ExecuteRun(after)), ExecuteClear)
    {
      db := after;
      if fails {
        return false;
      }
      cache.Clear();
      return true;
    }
  }
}
