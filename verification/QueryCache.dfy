/** The bounded result cache (client.rs). */
module QueryCache {
  import opened Bytes

  type Key = seq<Byte>

  const CACHE_MAX_ENTRIES := 32
  const CACHE_MAX_TOTAL_BYTES := 0x800_0000
  const CACHE_MAX_RESULT_BYTES := 0x400_0000

  /** What the cache holds: entries by key, their order of arrival, and the running total of their lengths. */
  datatype Contents = Contents(entries: map<Key, seq<Byte>>, order: seq<Key>, totalBytes: int)

  const EMPTY := Contents(map[], [], 0)

  function LengthOf(entries: map<Key, seq<Byte>>, key: Key): nat { if key in entries then |entries[key]| else 0 }

  function Total(entries: map<Key, seq<Byte>>, keys: seq<Key>): nat {
    if keys == [] then 0 else LengthOf(entries, keys[0]) + Total(entries, keys[1..])
  }

  /** Order and map hold the same keys, once each; the total is the stored bytes; every limit is kept. */
  ghost predicate Sound(c: Contents) {
    && NoRepeat(c.order)
    && (forall k :: k in c.entries <==> k in c.order)
    && c.totalBytes == Total(c.entries, c.order)
    && |c.order| <= CACHE_MAX_ENTRIES
    && c.totalBytes <= CACHE_MAX_TOTAL_BYTES
    && forall k :: k in c.entries ==> |c.entries[k]| <= CACHE_MAX_RESULT_BYTES
  }

  /** The oldest entry leaves. */
  function PopFront(c: Contents): Contents
    requires c.order != []
  {
    var oldest := c.order[0];
    Contents(c.entries - {oldest}, c.order[1..], c.totalBytes - LengthOf(c.entries, oldest))
  }

  predicate TooFull(c: Contents, len: nat) {
    |c.order| >= CACHE_MAX_ENTRIES || (c.totalBytes + len > CACHE_MAX_TOTAL_BYTES && c.order != [])
  }

  /** Evictions until a result of `len` bytes fits. */
  function Evicted(c: Contents, len: nat): Contents
    decreases |c.order|
  {
    if TooFull(c, len) then Evicted(PopFront(c), len) else c
  }

  function Inserted(c: Contents, key: Key, bytes: seq<Byte>): Contents {
    if |bytes| > CACHE_MAX_RESULT_BYTES then c else
      var room := Evicted(c, |bytes|);
      Contents(room.entries[key := bytes], room.order + [key], room.totalBytes + |bytes|)
  }

  // ---- totals ----

  lemma {:induction false} TotalConcat(entries: map<Key, seq<Byte>>, a: seq<Key>, b: seq<Key>)
    ensures Total(entries, a + b) == Total(entries, a) + Total(entries, b)
  {
    if a == [] {
      assert a + b == b;
    } else {
      assert (a + b)[1..] == a[1..] + b;
      TotalConcat(entries, a[1..], b);
    }
  }

  lemma {:induction false} TotalSame(a: map<Key, seq<Byte>>, b: map<Key, seq<Byte>>, keys: seq<Key>)
    requires forall k :: k in keys ==> LengthOf(a, k) == LengthOf(b, k)
    ensures Total(a, keys) == Total(b, keys)
  {
    if keys != [] {
      TotalSame(a, b, keys[1..]);
    }
  }

  // ---- eviction ----

  lemma PopFrontSound(c: Contents)
    requires Sound(c) && c.order != []
    ensures Sound(PopFront(c))
  {
    var d := PopFront(c);
    forall k | k in d.order ensures k in c.order && k != c.order[0] {
      var i :| 0 <= i < |d.order| && d.order[i] == k;
      assert c.order[i + 1] == k;
    }
    forall k | k in c.order && k != c.order[0] ensures k in d.order {
      var i :| 0 <= i < |c.order| && c.order[i] == k;
      assert d.order[i - 1] == k;
    }
    TotalSame(c.entries, d.entries, d.order);
  }

  /** Eviction drops oldest entries, no more than it must, and ends with room. */
  lemma {:induction false} EvictedIs(c: Contents, len: nat)
    requires Sound(c) && len <= CACHE_MAX_RESULT_BYTES
    ensures Sound(Evicted(c, len)) && !TooFull(Evicted(c, len), len)
    ensures exists n: nat :: Dropped(c, Evicted(c, len), n)
    decreases |c.order|
  {
    if TooFull(c, len) {
      PopFrontSound(c);
      EvictedIs(PopFront(c), len);
      var n: nat :| Dropped(PopFront(c), Evicted(c, len), n);
      DroppedMore(c, Evicted(c, len), n);
    } else {
      assert c.order[0..] == c.order;
      assert Dropped(c, c, 0);
    }
  }

  /** `d` is `c` without its `n` oldest entries. */
  ghost predicate Dropped(c: Contents, d: Contents, n: nat) {
    && n <= |c.order| && d.order == c.order[n..]
    && forall k :: k in d.order ==> k in c.entries && k in d.entries && d.entries[k] == c.entries[k]
  }

  lemma DroppedMore(c: Contents, d: Contents, n: nat)
    requires Sound(c) && c.order != [] && Dropped(PopFront(c), d, n)
    ensures Dropped(c, d, n + 1)
  {
    assert c.order[1..][n..] == c.order[n + 1..];
  }

  /** The total of what is left once the oldest `n` are gone. */
  function Left(c: Contents, n: nat): nat
    requires n <= |c.order|
  {
    Total(c.entries, c.order[n..])
  }

  /** A result of up to 64 MiB goes in behind the youngest entries, as many as leave it a place among 32 entries and
      128 MiB; one more would be too many. A larger result changes nothing. */
  lemma {:induction false} InsertedKeeps(c: Contents, key: Key, bytes: seq<Byte>)
    requires Sound(c) && key !in c.entries
    ensures |bytes| > 0x400_0000 ==> Inserted(c, key, bytes) == c
    ensures |bytes| <= 0x400_0000 ==>
              exists n: nat :: n <= |c.order| && Inserted(c, key, bytes).order == c.order[n..] + [key] && Needed(c, |bytes|, n)
    ensures |bytes| <= 0x400_0000 ==>
              Inserted(c, key, bytes).entries[key] == bytes &&
              forall k :: k in Inserted(c, key, bytes).order && k != key ==>
                k in c.entries && k in Inserted(c, key, bytes).entries && Inserted(c, key, bytes).entries[k] == c.entries[k]
  {
    if |bytes| <= 0x400_0000 {
      EvictedIs(c, |bytes|);
      var n := EvictedNeeded(c, |bytes|);
      assert Dropped(c, Evicted(c, |bytes|), n);
    }
  }

  predicate Room(c: Contents, len: nat, n: nat)
    requires n <= |c.order|
  {
    |c.order| - n < 32 && (Left(c, n) + len <= 0x800_0000 || n == |c.order|)
  }

  /** Dropping `n` makes room and dropping one less does not. */
  predicate Needed(c: Contents, len: nat, n: nat)
    requires n <= |c.order|
  {
    Room(c, len, n) && (n > 0 ==> !Room(c, len, n - 1))
  }

  lemma {:induction false} EvictedNeeded(c: Contents, len: nat) returns (n: nat)
    requires Sound(c) && len <= 0x400_0000
    ensures n <= |c.order| && Dropped(c, Evicted(c, len), n) && Needed(c, len, n)
    decreases |c.order|
  {
    assert c.order[0..] == c.order;
    if TooFull(c, len) {
      var d := PopFront(c);
      PopFrontSound(c);
      var m := EvictedNeeded(d, len);
      DroppedMore(c, Evicted(c, len), m);
      n := m + 1;
      LeftLater(c, m);
      if m > 0 { LeftLater(c, m - 1); }
    } else {
      n := 0;
    }
  }

  lemma LeftLater(c: Contents, m: nat)
    requires Sound(c) && m < |c.order|
    ensures m <= |PopFront(c).order| && Left(PopFront(c), m) == Left(c, m + 1)
  {
    var d := PopFront(c);
    assert d.order[m..] == c.order[m + 1..];
    forall k | k in c.order[m + 1..] ensures LengthOf(c.entries, k) == LengthOf(d.entries, k) {
      var i :| 0 <= i < |c.order| - (m + 1) && c.order[m + 1..][i] == k;
      assert c.order[m + 1 + i] == k && c.order[0] != c.order[m + 1 + i];
    }
    TotalSame(c.entries, d.entries, c.order[m + 1..]);
  }

  /** Sound after an insertion if and only if the result is too large to keep or its key did not survive eviction. */
  lemma InsertedSoundIff(c: Contents, key: Key, bytes: seq<Byte>)
    requires Sound(c)
    ensures Sound(Inserted(c, key, bytes)) <==> |bytes| > CACHE_MAX_RESULT_BYTES || key !in Evicted(c, |bytes|).entries
  {
    if |bytes| <= CACHE_MAX_RESULT_BYTES {
      EvictedIs(c, |bytes|);
      var room, d := Evicted(c, |bytes|), Inserted(c, key, bytes);
      if key in room.entries {
        var i :| 0 <= i < |room.order| && room.order[i] == key;
        assert d.order[i] == d.order[|room.order|];
      } else {
        InsertedFresh(c, key, bytes);
      }
    }
  }

  lemma InsertedFresh(c: Contents, key: Key, bytes: seq<Byte>)
    requires Sound(Evicted(c, |bytes|)) && !TooFull(Evicted(c, |bytes|), |bytes|)
    requires |bytes| <= CACHE_MAX_RESULT_BYTES && key !in Evicted(c, |bytes|).entries
    ensures Sound(Inserted(c, key, bytes))
  {
    InsertedTotal(Evicted(c, |bytes|), key, bytes);
  }

  lemma InsertedTotal(room: Contents, key: Key, bytes: seq<Byte>)
    requires key !in room.order
    ensures Total(room.entries[key := bytes], room.order + [key]) == Total(room.entries, room.order) + |bytes|
  {
    var grown := room.entries[key := bytes];
    TotalConcat(grown, room.order, [key]);
    TotalSame(room.entries, grown, room.order);
    assert Total(grown, [key]) == |bytes| + Total(grown, []);
  }

  /** What a lookup finds after an insertion: the new result under its key, nothing else new. */
  lemma InsertedEntries(c: Contents, key: Key, bytes: seq<Byte>, k: Key)
    requires Sound(c) && k in Inserted(c, key, bytes).entries
    ensures var d := Inserted(c, key, bytes);
            if k == key && |bytes| <= CACHE_MAX_RESULT_BYTES then d.entries[k] == bytes
            else k in c.entries && d.entries[k] == c.entries[k]
  {
    if |bytes| <= CACHE_MAX_RESULT_BYTES {
      var room := Evicted(c, |bytes|);
      assert Inserted(c, key, bytes).entries == room.entries[key := bytes];
      if k != key {
        StillThere(c, |bytes|, k);
      }
    }
  }

  lemma StillThere(c: Contents, len: nat, k: Key)
    requires Sound(c) && len <= CACHE_MAX_RESULT_BYTES && k in Evicted(c, len).entries
    ensures k in c.entries && Evicted(c, len).entries[k] == c.entries[k]
  {
    EvictedIs(c, len);
    var n: nat :| Dropped(c, Evicted(c, len), n);
    assert k in Evicted(c, len).order;
  }

  // ---- the cache ----

  class Cache {
    var entries: map<Key, seq<Byte>>
    var order: seq<Key>
    var totalBytes: int
    var dataVersion: Option<nat>

    function View(): Contents
      reads this
    {
      Contents(entries, order, totalBytes)
    }

    constructor ()
      ensures View() == EMPTY && dataVersion == None
    {
      entries, order, totalBytes, dataVersion := map[], [], 0, None;
    }

    method Clear()
      modifies `entries, `order, `totalBytes
      ensures View() == EMPTY
    {
      entries, order, totalBytes := map[], [], 0;
    }

    /** The eviction loop ends, for want of entries if nothing else. */
    method Insert(key: Key, bytes: seq<Byte>)
      modifies `entries, `order, `totalBytes
      ensures View() == Inserted(old(View()), key, bytes)
    {
      if |bytes| > CACHE_MAX_RESULT_BYTES {
        return;
      }
      while |order| >= CACHE_MAX_ENTRIES || (totalBytes + |bytes| > CACHE_MAX_TOTAL_BYTES && order != [])
        invariant Evicted(View(), |bytes|) == old(Evicted(View(), |bytes|))
        decreases |order|
      {
        var oldest := order[0];
        order := order[1..];
        if oldest in entries {
          totalBytes := totalBytes - |entries[oldest]|;
          entries := entries - {oldest};
        } else {
          assert entries - {oldest} == entries;
        }
      }
      totalBytes := totalBytes + |bytes|;
      order := order + [key];
      entries := entries[key := bytes];
    }
  }
}
