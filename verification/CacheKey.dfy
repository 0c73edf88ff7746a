/** Cache keys: SQL text, a NUL, and type-tagged parameter bytes (client.rs). */
module CacheKey {
  import opened Bytes

  datatype SqlValue =
    | Null
    | Integer(i: I64)
    | Real(f: F64)
    | Text(text: seq<Byte>)
    | Blob(blob: seq<Byte>)

  function ParamBytes(p: SqlValue): (bs: seq<Byte>)
    ensures bs != []
  {
    match p
    case Null => [0]
    case Integer(i) => [1] + Le(I64Bits(i), 8)
    case Real(f) => [2] + Le(f, 8)
    case Text(t) => [3] + (Le(U32(|t|), 4) + t)
    case Blob(b) => [4] + (Le(U32(|b|), 4) + b)
  }

  function ParamsBytes(ps: seq<SqlValue>): seq<Byte> {
    if ps == [] then [] else ParamBytes(ps[0]) + ParamsBytes(ps[1..])
  }

  function KeyOf(sql: seq<Byte>, ps: seq<SqlValue>): seq<Byte> { sql + ([0] + ParamsBytes(ps)) }

  /** `cache_key` */
  method MakeKey(sql: seq<Byte>, ps: seq<SqlValue>) returns (k: seq<Byte>)
    ensures k == KeyOf(sql, ps)
  {
    k := sql + [0];
    assert k == sql + ([0] + ParamsBytes(ps[..0]));
    for i := 0 to |ps|
      invariant k == sql + ([0] + ParamsBytes(ps[..i]))
    {
      k := PushParam(k, ps[i]);
      assert ps[..i + 1] == ps[..i] + [ps[i]];
      ParamsSnoc(ps[..i], ps[i]);
      MoreKey(sql, ParamsBytes(ps[..i]), ParamBytes(ps[i]));
    }
    assert ps[..|ps|] == ps;
  }

  lemma MoreKey(sql: seq<Byte>, done: seq<Byte>, more: seq<Byte>)
    ensures sql + ([0] + done) + more == sql + ([0] + (done + more))
  {
  }

  method PushParam(k: seq<Byte>, p: SqlValue) returns (k': seq<Byte>)
    ensures k' == k + ParamBytes(p)
  {
    match p {
      case Null => k' := k + [0];
      case Integer(n) => k' := k + [1] + Le(I64Bits(n), 8);
      case Real(f) => k' := k + [2] + Le(f, 8);
      case Text(t) =>
        k' := k + [3] + Le(U32(|t|), 4) + t;
        FourParts(k, [3], Le(U32(|t|), 4), t);
      case Blob(b) =>
        k' := k + [4] + Le(U32(|b|), 4) + b;
        FourParts(k, [4], Le(U32(|b|), 4), b);
    }
  }

  lemma FourParts(a: seq<Byte>, b: seq<Byte>, c: seq<Byte>, d: seq<Byte>)
    ensures a + b + c + d == a + (b + (c + d))
  {
  }

  lemma {:induction false} ParamsSnoc(ps: seq<SqlValue>, p: SqlValue)
    ensures ParamsBytes(ps + [p]) == ParamsBytes(ps) + ParamBytes(p)
  {
    if ps == [] {
      assert [] + [p] == [p] && ParamsBytes([p][1..]) == [];
    } else {
      assert (ps + [p])[1..] == ps[1..] + [p];
      ParamsSnoc(ps[1..], p);
    }
  }

  // ---- reading a key back ----

  /** Lengths the key writes in full. */
  predicate Short(p: SqlValue) {
    match p
    case Text(t) => |t| < TWO_TO_32
    case Blob(b) => |b| < TWO_TO_32
    case _ => true
  }

  predicate AllShort(ps: seq<SqlValue>) { forall k :: 0 <= k < |ps| ==> Short(ps[k]) }

  predicate NulFree(sql: seq<Byte>) { forall k :: 0 <= k < |sql| ==> sql[k] != 0 }

  /** A length-prefixed run of bytes and what follows. */
  lemma SizedReads(s: seq<Byte>, x: seq<Byte>, t: seq<Byte>, y: seq<Byte>)
    requires |s| < TWO_TO_32 && |t| < TWO_TO_32
    requires Le(U32(|s|), 4) + s + x == Le(U32(|t|), 4) + t + y
    ensures s == t && x == y
  {
    Assoc(Le(U32(|s|), 4), s, x);
    Assoc(Le(U32(|t|), 4), t, y);
    SameCut(Le(U32(|s|), 4), s + x, Le(U32(|t|), 4), t + y);
    U32RoundTrip(|s|);
    U32RoundTrip(|t|);
    SameCut(s, x, t, y);
  }

  lemma FixedReads(m: nat, x: seq<Byte>, n: nat, y: seq<Byte>)
    requires m < TWO_TO_64 && n < TWO_TO_64 && Le(m, 8) + x == Le(n, 8) + y
    ensures m == n && x == y
  {
    SameCut(Le(m, 8), x, Le(n, 8), y);
    U64RoundTrip(m);
    U64RoundTrip(n);
  }

  function Tag(p: SqlValue): Byte {
    match p case Null => 0 case Integer(_) => 1 case Real(_) => 2 case Text(_) => 3 case Blob(_) => 4
  }

  function Payload(p: SqlValue): seq<Byte> {
    match p
    case Null => []
    case Integer(i) => Le(I64Bits(i), 8)
    case Real(f) => Le(f, 8)
    case Text(t) => Le(U32(|t|), 4) + t
    case Blob(b) => Le(U32(|b|), 4) + b
  }

  lemma TagAndPayload(p: SqlValue, rest: seq<Byte>)
    ensures ParamBytes(p) + rest == [Tag(p)] + (Payload(p) + rest)
  {
  }

  lemma ParamReads(p: SqlValue, x: seq<Byte>, r: SqlValue, y: seq<Byte>)
    requires Short(p) && Short(r) && ParamBytes(p) + x == ParamBytes(r) + y
    ensures p == r && x == y
  {
    TagAndPayload(p, x);
    TagAndPayload(r, y);
    SameCut([Tag(p)], Payload(p) + x, [Tag(r)], Payload(r) + y);
    assert [Tag(p)][0] == [Tag(r)][0];
    match (p, r)
    case (Null, Null) => assert [] + x == x && [] + y == y;
    case (Integer(i), Integer(j)) =>
      FixedReads(I64Bits(i), x, I64Bits(j), y);
      I64BitsBack(i);
      I64BitsBack(j);
    case (Real(f), Real(g)) => FixedReads(f, x, g, y);
    case (Text(s), Text(t)) => SizedReads(s, x, t, y);
    case (Blob(s), Blob(t)) => SizedReads(s, x, t, y);
  }

  /** Parameter lists read back one value at a time. */
  lemma {:induction false} ParamsInjective(a: seq<SqlValue>, b: seq<SqlValue>)
    requires AllShort(a) && AllShort(b) && ParamsBytes(a) == ParamsBytes(b)
    ensures a == b
  {
    if a != [] && b != [] {
      ParamReads(a[0], ParamsBytes(a[1..]), b[0], ParamsBytes(b[1..]));
      ParamsInjective(a[1..], b[1..]);
      assert a == [a[0]] + a[1..] && b == [b[0]] + b[1..];
    }
  }

  /** Where the first NUL is. */
  function FirstNul(s: seq<Byte>): nat { if s == [] || s[0] == 0 then 0 else 1 + FirstNul(s[1..]) }

  lemma {:induction false} FirstNulIs(sql: seq<Byte>, rest: seq<Byte>)
    requires NulFree(sql)
    ensures FirstNul(sql + ([0] + rest)) == |sql|
  {
    if sql == [] {
      assert [] + ([0] + rest) == [0] + rest;
    } else {
      assert (sql + ([0] + rest))[1..] == sql[1..] + ([0] + rest);
      FirstNulIs(sql[1..], rest);
    }
  }

  /** Keys of NUL-free statements show the statement, whatever the values. */
  lemma KeySql(s: seq<Byte>, ps: seq<SqlValue>, t: seq<Byte>, rs: seq<SqlValue>)
    requires NulFree(s) && NulFree(t) && KeyOf(s, ps) == KeyOf(t, rs)
    ensures s == t && ParamsBytes(ps) == ParamsBytes(rs)
  {
    FirstNulIs(s, ParamsBytes(ps));
    FirstNulIs(t, ParamsBytes(rs));
    SameCut(s, [0] + ParamsBytes(ps), t, [0] + ParamsBytes(rs));
    SameCut([0], ParamsBytes(ps), [0], ParamsBytes(rs));
  }

  /** Keys of NUL-free statements with short values are injective. */
  lemma KeyInjective(s: seq<Byte>, ps: seq<SqlValue>, t: seq<Byte>, rs: seq<SqlValue>)
    requires NulFree(s) && NulFree(t) && AllShort(ps) && AllShort(rs) && KeyOf(s, ps) == KeyOf(t, rs)
    ensures s == t && ps == rs
  {
    KeySql(s, ps, t, rs);
    ParamsInjective(ps, rs);
  }

  /** Against the key of a NUL-free statement, a lookup under an equal key is the same lookup if and only if its own SQL
      is NUL-free. */
  lemma SameLookupIff(s: seq<Byte>, ps: seq<SqlValue>, t: seq<Byte>, rs: seq<SqlValue>)
    requires NulFree(s) && AllShort(ps) && AllShort(rs) && KeyOf(s, ps) == KeyOf(t, rs)
    ensures s == t && ps == rs <==> NulFree(t)
  {
    if NulFree(t) {
      KeyInjective(s, ps, t, rs);
    }
  }

  /** A NUL in the SQL passes for the separator and a NULL parameter. */
  lemma NulCollides(sql: seq<Byte>, ps: seq<SqlValue>)
    ensures KeyOf(sql + [0], ps) == KeyOf(sql, [Null] + ps)
  {
    assert ([Null] + ps)[1..] == ps;
    assert ParamsBytes([Null] + ps) == [0] + ParamsBytes(ps);
  }

  lemma {:induction false} NullsAreZeros(n: nat)
    ensures ParamsBytes(seq(n, _ => Null)) == Zeros(n)
  {
    if n > 0 {
      assert seq(n, _ => Null)[1..] == seq(n - 1, _ => Null);
      NullsAreZeros(n - 1);
      assert Zeros(n) == [0] + Zeros(n - 1);
    }
  }

  /** A text of 2^32 zero bytes keys like an empty one and as many NULLs. */
  lemma LongTextCollides(sql: seq<Byte>)
    ensures KeyOf(sql, [Text(Zeros(TWO_TO_32))]) == KeyOf(sql, [Text([])] + seq(TWO_TO_32, _ => Null))
  {
    var nulls := seq(TWO_TO_32, _ => Null);
    NullsAreZeros(TWO_TO_32);
    assert ([Text([])] + nulls)[1..] == nulls;
    LongTextBytes(Zeros(TWO_TO_32));
    assert ParamsBytes([Text([])] + nulls) == ParamBytes(Text([])) + Zeros(TWO_TO_32);
  }

  lemma LongTextBytes(t: seq<Byte>)
    requires U32(|t|) == 0
    ensures ParamsBytes([Text(t)]) == ParamBytes(Text([])) + t
  {
    assert ParamsBytes([Text(t)]) == ParamBytes(Text(t)) + [];
  }
}
