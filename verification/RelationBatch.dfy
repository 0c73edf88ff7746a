/** Distinct keys, chunked IN queries and hash grouping, against one lookup per key (orm.rs). */
module RelationBatch {
  import opened Bytes
  import opened SqlExpr
  import opened WhereTree
  import opened RelationNames
  import opened RelationRows
  import opened JsonText

  const CHUNK := 500

  // ---- the batch, as functions ----

  predicate Fit(ts: seq<seq<Json>>, cols: seq<string>) { forall k :: 0 <= k < |ts| ==> |ts[k]| == |cols| }

  /** The key tuples of the rows, each once, in the order first seen. */
  function DistinctTuples(rows: seq<Row>, cols: seq<string>): (ts: seq<seq<Json>>)
    ensures Fit(ts, cols)
  {
    if rows == [] then [] else
      var ts := DistinctTuples(rows[..|rows| - 1], cols);
      match TupleOf(rows[|rows| - 1], cols)
      case None => ts
      case Some(t) => if t in ts then ts else ts + [t]
  }

  lemma {:induction false} DistinctOnce(rows: seq<Row>, cols: seq<string>)
    ensures NoRepeat(DistinctTuples(rows, cols))
    ensures forall k :: 0 <= k < |rows| && TupleOf(rows[k], cols).Some? ==> TupleOf(rows[k], cols).value in DistinctTuples(rows, cols)
  {
    if rows != [] {
      var n := |rows| - 1;
      DistinctOnce(rows[..n], cols);
      forall k | 0 <= k < |rows| && TupleOf(rows[k], cols).Some?
        ensures TupleOf(rows[k], cols).value in DistinctTuples(rows, cols)
      {
        if k < n { assert rows[..n][k] == rows[k]; }
      }
    }
  }

  lemma {:induction false} DistinctFrom(rows: seq<Row>, cols: seq<string>, t: seq<Json>) returns (k: nat)
    requires t in DistinctTuples(rows, cols)
    ensures k < |rows| && TupleOf(rows[k], cols) == Some(t)
  {
    var n := |rows| - 1;
    if TupleOf(rows[n], cols) == Some(t) {
      k := n;
    } else {
      k := DistinctFrom(rows[..n], cols, t);
    }
  }

  /** In the order first seen: a row shows the earlier key before any shows the later one. */
  lemma {:induction false} FirstSeen(rows: seq<Row>, cols: seq<string>, i: nat, j: nat) returns (k: nat)
    requires i < j < |DistinctTuples(rows, cols)|
    ensures k < |rows| && TupleOf(rows[k], cols) == Some(DistinctTuples(rows, cols)[i])
    ensures forall l :: 0 <= l <= k ==> TupleOf(rows[l], cols) != Some(DistinctTuples(rows, cols)[j])
  {
    var n := |rows| - 1;
    var init := DistinctTuples(rows[..n], cols);
    if j < |init| {
      k := FirstSeen(rows[..n], cols, i, j);
    } else {
      k := DistinctFrom(rows[..n], cols, init[i]);
      DistinctOnce(rows[..n], cols);
      assert forall l :: 0 <= l < n ==> rows[..n][l] == rows[l];
    }
  }

  function Keys(ctx: Context, target: Table, cols: seq<string>, ts: seq<seq<Json>>): (ks: Option<seq<seq<Value>>>)
    requires Fit(ts, cols)
    ensures ks.Some? ==> |ks.value| == |ts| && forall k :: 0 <= k < |ts| ==> KeyOf(ctx, target, cols, ts[k]) == Some(ks.value[k])
  {
    if ts == [] then Some([]) else
      match KeyOf(ctx, target, cols, ts[0])
      case None => None
      case Some(k) => match Keys(ctx, target, cols, ts[1..]) case None => None case Some(ks) => Some([k] + ks)
  }

  lemma {:induction false} KeysAll(ctx: Context, target: Table, cols: seq<string>, ts: seq<seq<Json>>)
    requires Fit(ts, cols)
    ensures Keys(ctx, target, cols, ts).Some? <==> forall k :: 0 <= k < |ts| ==> KeyOf(ctx, target, cols, ts[k]).Some?
  {
    if ts != [] {
      KeysAll(ctx, target, cols, ts[1..]);
      if Keys(ctx, target, cols, ts).None? && KeyOf(ctx, target, cols, ts[0]).Some? {
        var k :| 0 <= k < |ts[1..]| && KeyOf(ctx, target, cols, ts[1..][k]).None?;
        assert ts[k + 1] == ts[1..][k];
      }
    }
  }

  /** One query for every `CHUNK` keys. */
  function Load(ctx: Context, target: Table, cols: seq<string>, ts: seq<seq<Json>>): Option<seq<Row>>
    requires Fit(ts, cols)
  {
    if ts == [] then Some([]) else
      var n := if |ts| < CHUNK then |ts| else CHUNK;
      match Keys(ctx, target, cols, ts[..n])
      case None => None
      case Some(ks) =>
        match Load(ctx, target, cols, ts[n..])
        case None => None
        case Some(rest) => Some(Query(ctx, target.name, cols, ks) + rest)
  }

  /** Up to 500 keys are one query, more are one for the first 500 and then the rest. */
  lemma FiveHundredEach(ctx: Context, target: Table, cols: seq<string>, ts: seq<seq<Json>>)
    requires Fit(ts, cols) && Load(ctx, target, cols, ts).Some?
    ensures 0 < |ts| <= 500 ==>
              && Keys(ctx, target, cols, ts).Some?
              && Load(ctx, target, cols, ts).value == Query(ctx, target.name, cols, Keys(ctx, target, cols, ts).value)
    ensures |ts| > 500 ==>
              && Keys(ctx, target, cols, ts[..500]).Some? && Load(ctx, target, cols, ts[500..]).Some?
              && Load(ctx, target, cols, ts).value ==
                 Query(ctx, target.name, cols, Keys(ctx, target, cols, ts[..500]).value) + Load(ctx, target, cols, ts[500..]).value
  {
    if 0 < |ts| <= 500 {
      assert ts[..|ts|] == ts && ts[|ts|..] == [] && Load(ctx, target, cols, ts[|ts|..]) == Some([]);
    }
  }

  /** What one relation loads for some rows. */
  function LoadFor(ctx: Context, rel: Relation, target: Table, rows: seq<Row>): Option<seq<Row>>
    requires KeysPaired(rel)
  {
    FitPaired(rel, DistinctTuples(rows, rel.local));
    Load(ctx, target, rel.foreign, DistinctTuples(rows, rel.local))
  }

  lemma FitPaired(rel: Relation, ts: seq<seq<Json>>)
    requires KeysPaired(rel) && Fit(ts, rel.local)
    ensures Fit(ts, rel.foreign)
  {
  }

  /** The rows whose own key is `t`. */
  function Bucket(rows: seq<Row>, cols: seq<string>, t: seq<Json>): seq<Row> {
    if rows == [] then []
    else (if TupleOf(rows[0], cols) == Some(t) then [rows[0]] else []) + Bucket(rows[1..], cols, t)
  }

  lemma {:induction false} BucketConcat(a: seq<Row>, b: seq<Row>, cols: seq<string>, t: seq<Json>)
    ensures Bucket(a + b, cols, t) == Bucket(a, cols, t) + Bucket(b, cols, t)
  {
    if a == [] {
      assert a + b == b;
    } else {
      BucketConcat(a[1..], b, cols, t);
      assert (a + b)[1..] == a[1..] + b && (a + b)[0] == a[0];
      Assoc(if TupleOf(a[0], cols) == Some(t) then [a[0]] else [], Bucket(a[1..], cols, t), Bucket(b, cols, t));
    }
  }

  lemma {:induction false} BucketMember(rows: seq<Row>, cols: seq<string>, t: seq<Json>, row: Row)
    ensures row in Bucket(rows, cols, t) <==> row in rows && TupleOf(row, cols) == Some(t)
  {
    if rows != [] {
      BucketMember(rows[1..], cols, t, row);
    }
  }

  // ---- when the database and the key text agree ----

  /** The rows the database finds for `t` have exactly the key `t`. */
  ghost predicate TupleExact(ctx: Context, target: Table, cols: seq<string>, t: seq<Json>)
    requires |t| == |cols|
  {
    match KeyOf(ctx, target, cols, t)
    case None => true
    case Some(key) => forall row :: row in ctx.db.rows(target.name) && ctx.db.hit(cols, key, row) ==> TupleOf(row, cols) == Some(t)
  }

  ghost predicate AllExact(ctx: Context, target: Table, cols: seq<string>, ts: seq<seq<Json>>)
    requires Fit(ts, cols)
  {
    forall k :: 0 <= k < |ts| ==> TupleExact(ctx, target, cols, ts[k])
  }

  /** The rows one key finds on its own. */
  function Lookup(ctx: Context, target: Table, cols: seq<string>, t: seq<Json>): seq<Row>
    requires |t| == |cols| && KeyOf(ctx, target, cols, t).Some?
  {
    Query(ctx, target.name, cols, [KeyOf(ctx, target, cols, t).value])
  }

  lemma OneHit(db: Db, cols: seq<string>, key: seq<Value>, row: Row)
    ensures HitAny(db, cols, [key], row) == db.hit(cols, key, row)
  {
    assert [key][0] == key;
  }

  lemma {:induction false} SelectBucket(ctx: Context, target: Table, rows: seq<Row>, cols: seq<string>, ts: seq<seq<Json>>,
                                        ks: seq<seq<Value>>, t: seq<Json>, key: seq<Value>)
    requires Fit(ts, cols) && Keys(ctx, target, cols, ts) == Some(ks) && AllExact(ctx, target, cols, ts)
    requires |t| == |cols| && KeyOf(ctx, target, cols, t) == Some(key)
    requires forall row :: row in rows ==> row in ctx.db.rows(target.name)
    ensures Bucket(Select(ctx.db, rows, cols, ks), cols, t) == if t in ts then Select(ctx.db, rows, cols, [key]) else []
  {
    if rows != [] {
      var row := rows[0];
      SelectBucket(ctx, target, rows[1..], cols, ts, ks, t, key);
      OneHit(ctx.db, cols, key, row);
      var head := if HitAny(ctx.db, cols, ks, row) then [row] else [];
      BucketConcat(head, Select(ctx.db, rows[1..], cols, ks), cols, t);
      if HitAny(ctx.db, cols, ks, row) {
        var k :| 0 <= k < |ks| && ctx.db.hit(cols, ks[k], row);
        assert TupleExact(ctx, target, cols, ts[k]);
        assert TupleOf(row, cols) == Some(ts[k]);
        assert Bucket([row], cols, t) == if ts[k] == t then [row] else [];
      }
      if t in ts {
        var k :| 0 <= k < |ts| && ts[k] == t;
        assert ks[k] == key && TupleExact(ctx, target, cols, ts[k]);
      }
    }
  }

  lemma {:induction false} LoadAll(ctx: Context, target: Table, cols: seq<string>, ts: seq<seq<Json>>)
    requires Fit(ts, cols)
    ensures Load(ctx, target, cols, ts).Some? <==> forall k :: 0 <= k < |ts| ==> KeyOf(ctx, target, cols, ts[k]).Some?
  {
    if ts != [] {
      var n := if |ts| < CHUNK then |ts| else CHUNK;
      KeysAll(ctx, target, cols, ts[..n]);
      LoadAll(ctx, target, cols, ts[n..]);
      CutAll(ts, n, k => |k| == |cols| && KeyOf(ctx, target, cols, k).Some?);
    }
  }

  lemma CutAll(ts: seq<seq<Json>>, n: nat, p: seq<Json> -> bool)
    requires n <= |ts|
    ensures (forall k :: 0 <= k < |ts| ==> p(ts[k])) <==>
            ((forall k :: 0 <= k < |ts[..n]| ==> p(ts[..n][k])) && forall k :: 0 <= k < |ts[n..]| ==> p(ts[n..][k]))
  {
    if (forall k :: 0 <= k < |ts[..n]| ==> p(ts[..n][k])) && forall k :: 0 <= k < |ts[n..]| ==> p(ts[n..][k]) {
      forall k | 0 <= k < |ts| ensures p(ts[k]) {
        if k < n { assert ts[..n][k] == ts[k]; } else { assert ts[n..][k - n] == ts[k]; }
      }
    }
  }

  /** The group of a key, over all chunks, is what that key finds alone. */
  lemma {:induction false} LoadBucket(ctx: Context, target: Table, cols: seq<string>, ts: seq<seq<Json>>, t: seq<Json>)
    requires Fit(ts, cols) && NoRepeat(ts) && AllExact(ctx, target, cols, ts) && Load(ctx, target, cols, ts).Some?
    requires |t| == |cols| && KeyOf(ctx, target, cols, t).Some?
    ensures Bucket(Load(ctx, target, cols, ts).value, cols, t) == if t in ts then Lookup(ctx, target, cols, t) else []
  {
    if ts != [] {
      var n, some, rest := LoadStep(ctx, target, cols, ts, t);
      LoadBucket(ctx, target, cols, ts[n..], t);
      CutMember(ts, n, t);
    }
  }

  lemma LoadStep(ctx: Context, target: Table, cols: seq<string>, ts: seq<seq<Json>>, t: seq<Json>)
    returns (n: nat, some: seq<Row>, rest: seq<Row>)
    requires ts != [] && Fit(ts, cols) && AllExact(ctx, target, cols, ts) && Load(ctx, target, cols, ts).Some?
    requires |t| == |cols| && KeyOf(ctx, target, cols, t).Some?
    ensures 0 < n <= |ts| && Load(ctx, target, cols, ts[n..]) == Some(rest)
    ensures Bucket(Load(ctx, target, cols, ts).value, cols, t) == some + Bucket(rest, cols, t)
    ensures some == if t in ts[..n] then Lookup(ctx, target, cols, t) else []
    ensures AllExact(ctx, target, cols, ts[n..])
  {
    n := if |ts| < CHUNK then |ts| else CHUNK;
    var ks := Keys(ctx, target, cols, ts[..n]).value;
    rest := Load(ctx, target, cols, ts[n..]).value;
    some := Bucket(Query(ctx, target.name, cols, ks), cols, t);
    SelectBucket(ctx, target, ctx.db.rows(target.name), cols, ts[..n], ks, t, KeyOf(ctx, target, cols, t).value);
    BucketConcat(Query(ctx, target.name, cols, ks), rest, cols, t);
  }

  lemma CutMember(ts: seq<seq<Json>>, n: nat, t: seq<Json>)
    requires n <= |ts| && NoRepeat(ts)
    ensures t in ts <==> t in ts[..n] || t in ts[n..]
    ensures !(t in ts[..n] && t in ts[n..])
  {
    assert ts == ts[..n] + ts[n..];
    forall j, k | 0 <= j < n && 0 <= k < |ts| - n ensures ts[..n][j] != ts[n..][k] {
      assert ts[j] != ts[n + k];
    }
  }

  lemma {:induction false} LoadedBy(ctx: Context, target: Table, cols: seq<string>, ts: seq<seq<Json>>, row: Row) returns (k: nat)
    requires Fit(ts, cols) && Load(ctx, target, cols, ts).Some? && row in Load(ctx, target, cols, ts).value
    ensures k < |ts| && KeyOf(ctx, target, cols, ts[k]).Some? && row in ctx.db.rows(target.name)
    ensures ctx.db.hit(cols, KeyOf(ctx, target, cols, ts[k]).value, row)
  {
    var n := if |ts| < CHUNK then |ts| else CHUNK;
    var ks := Keys(ctx, target, cols, ts[..n]).value;
    if row in Query(ctx, target.name, cols, ks) {
      SelectMember(ctx.db, ctx.db.rows(target.name), cols, ks, row);
      k :| 0 <= k < |ks| && ctx.db.hit(cols, ks[k], row);
    } else {
      k := LoadedBy(ctx, target, cols, ts[n..], row);
      k := n + k;
    }
  }

  lemma {:induction false} SelectMember(db: Db, rows: seq<Row>, cols: seq<string>, keys: seq<seq<Value>>, row: Row)
    ensures row in Select(db, rows, cols, keys) <==> row in rows && HitAny(db, cols, keys, row)
  {
    if rows != [] {
      SelectMember(db, rows[1..], cols, keys, row);
    }
  }

  /** Grouping by key text gives every key its own lookup exactly when the database finds for a key only rows that
      show that very key. */
  lemma GroupsAreLookupsIff(ctx: Context, target: Table, cols: seq<string>, ts: seq<seq<Json>>)
    requires Fit(ts, cols) && NoRepeat(ts) && Load(ctx, target, cols, ts).Some?
    requires forall k :: 0 <= k < |ts| ==> KeyOf(ctx, target, cols, ts[k]).Some?
    ensures (forall k :: 0 <= k < |ts| ==>
              Bucket(Load(ctx, target, cols, ts).value, cols, ts[k]) == Lookup(ctx, target, cols, ts[k]))
            <==> AllExact(ctx, target, cols, ts)
  {
    if AllExact(ctx, target, cols, ts) {
      forall k | 0 <= k < |ts| ensures Bucket(Load(ctx, target, cols, ts).value, cols, ts[k]) == Lookup(ctx, target, cols, ts[k]) {
        LoadBucket(ctx, target, cols, ts, ts[k]);
      }
    } else {
      var k :| 0 <= k < |ts| && !TupleExact(ctx, target, cols, ts[k]);
      var key := KeyOf(ctx, target, cols, ts[k]).value;
      var row :| row in ctx.db.rows(target.name) && ctx.db.hit(cols, key, row) && TupleOf(row, cols) != Some(ts[k]);
      OneHit(ctx.db, cols, key, row);
      SelectMember(ctx.db, ctx.db.rows(target.name), cols, [key], row);
      BucketMember(Load(ctx, target, cols, ts).value, cols, ts[k], row);
      assert row in Lookup(ctx, target, cols, ts[k]);
    }
  }

  lemma OneColumn(ctx: Context, target: Table, cols: seq<string>, t: seq<Json>, row: Row)
    requires |cols| == |t| == 1
    ensures forall v :: ToParamAs(target, cols[0], t[0], ctx.casts) == Ok(v) ==> KeyOf(ctx, target, cols, t) == Some([v])
    ensures forall v :: CellOf(row, cols[0]) == Some(v) && v != JNull ==> TupleOf(row, cols) == Some([v])
  {
    assert KeyOf(ctx, target, cols[1..], t[1..]) == Some([]);
    assert TupleOf(row, cols[1..]) == Some([]);
    match ToParamAs(target, cols[0], t[0], ctx.casts) {
      case Ok(v) => assert [v] + [] == [v];
      case Err(_) =>
    }
    match CellOf(row, cols[0]) {
      case Some(v) => assert [v] + [] == [v];
      case None =>
    }
  }

  /** The row shows these very values, none of them null. */
  predicate Holds(row: Row, cols: seq<string>, key: seq<Value>) {
    && |key| == |cols|
    && forall k :: 0 <= k < |cols| ==>
         CellOf(row, cols[k]).Some? && CellOf(row, cols[k]).value != JNull && ToParam(CellOf(row, cols[k]).value) == Ok(key[k])
  }

  /** The database finds a row by the values it shows. */
  ghost predicate FindsHeld(db: Db, table: string, cols: seq<string>) {
    forall key, row :: row in db.rows(table) && Holds(row, cols, key) ==> db.hit(cols, key, row)
  }

  /** An integer key bound to a column declared float loses the row that shows the equal float: looked up alone the row
      is there, in the batch it falls into another group. */
  lemma MixedTypesMiss(ctx: Context, target: Table, col: string, i: I64, row: Row, ts: seq<seq<Json>>)
    requires TypeOf(target, col) == Some(FloatCol) && FindsHeld(ctx.db, target.name, [col]) && row in ctx.db.rows(target.name)
    requires CellOf(row, col) == Some(JFloat(ctx.casts.toFloat(i)))
    requires Fit(ts, [col]) && [JInt(i)] in ts && Load(ctx, target, [col], ts).Some?
    ensures KeyOf(ctx, target, [col], [JInt(i)]).Some? && row in Lookup(ctx, target, [col], [JInt(i)])
    ensures row !in Bucket(Load(ctx, target, [col], ts).value, [col], [JInt(i)])
  {
    var cols, t, key := [col], [JInt(i)], [FloatValue(ctx.casts.toFloat(i))];
    OneColumn(ctx, target, cols, t, row);
    assert [JFloat(ctx.casts.toFloat(i))][0] != t[0];
    assert Holds(row, cols, key);
    OneHit(ctx.db, cols, key, row);
    SelectMember(ctx.db, ctx.db.rows(target.name), cols, [key], row);
    BucketMember(Load(ctx, target, cols, ts).value, cols, t, row);
  }

  // ---- attaching to the loaded rows first ----

  lemma {:induction false} AttachedBucket(ctx: Context, table: OrmTable, entries: seq<Entry>, rows: seq<Row>,
                                          cols: seq<string>, t: seq<Json>)
    requires AllPaired(ctx) && table in ctx.schema && AttachAll(ctx, table, entries, rows).Some?
    requires forall k :: 0 <= k < |cols| ==> NotRelation(table, cols[k])
    ensures AttachAll(ctx, table, entries, Bucket(rows, cols, t)) == Some(Bucket(AttachAll(ctx, table, entries, rows).value, cols, t))
  {
    if rows != [] {
      var done := AttachAll(ctx, table, entries, rows).value;
      AttachedBucket(ctx, table, entries, rows[1..], cols, t);
      RowKeepsTuple(ctx, table, entries, rows[0], cols);
      assert done[1..] == AttachAll(ctx, table, entries, rows[1..]).value;
      if TupleOf(rows[0], cols) == Some(t) {
        assert Bucket(rows, cols, t)[1..] == Bucket(rows[1..], cols, t);
      } else {
        assert Bucket(rows, cols, t) == Bucket(rows[1..], cols, t);
        assert Bucket(done, cols, t) == Bucket(done[1..], cols, t);
      }
    }
  }

  /** Attaching to everything loaded succeeds exactly when it does for the rows of each key. */
  lemma AttachedTogether(ctx: Context, table: OrmTable, entries: seq<Entry>, cols: seq<string>, ts: seq<seq<Json>>)
    requires AllPaired(ctx) && table in ctx.schema && Fit(ts, cols) && NoRepeat(ts) && AllExact(ctx, table.table, cols, ts)
    requires Load(ctx, table.table, cols, ts).Some?
    requires forall k :: 0 <= k < |ts| ==> KeyOf(ctx, table.table, cols, ts[k]).Some?
    ensures AttachAll(ctx, table, entries, Load(ctx, table.table, cols, ts).value).Some? <==>
            forall k :: 0 <= k < |ts| ==> AttachAll(ctx, table, entries, Lookup(ctx, table.table, cols, ts[k])).Some?
  {
    var rows := Load(ctx, table.table, cols, ts).value;
    AttachAllAt(ctx, table, entries, rows);
    forall k | 0 <= k < |ts|
      ensures AttachAll(ctx, table, entries, rows).Some? ==> AttachAll(ctx, table, entries, Lookup(ctx, table.table, cols, ts[k])).Some?
    {
      var some := Lookup(ctx, table.table, cols, ts[k]);
      LoadBucket(ctx, table.table, cols, ts, ts[k]);
      AttachAllAt(ctx, table, entries, some);
      forall j | 0 <= j < |some| ensures some[j] in rows {
        BucketMember(rows, cols, ts[k], some[j]);
      }
    }
    if forall k :: 0 <= k < |ts| ==> AttachAll(ctx, table, entries, Lookup(ctx, table.table, cols, ts[k])).Some? {
      forall j | 0 <= j < |rows| ensures AttachRow(ctx, table, entries, rows[j]).Some? {
        var k := LoadedBy(ctx, table.table, cols, ts, rows[j]);
        var some := Lookup(ctx, table.table, cols, ts[k]);
        assert TupleExact(ctx, table.table, cols, ts[k]);
        LoadBucket(ctx, table.table, cols, ts, ts[k]);
        BucketMember(rows, cols, ts[k], rows[j]);
        AttachAllAt(ctx, table, entries, some);
        var i :| 0 <= i < |some| && some[i] == rows[j];
      }
    }
  }
}
