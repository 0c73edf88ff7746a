/** `attach_relations`: the loops that load included relations in batches and write them into the rows (orm.rs). */
module RelationLoad {
  import opened Bytes
  import opened SqlExpr
  import opened WhereTree
  import opened RelationNames
  import opened RelationRows
  import opened RelationBatch
  import opened RelationAgree
  import opened JsonText

  // ---- the loops ----

  method CollectKeys(ctx: Context, rows: array<Row>, cols: seq<string>) returns (ts: seq<seq<Json>>)
    requires GoodFloats(ctx.floats)
    ensures ts == DistinctTuples(rows[..], cols)
  {
    var seen: seq<string> := [];
    ts := [];
    for k := 0 to rows.Length
      invariant ts == DistinctTuples(rows[..k], cols)
      invariant |seen| == |ts| && forall i :: 0 <= i < |seen| ==> seen[i] == KeyText(ts[i], ctx.floats)
    {
      assert rows[..k + 1][..k] == rows[..k];
      match TupleOf(rows[k], cols) {
        case None =>
        case Some(t) =>
          var key := KeyText(t, ctx.floats);
          assert key in seen <==> t in ts by {
            if key in seen {
              var i :| 0 <= i < |seen| && seen[i] == key;
              KeyTextInjective(ts[i], t, ctx.floats);
            }
            if t in ts {
              var i :| 0 <= i < |ts| && ts[i] == t;
              assert seen[i] == key;
            }
          }
          if key !in seen {
            seen := seen + [key];
            ts := ts + [t];
          }
      }
    }
    assert rows[..rows.Length] == rows[..];
  }

  method ChunkKeys(ctx: Context, target: Table, cols: seq<string>, ts: seq<seq<Json>>) returns (ks: Option<seq<seq<Value>>>)
    requires Fit(ts, cols)
    ensures ks == Keys(ctx, target, cols, ts)
  {
    var keys: seq<seq<Value>> := [];
    for k := 0 to |ts|
      invariant |keys| == k && forall i :: 0 <= i < k ==> KeyOf(ctx, target, cols, ts[i]) == Some(keys[i])
    {
      match KeyOf(ctx, target, cols, ts[k]) {
        case None =>
          KeysAll(ctx, target, cols, ts);
          return None;
        case Some(key) => keys := keys + [key];
      }
    }
    KeysAll(ctx, target, cols, ts);
    assert keys == Keys(ctx, target, cols, ts).value;
    ks := Some(keys);
  }

  function Onto(loaded: seq<Row>, rest: Option<seq<Row>>): Option<seq<Row>> {
    match rest case None => None case Some(rows) => Some(loaded + rows)
  }

  lemma OntoNothing(rest: Option<seq<Row>>)
    ensures Onto([], rest) == rest
  {
    if rest.Some? { assert [] + rest.value == rest.value; }
  }

  lemma OntoTwice(a: seq<Row>, b: seq<Row>, rest: Option<seq<Row>>)
    ensures Onto(a, Onto(b, rest)) == Onto(a + b, rest)
  {
    if rest.Some? { Assoc(a, b, rest.value); }
  }

  lemma TailCut<T>(s: seq<T>, at: nat, n: nat)
    requires at + n <= |s|
    ensures s[at..][..n] == s[at..at + n] && s[at..][n..] == s[at + n..]
  {
  }

  method LoadChunks(ctx: Context, target: Table, cols: seq<string>, ts: seq<seq<Json>>) returns (r: Option<seq<Row>>)
    requires Fit(ts, cols)
    ensures r == Load(ctx, target, cols, ts)
  {
    var loaded: seq<Row> := [];
    var at := 0;
    assert ts[0..] == ts;
    OntoNothing(Load(ctx, target, cols, ts));
    while at < |ts|
      invariant at <= |ts|
      invariant Load(ctx, target, cols, ts) == Onto(loaded, Load(ctx, target, cols, ts[at..]))
    {
      var n := if |ts| - at < CHUNK then |ts| - at else CHUNK;
      TailCut(ts, at, n);
      var ks := ChunkKeys(ctx, target, cols, ts[at..at + n]);
      match ks {
        case None => return None;
        case Some(keys) =>
          var batch := Query(ctx, target.name, cols, keys);
          OntoTwice(loaded, batch, Load(ctx, target, cols, ts[at + n..]));
          loaded := loaded + batch;
      }
      at := at + n;
    }
    assert ts[at..] == [] && Load(ctx, target, cols, ts[at..]) == Some([]);
    assert loaded + [] == loaded;
    r := Some(loaded);
  }

  function GroupOf(groups: map<string, seq<Row>>, key: string): seq<Row> { if key in groups then groups[key] else [] }

  method GroupRows(ctx: Context, rows: array<Row>, cols: seq<string>) returns (groups: map<string, seq<Row>>)
    requires GoodFloats(ctx.floats)
    ensures forall t: seq<Json> :: GroupOf(groups, KeyText(t, ctx.floats)) == Bucket(rows[..], cols, t)
  {
    groups := map[];
    for k := 0 to rows.Length
      invariant forall t: seq<Json> :: GroupOf(groups, KeyText(t, ctx.floats)) == Bucket(rows[..k], cols, t)
    {
      ghost var before, was := groups, rows[..k];
      assert rows[..k + 1] == rows[..k] + [rows[k]];
      match TupleOf(rows[k], cols) {
        case None =>
        case Some(t) =>
          var key := KeyText(t, ctx.floats);
          groups := groups[key := GroupOf(groups, key) + [rows[k]]];
      }
      forall u: seq<Json> ensures GroupOf(groups, KeyText(u, ctx.floats)) == Bucket(was + [rows[k]], cols, u) {
        BucketConcat(was, [rows[k]], cols, u);
        assert Bucket([rows[k]], cols, u) == if TupleOf(rows[k], cols) == Some(u) then [rows[k]] else [];
        if TupleOf(rows[k], cols).Some? && KeyText(TupleOf(rows[k], cols).value, ctx.floats) == KeyText(u, ctx.floats) {
          KeyTextInjective(TupleOf(rows[k], cols).value, u, ctx.floats);
        }
        assert GroupOf(before, KeyText(u, ctx.floats)) == Bucket(was, cols, u);
      }
    }
    assert rows[..rows.Length] == rows[..];
  }

  method WriteRows(ctx: Context, rel: Relation, groups: map<string, seq<Row>>, ghost done: seq<Row>, rows: array<Row>)
    requires forall t: seq<Json> :: GroupOf(groups, KeyText(t, ctx.floats)) == Bucket(done, rel.foreign, t)
    modifies rows
    ensures forall k :: 0 <= k < rows.Length ==> rows[k] == Written(done, rel, old(rows[k]))
  {
    for k := 0 to rows.Length
      invariant forall i :: 0 <= i < k ==> rows[i] == Written(done, rel, old(rows[i]))
      invariant forall i :: k <= i < rows.Length ==> rows[i] == old(rows[i])
    {
      var matches: seq<Row> :=
        match TupleOf(rows[k], rel.local) case None => [] case Some(t) => GroupOf(groups, KeyText(t, ctx.floats));
      assert matches == Found(done, rel, rows[k]);
      var value := if !rel.belongsTo then JArray(Objects(matches)) else if matches == [] then JNull else JObject(matches[0]);
      rows[k] := Insert(rows[k], rel.name, value);
    }
  }

  method AttachOne(ctx: Context, table: OrmTable, e: Entry, rows: array<Row>) returns (ok: bool)
    requires AllPaired(ctx) && GoodFloats(ctx.floats) && table in ctx.schema
    modifies rows
    ensures ok == BatchEntry(ctx, table, e, old(rows[..])).Some?
    ensures ok ==> BatchEntry(ctx, table, e, old(rows[..])) == Some(rows[..])
    decreases e
  {
    if e.spec.Skip? {
      return true;
    }
    var found := Resolve(ctx, table, e.name);
    if found.None? {
      return false;
    }
    var (rel, target) := found.value;
    ResolvedPaired(ctx, table, e.name);
    var ts := CollectKeys(ctx, rows, rel.local);
    FitPaired(rel, ts);
    var load := LoadChunks(ctx, target.table, rel.foreign, ts);
    if load.None? {
      return false;
    }
    var loaded := new Row[|load.value|](k requires 0 <= k < |load.value| => load.value[k]);
    assert loaded[..] == load.value;
    var nested := AttachNested(ctx, target, e.spec, loaded);
    if !nested {
      return false;
    }
    var groups := GroupRows(ctx, loaded, rel.foreign);
    WriteRows(ctx, rel, groups, loaded[..], rows);
    assert rows[..] == WrittenAll(loaded[..], rel, old(rows[..]));
    ok := true;
  }

  /** Nested entries run over the loaded rows, when there are any. */
  method AttachNested(ctx: Context, target: OrmTable, spec: Spec, loaded: array<Row>) returns (ok: bool)
    requires AllPaired(ctx) && GoodFloats(ctx.floats) && target in ctx.schema
    modifies loaded
    ensures ok == BatchNested(ctx, target, spec, old(loaded[..])).Some?
    ensures ok ==> BatchNested(ctx, target, spec, old(loaded[..])) == Some(loaded[..])
    decreases spec
  {
    ok := true;
    if spec.With? && loaded.Length > 0 {
      ok := AttachRelations(ctx, target, spec.nested, loaded);
    }
  }

  /** The loops do what the batch says, whatever the database answers. */
  method AttachRelations(ctx: Context, table: OrmTable, entries: seq<Entry>, rows: array<Row>) returns (ok: bool)
    requires AllPaired(ctx) && GoodFloats(ctx.floats) && table in ctx.schema
    modifies rows
    ensures ok == BatchAttach(ctx, table, entries, old(rows[..])).Some?
    ensures ok ==> BatchAttach(ctx, table, entries, old(rows[..])) == Some(rows[..])
    decreases entries
  {
    for n := 0 to |entries|
      invariant BatchAttach(ctx, table, entries[..n], old(rows[..])) == Some(rows[..])
    {
      assert entries[..n + 1][..n] == entries[..n];
      var fine := AttachOne(ctx, table, entries[n], rows);
      if !fine {
        StuckBatch(ctx, table, entries, old(rows[..]), n + 1, |entries|);
        assert entries[..|entries|] == entries;
        return false;
      }
    }
    assert entries[..|entries|] == entries;
    ok := true;
  }

  /** A failing entry fails the whole list. */
  lemma {:induction false} StuckBatch(ctx: Context, table: OrmTable, entries: seq<Entry>, rows: seq<Row>, n: nat, m: nat)
    requires AllPaired(ctx) && table in ctx.schema && n <= m <= |entries|
    requires BatchAttach(ctx, table, entries[..n], rows).None?
    ensures BatchAttach(ctx, table, entries[..m], rows).None?
  {
    if n < m {
      StuckBatch(ctx, table, entries, rows, n, m - 1);
      assert entries[..m][..m - 1] == entries[..m - 1];
    }
  }

  /** Includes loaded for a derived schema: every row ends as if it had been looked up alone. */
  method LoadIncludes(ctx: Context, ghost fks: seq<ForeignKey>, table: OrmTable, entries: seq<Entry>, rows: array<Row>)
    returns (ok: bool)
    requires GoodFloats(ctx.floats) && table in ctx.schema
    requires forall t :: t in ctx.schema ==> Claimed(Asked(t.table, fks), t.relations, ColumnNames(t.table)) && Declared(fks, t.table)
    requires AllPaired(ctx) && forall k :: 0 <= k < rows.Length ==> EntriesExact(ctx, table, entries, rows[k])
    modifies rows
    ensures ok <==> Known(ctx, table, entries) &&
                    forall k :: 0 <= k < rows.Length ==> AttachRow(ctx, table, entries, old(rows[k])).Some?
    ensures ok ==> forall k :: 0 <= k < rows.Length ==> AttachRow(ctx, table, entries, old(rows[k])) == Some(rows[k])
  {
    DerivedGood(ctx, fks);
    BatchIsPerRow(ctx, table, entries, rows[..]);
    ghost var was := rows[..];
    assert forall k :: 0 <= k < rows.Length ==> was[k] == old(rows[k]);
    ok := AttachRelations(ctx, table, entries, rows);
  }
}
