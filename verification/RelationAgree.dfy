/** Batched loading, as functions over the whole list of rows, against row by row: when the two agree (orm.rs). */
module RelationAgree {
  import opened Bytes
  import opened SqlExpr
  import opened WhereTree
  import opened RelationNames
  import opened RelationRows
  import opened RelationBatch
  import opened JsonText

  predicate GoodSchema(ctx: Context) {
    AllPaired(ctx) && forall t :: t in ctx.schema ==> NamesApart(t) && KeysApart(t)
  }

  /** The schema `parse` derives is good when its foreign keys name declared columns. */
  lemma DerivedGood(ctx: Context, fks: seq<ForeignKey>)
    requires forall t :: t in ctx.schema ==> Claimed(Asked(t.table, fks), t.relations, ColumnNames(t.table)) && Declared(fks, t.table)
    ensures GoodSchema(ctx)
  {
    forall t | t in ctx.schema ensures NamesApart(t) && KeysApart(t) && forall r :: r in t.relations ==> KeysPaired(r) {
      DerivedApart(t.table, fks, t.relations);
    }
  }

  lemma ResolvedPaired(ctx: Context, table: OrmTable, name: string)
    requires AllPaired(ctx) && table in ctx.schema && Resolve(ctx, table, name).Some?
    ensures KeysPaired(Resolve(ctx, table, name).value.0)
    ensures FindTable(ctx.schema, Resolve(ctx, table, name).value.0.target) == Some(Resolve(ctx, table, name).value.1)
  {
  }

  // ---- the batch ----

  /** The group of a row. */
  function Found(done: seq<Row>, rel: Relation, row: Row): seq<Row> {
    match TupleOf(row, rel.local) case None => [] case Some(t) => Bucket(done, rel.foreign, t)
  }

  function Written(done: seq<Row>, rel: Relation, row: Row): Row {
    Insert(row, rel.name, Attachment(rel.belongsTo, Found(done, rel, row)))
  }

  function WrittenAll(done: seq<Row>, rel: Relation, rows: seq<Row>): (r: seq<Row>)
    ensures |r| == |rows|
  {
    seq(|rows|, k requires 0 <= k < |rows| => Written(done, rel, rows[k]))
  }

  /** One entry on all rows: load, nest, group, write. None is an error. */
  function BatchEntry(ctx: Context, table: OrmTable, e: Entry, rows: seq<Row>): (r: Option<seq<Row>>)
    requires AllPaired(ctx) && table in ctx.schema
    ensures r.Some? ==> |r.value| == |rows|
    decreases e, 2
  {
    if e.spec.Skip? then Some(rows) else
      match Resolve(ctx, table, e.name)
      case None => None
      case Some((rel, target)) =>
        ResolvedPaired(ctx, table, e.name);
        match LoadFor(ctx, rel, target.table, rows)
        case None => None
        case Some(loaded) =>
          match BatchNested(ctx, target, e.spec, loaded)
          case None => None
          case Some(done) => Some(WrittenAll(done, rel, rows))
  }

  function BatchNested(ctx: Context, target: OrmTable, spec: Spec, loaded: seq<Row>): (r: Option<seq<Row>>)
    requires AllPaired(ctx) && target in ctx.schema
    ensures r.Some? ==> |r.value| == |loaded|
    decreases spec, 1
  {
    if spec.With? && loaded != [] then BatchAttach(ctx, target, spec.nested, loaded) else Some(loaded)
  }

  function BatchAttach(ctx: Context, table: OrmTable, entries: seq<Entry>, rows: seq<Row>): (r: Option<seq<Row>>)
    requires AllPaired(ctx) && table in ctx.schema
    ensures r.Some? ==> |r.value| == |rows|
    decreases entries, 0
  {
    if entries == [] then Some(rows) else
      match BatchAttach(ctx, table, entries[..|entries| - 1], rows)
      case None => None
      case Some(mid) => BatchEntry(ctx, table, entries[|entries| - 1], mid)
  }

  // ---- exactness, along the entries that are asked for ----

  /** For this row, and for the rows this entry finds for it at every depth, the database finds for a key only rows
      that show that key. */
  ghost predicate EntryExact(ctx: Context, table: OrmTable, e: Entry, row: Row)
    requires AllPaired(ctx) && table in ctx.schema
    decreases e, 1
  {
    e.spec.Skip? ||
      match Resolve(ctx, table, e.name)
      case None => true
      case Some((rel, target)) =>
        ResolvedPaired(ctx, table, e.name);
        match TupleOf(row, rel.local)
        case None => true
        case Some(t) =>
          && TupleExact(ctx, target.table, rel.foreign, t)
          && (e.spec.With? && KeyOf(ctx, target.table, rel.foreign, t).Some? ==>
                forall b :: b in Lookup(ctx, target.table, rel.foreign, t) ==> EntriesExact(ctx, target, e.spec.nested, b))
  }

  ghost predicate EntriesExact(ctx: Context, table: OrmTable, entries: seq<Entry>, row: Row)
    requires AllPaired(ctx) && table in ctx.schema
    decreases entries, 0
  {
    forall k :: 0 <= k < |entries| ==> EntryExact(ctx, table, entries[k], row)
  }

  lemma KeysUntouched(ctx: Context, table: OrmTable, entries: seq<Entry>, row: Row, rel: Relation)
    requires GoodSchema(ctx) && table in ctx.schema && rel in table.relations && AttachRow(ctx, table, entries, row).Some?
    ensures TupleOf(AttachRow(ctx, table, entries, row).value, rel.local) == TupleOf(row, rel.local)
  {
    forall k | 0 <= k < |rel.local| ensures NotRelation(table, rel.local[k]) {
      var j :| 0 <= j < |table.relations| && table.relations[j] == rel;
      assert rel.local[k] in table.relations[j].local;
    }
    RowKeepsTuple(ctx, table, entries, row, rel.local);
  }

  /** Attaching earlier entries changes nothing about a later one. */
  lemma StillExact(ctx: Context, table: OrmTable, entries: seq<Entry>, row: Row, e: Entry)
    requires GoodSchema(ctx) && table in ctx.schema && EntryExact(ctx, table, e, row)
    requires AttachRow(ctx, table, entries, row).Some?
    ensures EntryExact(ctx, table, e, AttachRow(ctx, table, entries, row).value)
  {
    if !e.spec.Skip? && Resolve(ctx, table, e.name).Some? {
      KeysUntouched(ctx, table, entries, row, Resolve(ctx, table, e.name).value.0);
    }
  }

  // ---- one entry ----

  /** The keys of the rows are exact, one by one and together. */
  lemma TuplesExact(ctx: Context, rel: Relation, target: Table, rows: seq<Row>)
    requires KeysPaired(rel)
    requires forall k :: 0 <= k < |rows| && TupleOf(rows[k], rel.local).Some? ==>
               TupleExact(ctx, target, rel.foreign, TupleOf(rows[k], rel.local).value)
    ensures Fit(DistinctTuples(rows, rel.local), rel.foreign)
    ensures AllExact(ctx, target, rel.foreign, DistinctTuples(rows, rel.local))
  {
    var ts := DistinctTuples(rows, rel.local);
    FitPaired(rel, ts);
    forall k | 0 <= k < |ts| ensures TupleExact(ctx, target, rel.foreign, ts[k]) {
      var j := DistinctFrom(rows, rel.local, ts[k]);
    }
  }

  /** A row whose key is among the tuples, and what it looks up. */
  lemma RowLooksUp(ctx: Context, table: OrmTable, e: Entry, rel: Relation, target: OrmTable, row: Row, t: seq<Json>)
    requires AllPaired(ctx) && table in ctx.schema && target in ctx.schema && !e.spec.Skip? && KeysPaired(rel)
    requires Resolve(ctx, table, e.name) == Some((rel, target)) && TupleOf(row, rel.local) == Some(t)
    ensures KeyOf(ctx, target.table, rel.foreign, t).None? ==> AttachEntry(ctx, table, e, row).None?
    ensures KeyOf(ctx, target.table, rel.foreign, t).Some? ==>
              AttachEntry(ctx, table, e, row) ==
              match Nested(ctx, target, e.spec, Lookup(ctx, target.table, rel.foreign, t))
              case None => None
              case Some(done) => Some(Insert(row, rel.name, Attachment(rel.belongsTo, done)))
  {
  }

  /** A key that cannot be bound fails some row. */
  lemma UnboundFails(ctx: Context, table: OrmTable, e: Entry, rel: Relation, target: OrmTable, rows: seq<Row>)
    requires AllPaired(ctx) && table in ctx.schema && target in ctx.schema && !e.spec.Skip? && KeysPaired(rel)
    requires Resolve(ctx, table, e.name) == Some((rel, target)) && LoadFor(ctx, rel, target.table, rows).None?
    ensures exists k :: 0 <= k < |rows| && AttachEntry(ctx, table, e, rows[k]).None?
  {
    var ts := DistinctTuples(rows, rel.local);
    FitPaired(rel, ts);
    LoadAll(ctx, target.table, rel.foreign, ts);
    var k :| 0 <= k < |ts| && KeyOf(ctx, target.table, rel.foreign, ts[k]).None?;
    var j := DistinctFrom(rows, rel.local, ts[k]);
    RowLooksUp(ctx, table, e, rel, target, rows[j], ts[k]);
  }

  lemma ForeignKept(ctx: Context, rel: Relation, target: OrmTable)
    requires GoodSchema(ctx) && target in ctx.schema && forall c :: c in rel.foreign ==> c in ColumnNames(target.table)
    ensures forall k :: 0 <= k < |rel.foreign| ==> NotRelation(target, rel.foreign[k])
  {
    forall k | 0 <= k < |rel.foreign| ensures NotRelation(target, rel.foreign[k]) {
      assert rel.foreign[k] in ColumnNames(target.table);
    }
  }

  /** A row without a key is given nothing. */
  lemma KeylessRow(ctx: Context, table: OrmTable, e: Entry, rel: Relation, target: OrmTable, row: Row, done: seq<Row>)
    requires AllPaired(ctx) && table in ctx.schema && target in ctx.schema && !e.spec.Skip?
    requires Resolve(ctx, table, e.name) == Some((rel, target)) && TupleOf(row, rel.local) == None
    ensures AttachEntry(ctx, table, e, row) == Some(Written(done, rel, row))
  {
    assert Nested(ctx, target, e.spec, []) == Some([]);
  }

  lemma KeyedRow(ctx: Context, table: OrmTable, e: Entry, rel: Relation, target: OrmTable, row: Row, done: seq<Row>, t: seq<Json>)
    requires AllPaired(ctx) && table in ctx.schema && target in ctx.schema && !e.spec.Skip? && KeysPaired(rel)
    requires Resolve(ctx, table, e.name) == Some((rel, target)) && TupleOf(row, rel.local) == Some(t)
    requires KeyOf(ctx, target.table, rel.foreign, t).Some?
    requires Nested(ctx, target, e.spec, Lookup(ctx, target.table, rel.foreign, t)) == Some(Bucket(done, rel.foreign, t))
    ensures AttachEntry(ctx, table, e, row) == Some(Written(done, rel, row))
  {
    RowLooksUp(ctx, table, e, rel, target, row, t);
  }

  lemma TupleGroup(ctx: Context, rel: Relation, target: OrmTable, spec: Spec, rows: seq<Row>, done: seq<Row>, j: nat, t: seq<Json>)
    requires AllPaired(ctx) && target in ctx.schema && KeysPaired(rel) && j < |rows| && TupleOf(rows[j], rel.local) == Some(t)
    requires forall k :: 0 <= k < |rel.foreign| ==> NotRelation(target, rel.foreign[k])
    requires Fit(DistinctTuples(rows, rel.local), rel.foreign)
    requires AllExact(ctx, target.table, rel.foreign, DistinctTuples(rows, rel.local))
    requires LoadFor(ctx, rel, target.table, rows).Some?
    requires Nested(ctx, target, spec, LoadFor(ctx, rel, target.table, rows).value) == Some(done)
    ensures KeyOf(ctx, target.table, rel.foreign, t).Some?
    ensures Nested(ctx, target, spec, Lookup(ctx, target.table, rel.foreign, t)) == Some(Bucket(done, rel.foreign, t))
  {
    var ts := DistinctTuples(rows, rel.local);
    DistinctOnce(rows, rel.local);
    LoadAll(ctx, target.table, rel.foreign, ts);
    var k :| 0 <= k < |ts| && ts[k] == t;
    LoadBucket(ctx, target.table, rel.foreign, ts, t);
    if spec.With? {
      AttachedBucket(ctx, target, spec.nested, LoadFor(ctx, rel, target.table, rows).value, rel.foreign, t);
    }
  }

  lemma EntryWrites(ctx: Context, table: OrmTable, e: Entry, rel: Relation, target: OrmTable, rows: seq<Row>, done: seq<Row>, j: nat)
    requires GoodSchema(ctx) && table in ctx.schema && target in ctx.schema && !e.spec.Skip? && KeysPaired(rel) && j < |rows|
    requires Resolve(ctx, table, e.name) == Some((rel, target)) && Fit(DistinctTuples(rows, rel.local), rel.foreign)
    requires AllExact(ctx, target.table, rel.foreign, DistinctTuples(rows, rel.local))
    requires LoadFor(ctx, rel, target.table, rows).Some?
    requires Nested(ctx, target, e.spec, LoadFor(ctx, rel, target.table, rows).value) == Some(done)
    ensures AttachEntry(ctx, table, e, rows[j]) == Some(Written(done, rel, rows[j]))
  {
    match TupleOf(rows[j], rel.local)
    case None => KeylessRow(ctx, table, e, rel, target, rows[j], done);
    case Some(t) =>
      ForeignKept(ctx, rel, target);
      TupleGroup(ctx, rel, target, e.spec, rows, done, j, t);
      KeyedRow(ctx, table, e, rel, target, rows[j], done, t);
  }

  /** A nested entry that fails on what was loaded fails some row. */
  lemma NestedFails(ctx: Context, table: OrmTable, e: Entry, rel: Relation, target: OrmTable, rows: seq<Row>)
    requires AllPaired(ctx) && table in ctx.schema && target in ctx.schema && !e.spec.Skip? && KeysPaired(rel)
    requires Resolve(ctx, table, e.name) == Some((rel, target)) && Fit(DistinctTuples(rows, rel.local), rel.foreign)
    requires AllExact(ctx, target.table, rel.foreign, DistinctTuples(rows, rel.local))
    requires LoadFor(ctx, rel, target.table, rows).Some?
    requires Nested(ctx, target, e.spec, LoadFor(ctx, rel, target.table, rows).value).None?
    ensures exists k :: 0 <= k < |rows| && AttachEntry(ctx, table, e, rows[k]).None?
  {
    var ts := DistinctTuples(rows, rel.local);
    DistinctOnce(rows, rel.local);
    LoadAll(ctx, target.table, rel.foreign, ts);
    AttachedTogether(ctx, target, e.spec.nested, rel.foreign, ts);
    var k :| 0 <= k < |ts| && AttachAll(ctx, target, e.spec.nested, Lookup(ctx, target.table, rel.foreign, ts[k])).None?;
    var j := DistinctFrom(rows, rel.local, ts[k]);
    RowLooksUp(ctx, table, e, rel, target, rows[j], ts[k]);
  }

  /** Rows loaded for exact rows are exact for the nested entries. */
  lemma LoadedExact(ctx: Context, table: OrmTable, e: Entry, rel: Relation, target: OrmTable, rows: seq<Row>)
    requires AllPaired(ctx) && table in ctx.schema && target in ctx.schema && e.spec.With? && KeysPaired(rel)
    requires Resolve(ctx, table, e.name) == Some((rel, target)) && LoadFor(ctx, rel, target.table, rows).Some?
    requires forall k :: 0 <= k < |rows| ==> EntryExact(ctx, table, e, rows[k])
    ensures forall b :: b in LoadFor(ctx, rel, target.table, rows).value ==> EntriesExact(ctx, target, e.spec.nested, b)
  {
    var ts := DistinctTuples(rows, rel.local);
    FitPaired(rel, ts);
    forall b | b in LoadFor(ctx, rel, target.table, rows).value ensures EntriesExact(ctx, target, e.spec.nested, b) {
      var k := LoadedBy(ctx, target.table, rel.foreign, ts, b);
      var j := DistinctFrom(rows, rel.local, ts[k]);
      var key := KeyOf(ctx, target.table, rel.foreign, ts[k]).value;
      OneHit(ctx.db, rel.foreign, key, b);
      SelectMember(ctx.db, ctx.db.rows(target.table.name), rel.foreign, [key], b);
      assert b in Lookup(ctx, target.table, rel.foreign, ts[k]);
      assert EntryExact(ctx, table, e, rows[j]);
    }
  }

  // ---- every entry, at every depth ----

  /** One entry does to all rows what it does to each row alone, and fails exactly when it is unknown or fails a row. */
  lemma {:induction false} EntryIsPerRow(ctx: Context, table: OrmTable, e: Entry, rows: seq<Row>)
    requires GoodSchema(ctx) && table in ctx.schema && forall k :: 0 <= k < |rows| ==> EntryExact(ctx, table, e, rows[k])
    ensures BatchEntry(ctx, table, e, rows).Some? <==>
            (e.spec.Skip? || Resolve(ctx, table, e.name).Some?) && forall k :: 0 <= k < |rows| ==> AttachEntry(ctx, table, e, rows[k]).Some?
    ensures BatchEntry(ctx, table, e, rows).Some? ==>
            forall k :: 0 <= k < |rows| ==> AttachEntry(ctx, table, e, rows[k]) == Some(BatchEntry(ctx, table, e, rows).value[k])
    decreases e, 2
  {
    if !e.spec.Skip? && Resolve(ctx, table, e.name).Some? {
      var (rel, target) := Resolve(ctx, table, e.name).value;
      ResolvedPaired(ctx, table, e.name);
      forall k | 0 <= k < |rows| && TupleOf(rows[k], rel.local).Some?
        ensures TupleExact(ctx, target.table, rel.foreign, TupleOf(rows[k], rel.local).value)
      {
        assert EntryExact(ctx, table, e, rows[k]);
      }
      TuplesExact(ctx, rel, target.table, rows);
      match LoadFor(ctx, rel, target.table, rows)
      case None => UnboundFails(ctx, table, e, rel, target, rows);
      case Some(loaded) =>
        if e.spec.With? {
          LoadedExact(ctx, table, e, rel, target, rows);
        }
        NestedIsPerRow(ctx, target, e.spec, loaded);
        match Nested(ctx, target, e.spec, loaded)
        case None => NestedFails(ctx, table, e, rel, target, rows);
        case Some(done) =>
          forall k | 0 <= k < |rows| ensures AttachEntry(ctx, table, e, rows[k]) == Some(Written(done, rel, rows[k])) {
            EntryWrites(ctx, table, e, rel, target, rows, done, k);
          }
    }
  }

  lemma {:induction false} NestedIsPerRow(ctx: Context, target: OrmTable, spec: Spec, loaded: seq<Row>)
    requires GoodSchema(ctx) && target in ctx.schema
    requires spec.With? ==> forall b :: b in loaded ==> EntriesExact(ctx, target, spec.nested, b)
    ensures BatchNested(ctx, target, spec, loaded) == Nested(ctx, target, spec, loaded)
    decreases spec, 1
  {
    if spec.With? && loaded != [] {
      BatchIsPerRow(ctx, target, spec.nested, loaded);
      AttachAllAt(ctx, target, spec.nested, loaded);
      if AttachRow(ctx, target, spec.nested, loaded[0]).Some? {
        AttachedKnown(ctx, target, spec.nested, loaded[0]);
      }
      if BatchAttach(ctx, target, spec.nested, loaded).Some? {
        assert BatchAttach(ctx, target, spec.nested, loaded).value == AttachAll(ctx, target, spec.nested, loaded).value;
      }
    }
  }

  /** Batched loading attaches to every row, at every depth, what looking up that row alone would, and fails exactly
      when an entry is unknown or some row fails alone. */
  lemma {:induction false} BatchIsPerRow(ctx: Context, table: OrmTable, entries: seq<Entry>, rows: seq<Row>)
    requires GoodSchema(ctx) && table in ctx.schema && forall k :: 0 <= k < |rows| ==> EntriesExact(ctx, table, entries, rows[k])
    ensures BatchAttach(ctx, table, entries, rows).Some? <==>
            Known(ctx, table, entries) && forall k :: 0 <= k < |rows| ==> AttachRow(ctx, table, entries, rows[k]).Some?
    ensures BatchAttach(ctx, table, entries, rows).Some? ==>
            forall k :: 0 <= k < |rows| ==> AttachRow(ctx, table, entries, rows[k]) == Some(BatchAttach(ctx, table, entries, rows).value[k])
    decreases entries, 0
  {
    if entries != [] {
      var n := |entries| - 1;
      var init, e := entries[..n], entries[n];
      BatchIsPerRow(ctx, table, init, rows);
      if BatchAttach(ctx, table, init, rows).Some? {
        var mid := BatchAttach(ctx, table, init, rows).value;
        forall k | 0 <= k < |mid| ensures EntryExact(ctx, table, e, mid[k]) {
          assert EntryExact(ctx, table, entries[n], rows[k]);
          StillExact(ctx, table, init, rows[k], e);
        }
        EntryIsPerRow(ctx, table, e, mid);
      }
      KnownMore(ctx, table, entries);
    }
  }

  lemma KnownMore(ctx: Context, table: OrmTable, entries: seq<Entry>)
    requires entries != []
    ensures var n := |entries| - 1;
            Known(ctx, table, entries) <==>
              Known(ctx, table, entries[..n]) && (entries[n].spec.Skip? || Resolve(ctx, table, entries[n].name).Some?)
  {
  }

  // ---- exactly when ----

  lemma ObjectsInjective(a: seq<Row>, b: seq<Row>)
    requires Objects(a) == Objects(b)
    ensures a == b
  {
    assert |a| == |Objects(a)| == |b|;
    forall k | 0 <= k < |a| ensures a[k] == b[k] { assert Objects(a)[k] == Objects(b)[k]; }
  }

  lemma PlainRow(ctx: Context, table: OrmTable, e: Entry, rel: Relation, target: OrmTable, row: Row, t: seq<Json>, loaded: seq<Row>)
    requires AllPaired(ctx) && table in ctx.schema && target in ctx.schema && e.spec.Plain? && KeysPaired(rel)
    requires Resolve(ctx, table, e.name) == Some((rel, target)) && TupleOf(row, rel.local) == Some(t)
    requires KeyOf(ctx, target.table, rel.foreign, t).Some?
    ensures AttachEntry(ctx, table, e, row) == Some(Written(loaded, rel, row)) <==> SameAttachment(ctx, rel, target, loaded, t)
  {
    RowLooksUp(ctx, table, e, rel, target, row, t);
    InsertGets(row, rel.name, Attachment(rel.belongsTo, Bucket(loaded, rel.foreign, t)), rel.name);
    InsertGets(row, rel.name, Attachment(rel.belongsTo, Lookup(ctx, target.table, rel.foreign, t)), rel.name);
  }

  /** The group of a key and its own lookup attach the same. */
  predicate SameAttachment(ctx: Context, rel: Relation, target: OrmTable, loaded: seq<Row>, t: seq<Json>)
    requires |t| == |rel.foreign| && KeyOf(ctx, target.table, rel.foreign, t).Some?
  {
    Attachment(rel.belongsTo, Bucket(loaded, rel.foreign, t)) == Attachment(rel.belongsTo, Lookup(ctx, target.table, rel.foreign, t))
  }

  lemma PlainBatch(ctx: Context, table: OrmTable, e: Entry, rel: Relation, target: OrmTable, rows: seq<Row>)
    requires AllPaired(ctx) && table in ctx.schema && target in ctx.schema && e.spec.Plain? && KeysPaired(rel)
    requires Resolve(ctx, table, e.name) == Some((rel, target)) && LoadFor(ctx, rel, target.table, rows).Some?
    ensures BatchEntry(ctx, table, e, rows) == Some(WrittenAll(LoadFor(ctx, rel, target.table, rows).value, rel, rows))
  {
  }

  ghost predicate RowsRight(ctx: Context, table: OrmTable, e: Entry, rel: Relation, rows: seq<Row>, loaded: seq<Row>)
    requires AllPaired(ctx) && table in ctx.schema
  {
    forall k :: 0 <= k < |rows| ==> AttachEntry(ctx, table, e, rows[k]) == Some(Written(loaded, rel, rows[k]))
  }

  lemma RowsAreGroups(ctx: Context, table: OrmTable, e: Entry, rel: Relation, target: OrmTable, rows: seq<Row>, loaded: seq<Row>)
    requires AllPaired(ctx) && table in ctx.schema && target in ctx.schema && e.spec.Plain? && KeysPaired(rel)
    requires Resolve(ctx, table, e.name) == Some((rel, target)) && LoadFor(ctx, rel, target.table, rows) == Some(loaded)
    ensures var ts := DistinctTuples(rows, rel.local);
            && Fit(ts, rel.foreign) && (forall j :: 0 <= j < |ts| ==> KeyOf(ctx, target.table, rel.foreign, ts[j]).Some?)
            && (RowsRight(ctx, table, e, rel, rows, loaded) <==>
                forall j :: 0 <= j < |ts| ==> SameAttachment(ctx, rel, target, loaded, ts[j]))
  {
    var ts := DistinctTuples(rows, rel.local);
    FitPaired(rel, ts);
    DistinctOnce(rows, rel.local);
    LoadAll(ctx, target.table, rel.foreign, ts);
    forall k | 0 <= k < |rows| && TupleOf(rows[k], rel.local).None?
      ensures AttachEntry(ctx, table, e, rows[k]) == Some(Written(loaded, rel, rows[k]))
    {
      KeylessRow(ctx, table, e, rel, target, rows[k], loaded);
    }
    forall k, j | 0 <= k < |rows| && 0 <= j < |ts| && TupleOf(rows[k], rel.local) == Some(ts[j])
      ensures AttachEntry(ctx, table, e, rows[k]) == Some(Written(loaded, rel, rows[k]))
              <==> SameAttachment(ctx, rel, target, loaded, ts[j])
    {
      PlainRow(ctx, table, e, rel, target, rows[k], ts[j], loaded);
    }
    forall j | 0 <= j < |ts| ensures exists k :: 0 <= k < |rows| && TupleOf(rows[k], rel.local) == Some(ts[j]) {
      var k := DistinctFrom(rows, rel.local, ts[j]);
    }
  }

  /** For a list relation, the batch is right for every row if and only if the database finds for their keys only rows
      that show those keys. */
  lemma ListExactIff(ctx: Context, table: OrmTable, e: Entry, rel: Relation, target: OrmTable, rows: seq<Row>)
    requires AllPaired(ctx) && table in ctx.schema && target in ctx.schema && e.spec.Plain? && KeysPaired(rel) && !rel.belongsTo
    requires Resolve(ctx, table, e.name) == Some((rel, target)) && LoadFor(ctx, rel, target.table, rows).Some?
    ensures Fit(DistinctTuples(rows, rel.local), rel.foreign) && BatchEntry(ctx, table, e, rows).Some?
    ensures (forall k :: 0 <= k < |rows| ==> AttachEntry(ctx, table, e, rows[k]) == Some(BatchEntry(ctx, table, e, rows).value[k]))
            <==> AllExact(ctx, target.table, rel.foreign, DistinctTuples(rows, rel.local))
  {
    var ts, loaded := DistinctTuples(rows, rel.local), LoadFor(ctx, rel, target.table, rows).value;
    PlainBatch(ctx, table, e, rel, target, rows);
    RowsAreGroups(ctx, table, e, rel, target, rows, loaded);
    DistinctOnce(rows, rel.local);
    GroupsAreLookupsIff(ctx, target.table, rel.foreign, ts);
    forall j | 0 <= j < |ts|
      ensures SameAttachment(ctx, rel, target, loaded, ts[j]) <==>
              Bucket(loaded, rel.foreign, ts[j]) == Lookup(ctx, target.table, rel.foreign, ts[j])
    {
      ListAlike(Bucket(loaded, rel.foreign, ts[j]), Lookup(ctx, target.table, rel.foreign, ts[j]));
    }
  }

  lemma ListAlike(a: seq<Row>, b: seq<Row>)
    ensures Attachment(false, a) == Attachment(false, b) <==> a == b
  {
    if Attachment(false, a) == Attachment(false, b) {
      ObjectsInjective(a, b);
    }
  }

  // ---- a single parent ----

  /** No two different rows show the same key. */
  ghost predicate KeyedOnce(rows: seq<Row>, cols: seq<string>) {
    forall a, b :: a in rows && b in rows && TupleOf(a, cols).Some? && TupleOf(a, cols) == TupleOf(b, cols) ==> a == b
  }

  /** A row that shows a key is found by it. */
  ghost predicate ShownFound(ctx: Context, target: Table, cols: seq<string>, t: seq<Json>)
    requires |t| == |cols|
  {
    match KeyOf(ctx, target, cols, t)
    case None => true
    case Some(key) => forall row :: row in ctx.db.rows(target.name) && TupleOf(row, cols) == Some(t) ==> ctx.db.hit(cols, key, row)
  }

  lemma {:induction false} LoadHas(ctx: Context, target: Table, cols: seq<string>, ts: seq<seq<Json>>, k: nat, row: Row)
    requires Fit(ts, cols) && Load(ctx, target, cols, ts).Some? && k < |ts| && KeyOf(ctx, target, cols, ts[k]).Some?
    requires row in ctx.db.rows(target.name) && ctx.db.hit(cols, KeyOf(ctx, target, cols, ts[k]).value, row)
    ensures row in Load(ctx, target, cols, ts).value
  {
    var n := if |ts| < CHUNK then |ts| else CHUNK;
    var ks := Keys(ctx, target, cols, ts[..n]).value;
    if k < n {
      assert ts[..n][k] == ts[k] && ks[k] == KeyOf(ctx, target, cols, ts[k]).value;
      SelectMember(ctx.db, ctx.db.rows(target.name), cols, ks, row);
    } else {
      assert ts[n..][k - n] == ts[k];
      LoadHas(ctx, target, cols, ts[n..], k - n, row);
    }
  }

  lemma LookedUp(ctx: Context, target: Table, cols: seq<string>, t: seq<Json>, row: Row)
    requires |t| == |cols| && KeyOf(ctx, target, cols, t).Some?
    ensures row in Lookup(ctx, target, cols, t) <==>
            row in ctx.db.rows(target.name) && ctx.db.hit(cols, KeyOf(ctx, target, cols, t).value, row)
  {
    var key := KeyOf(ctx, target, cols, t).value;
    OneHit(ctx.db, cols, key, row);
    SelectMember(ctx.db, ctx.db.rows(target.name), cols, [key], row);
  }

  /** The first row a key finds shows it, or none is found. */
  predicate FirstExact(ctx: Context, target: Table, cols: seq<string>, t: seq<Json>)
    requires |t| == |cols| && KeyOf(ctx, target, cols, t).Some?
  {
    var found := Lookup(ctx, target, cols, t);
    found == [] || TupleOf(found[0], cols) == Some(t)
  }

  lemma SingleAlike(ctx: Context, rel: Relation, target: OrmTable, ts: seq<seq<Json>>, k: nat)
    requires Fit(ts, rel.foreign) && Load(ctx, target.table, rel.foreign, ts).Some? && k < |ts| && rel.belongsTo
    requires KeyOf(ctx, target.table, rel.foreign, ts[k]).Some? && ShownFound(ctx, target.table, rel.foreign, ts[k])
    requires KeyedOnce(ctx.db.rows(target.table.name), rel.foreign)
    ensures SameAttachment(ctx, rel, target, Load(ctx, target.table, rel.foreign, ts).value, ts[k]) <==>
            FirstExact(ctx, target.table, rel.foreign, ts[k])
  {
    var loaded, t := Load(ctx, target.table, rel.foreign, ts).value, ts[k];
    var group, found := Bucket(loaded, rel.foreign, t), Lookup(ctx, target.table, rel.foreign, t);
    if group != [] {
      BucketMember(loaded, rel.foreign, t, group[0]);
      var j := LoadedBy(ctx, target.table, rel.foreign, ts, group[0]);
      LookedUp(ctx, target.table, rel.foreign, t, group[0]);
    }
    if found != [] {
      LookedUp(ctx, target.table, rel.foreign, t, found[0]);
      LoadHas(ctx, target.table, rel.foreign, ts, k, found[0]);
      BucketMember(loaded, rel.foreign, t, found[0]);
    }
  }

  /** For a relation to one row whose key no other row shows, the batch is right for every row if and only if the first
      row found for each key shows that key. */
  lemma SingleExactIff(ctx: Context, table: OrmTable, e: Entry, rel: Relation, target: OrmTable, rows: seq<Row>)
    requires AllPaired(ctx) && table in ctx.schema && target in ctx.schema && e.spec.Plain? && KeysPaired(rel) && rel.belongsTo
    requires Resolve(ctx, table, e.name) == Some((rel, target)) && LoadFor(ctx, rel, target.table, rows).Some?
    requires KeyedOnce(ctx.db.rows(target.table.name), rel.foreign) && Fit(DistinctTuples(rows, rel.local), rel.foreign)
    requires forall t :: t in DistinctTuples(rows, rel.local) ==> |t| == |rel.foreign| && ShownFound(ctx, target.table, rel.foreign, t)
    ensures BatchEntry(ctx, table, e, rows).Some?
    ensures forall t :: t in DistinctTuples(rows, rel.local) ==> |t| == |rel.foreign| && KeyOf(ctx, target.table, rel.foreign, t).Some?
    ensures (forall k :: 0 <= k < |rows| ==> AttachEntry(ctx, table, e, rows[k]) == Some(BatchEntry(ctx, table, e, rows).value[k]))
            <==> forall t :: t in DistinctTuples(rows, rel.local) ==> FirstExact(ctx, target.table, rel.foreign, t)
  {
    var ts, loaded := DistinctTuples(rows, rel.local), LoadFor(ctx, rel, target.table, rows).value;
    PlainBatch(ctx, table, e, rel, target, rows);
    RowsAreGroups(ctx, table, e, rel, target, rows, loaded);
    forall j | 0 <= j < |ts|
      ensures SameAttachment(ctx, rel, target, loaded, ts[j]) <==> FirstExact(ctx, target.table, rel.foreign, ts[j])
    {
      SingleAlike(ctx, rel, target, ts, j);
    }
  }
}
