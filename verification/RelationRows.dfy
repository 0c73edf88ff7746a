/** Included relations, row by row: the reference that batched loading is held to (orm.rs). */
module RelationRows {
  import opened Bytes
  import opened SqlExpr
  import opened WhereTree
  import opened RelationNames
  import opened JsonText

  // ---- rows as ordered objects ----

  type Row = seq<Field>

  function CellOf(row: Row, name: string): Option<Json> {
    if row == [] then None else if row[0].key == name then Some(row[0].value) else CellOf(row[1..], name)
  }

  /** A key that is there keeps its place; a new one goes last. */
  function Insert(row: Row, name: string, value: Json): Row {
    if row == [] then [Field(name, value)]
    else if row[0].key == name then [Field(name, value)] + row[1..]
    else [row[0]] + Insert(row[1..], name, value)
  }

  lemma {:induction false} InsertGets(row: Row, name: string, value: Json, other: string)
    ensures CellOf(Insert(row, name, value), other) == if other == name then Some(value) else CellOf(row, other)
  {
    if row != [] && row[0].key != name {
      InsertGets(row[1..], name, value, other);
      assert Insert(row, name, value)[1..] == Insert(row[1..], name, value);
    }
  }

  /** The values of the key columns; none when one is missing or null. */
  function TupleOf(row: Row, cols: seq<string>): (t: Option<seq<Json>>)
    ensures t.Some? ==> |t.value| == |cols|
  {
    if cols == [] then Some([]) else
      match CellOf(row, cols[0])
      case None => None
      case Some(v) =>
        if v == JNull then None else
          match TupleOf(row, cols[1..]) case None => None case Some(vs) => Some([v] + vs)
  }

  lemma {:induction false} SameTuple(a: Row, b: Row, cols: seq<string>)
    requires forall k :: 0 <= k < |cols| ==> CellOf(a, cols[k]) == CellOf(b, cols[k])
    ensures TupleOf(a, cols) == TupleOf(b, cols)
  {
    if cols != [] {
      SameTuple(a, b, cols[1..]);
    }
  }

  // ---- the database ----

  /** The rows of each table as the client materialises them, in table order, and when the database takes a row's key
      columns to equal a tuple of bound values. */
  datatype Db = Db(rows: string -> seq<Row>, hit: (seq<string>, seq<Value>, Row) -> bool)

  datatype Context = Context(schema: seq<OrmTable>, db: Db, casts: Casts, floats: FloatText)

  predicate HitAny(db: Db, cols: seq<string>, keys: seq<seq<Value>>, row: Row) {
    exists k :: 0 <= k < |keys| && db.hit(cols, keys[k], row)
  }

  function Select(db: Db, rows: seq<Row>, cols: seq<string>, keys: seq<seq<Value>>): seq<Row> {
    if rows == [] then []
    else (if HitAny(db, cols, keys, rows[0]) then [rows[0]] else []) + Select(db, rows[1..], cols, keys)
  }

  /** `SELECT … FROM target WHERE cols IN (keys)`: the rows of the table that match a key, in table order. */
  function Query(ctx: Context, target: string, cols: seq<string>, keys: seq<seq<Value>>): seq<Row> {
    Select(ctx.db, ctx.db.rows(target), cols, keys)
  }

  // ---- what is asked for ----

  datatype Spec = Skip | Plain | With(nested: seq<Entry>)

  datatype Entry = Entry(name: string, spec: Spec)

  function FindTable(schema: seq<OrmTable>, name: string): (t: Option<OrmTable>)
    ensures t.Some? ==> t.value in schema && t.value.table.name == name
  {
    if schema == [] then None else if schema[0].table.name == name then Some(schema[0]) else FindTable(schema[1..], name)
  }

  function FindRelation(rels: seq<Relation>, name: string): (r: Option<Relation>)
    ensures r.Some? ==> r.value in rels && r.value.name == name
  {
    if rels == [] then None else if rels[0].name == name then Some(rels[0]) else FindRelation(rels[1..], name)
  }

  /** The relation an entry names and the table it leads to, when both exist and the table has the key columns. */
  function Resolve(ctx: Context, table: OrmTable, name: string): (r: Option<(Relation, OrmTable)>)
    ensures r.Some? ==> r.value.0 in table.relations && r.value.1 in ctx.schema && r.value.1.table.name == r.value.0.target
    ensures r.Some? ==> forall c :: c in r.value.0.foreign ==> c in ColumnNames(r.value.1.table)
  {
    match FindRelation(table.relations, name)
    case None => None
    case Some(rel) =>
      match FindTable(ctx.schema, rel.target)
      case None => None
      case Some(target) =>
        if forall c :: c in rel.foreign ==> c in ColumnNames(target.table) then Some((rel, target)) else None
  }

  /** The bound values of a key; none when a value cannot be bound. */
  function KeyOf(ctx: Context, target: Table, cols: seq<string>, t: seq<Json>): (k: Option<seq<Value>>)
    requires |t| == |cols|
  {
    if t == [] then Some([]) else
      match ToParamAs(target, cols[0], t[0], ctx.casts)
      case Err(_) => None
      case Ok(v) => match KeyOf(ctx, target, cols[1..], t[1..]) case None => None case Some(vs) => Some([v] + vs)
  }

  // ---- one row ----

  predicate KeysPaired(rel: Relation) { |rel.local| == |rel.foreign| }

  predicate AllPaired(ctx: Context) {
    forall t, r :: t in ctx.schema && r in t.relations ==> KeysPaired(r)
  }

  /** The target rows of one row: those the database finds for its key; none when it has no key. */
  function Related(ctx: Context, rel: Relation, target: Table, row: Row): Option<seq<Row>>
    requires KeysPaired(rel)
  {
    match TupleOf(row, rel.local)
    case None => Some([])
    case Some(t) =>
      match KeyOf(ctx, target, rel.foreign, t)
      case None => None
      case Some(key) => Some(Query(ctx, target.name, rel.foreign, [key]))
  }

  function Objects(rows: seq<Row>): seq<Json> { seq(|rows|, k requires 0 <= k < |rows| => JObject(rows[k])) }

  /** What is attached: the first match or null, or all of them. */
  function Attachment(belongsTo: bool, rows: seq<Row>): Json {
    if !belongsTo then JArray(Objects(rows)) else if rows == [] then JNull else JObject(rows[0])
  }

  /** One entry on one row; none is an error. */
  function AttachEntry(ctx: Context, table: OrmTable, e: Entry, row: Row): Option<Row>
    requires AllPaired(ctx) && table in ctx.schema
    decreases e, 2, 0
  {
    if e.spec.Skip? then Some(row) else
      match Resolve(ctx, table, e.name)
      case None => None
      case Some((rel, target)) =>
        match Related(ctx, rel, target.table, row)
        case None => None
        case Some(found) =>
          match Nested(ctx, target, e.spec, found)
          case None => None
          case Some(done) => Some(Insert(row, rel.name, Attachment(rel.belongsTo, done)))
  }

  function Nested(ctx: Context, target: OrmTable, spec: Spec, rows: seq<Row>): Option<seq<Row>>
    requires AllPaired(ctx) && target in ctx.schema
    decreases spec, 1, 0
  {
    if spec.With? then AttachAll(ctx, target, spec.nested, rows) else Some(rows)
  }

  /** Every entry on one row, in order. */
  function AttachRow(ctx: Context, table: OrmTable, entries: seq<Entry>, row: Row): Option<Row>
    requires AllPaired(ctx) && table in ctx.schema
    decreases entries, 0, 0
  {
    if entries == [] then Some(row) else
      match AttachRow(ctx, table, entries[..|entries| - 1], row)
      case None => None
      case Some(r) => AttachEntry(ctx, table, entries[|entries| - 1], r)
  }

  function AttachAll(ctx: Context, table: OrmTable, entries: seq<Entry>, rows: seq<Row>): (r: Option<seq<Row>>)
    requires AllPaired(ctx) && table in ctx.schema
    ensures r.Some? ==> |r.value| == |rows|
    decreases entries, 1, |rows|
  {
    if rows == [] then Some([]) else
      match AttachRow(ctx, table, entries, rows[0])
      case None => None
      case Some(r) => match AttachAll(ctx, table, entries, rows[1..]) case None => None case Some(rs) => Some([r] + rs)
  }

  /** Every entry that is on can be resolved. */
  predicate Known(ctx: Context, table: OrmTable, entries: seq<Entry>) {
    forall k :: 0 <= k < |entries| ==> entries[k].spec.Skip? || Resolve(ctx, table, entries[k].name).Some?
  }

  // ---- what attaching leaves alone ----

  predicate NotRelation(table: OrmTable, col: string) { forall k :: 0 <= k < |table.relations| ==> table.relations[k].name != col }

  lemma EntryKeeps(ctx: Context, table: OrmTable, e: Entry, row: Row, col: string)
    requires AllPaired(ctx) && table in ctx.schema && NotRelation(table, col)
    requires AttachEntry(ctx, table, e, row).Some?
    ensures CellOf(AttachEntry(ctx, table, e, row).value, col) == CellOf(row, col)
  {
    if !e.spec.Skip? {
      var (rel, target) := Resolve(ctx, table, e.name).value;
      var done := Nested(ctx, target, e.spec, Related(ctx, rel, target.table, row).value).value;
      InsertGets(row, rel.name, Attachment(rel.belongsTo, done), col);
    }
  }

  /** Attaching never overwrites a column. */
  lemma {:induction false} RowKeeps(ctx: Context, table: OrmTable, entries: seq<Entry>, row: Row, col: string)
    requires AllPaired(ctx) && table in ctx.schema && NotRelation(table, col)
    requires AttachRow(ctx, table, entries, row).Some?
    ensures CellOf(AttachRow(ctx, table, entries, row).value, col) == CellOf(row, col)
  {
    if entries != [] {
      var n := |entries| - 1;
      RowKeeps(ctx, table, entries[..n], row, col);
      EntryKeeps(ctx, table, entries[n], AttachRow(ctx, table, entries[..n], row).value, col);
    }
  }

  lemma RowKeepsTuple(ctx: Context, table: OrmTable, entries: seq<Entry>, row: Row, cols: seq<string>)
    requires AllPaired(ctx) && table in ctx.schema && AttachRow(ctx, table, entries, row).Some?
    requires forall k :: 0 <= k < |cols| ==> NotRelation(table, cols[k])
    ensures TupleOf(AttachRow(ctx, table, entries, row).value, cols) == TupleOf(row, cols)
  {
    forall k | 0 <= k < |cols| ensures CellOf(AttachRow(ctx, table, entries, row).value, cols[k]) == CellOf(row, cols[k]) {
      RowKeeps(ctx, table, entries, row, cols[k]);
    }
    SameTuple(AttachRow(ctx, table, entries, row).value, row, cols);
  }

  lemma {:induction false} AttachAllAt(ctx: Context, table: OrmTable, entries: seq<Entry>, rows: seq<Row>)
    requires AllPaired(ctx) && table in ctx.schema
    ensures AttachAll(ctx, table, entries, rows).Some? <==>
              forall k :: 0 <= k < |rows| ==> AttachRow(ctx, table, entries, rows[k]).Some?
    ensures AttachAll(ctx, table, entries, rows).Some? ==>
              forall k :: 0 <= k < |rows| ==>
                AttachRow(ctx, table, entries, rows[k]) == Some(AttachAll(ctx, table, entries, rows).value[k])
  {
    if rows != [] {
      AttachAllAt(ctx, table, entries, rows[1..]);
      forall k | 0 <= k < |rows[1..]| ensures rows[1..][k] == rows[k + 1] {}
      if AttachAll(ctx, table, entries, rows).Some? {
        var r := AttachAll(ctx, table, entries, rows).value;
        forall k | 0 <= k < |rows| ensures AttachRow(ctx, table, entries, rows[k]) == Some(r[k]) {
          if k > 0 { assert r[k] == AttachAll(ctx, table, entries, rows[1..]).value[k - 1] && rows[k] == rows[1..][k - 1]; }
        }
      } else if AttachRow(ctx, table, entries, rows[0]).Some? {
        var k :| 0 <= k < |rows[1..]| && AttachRow(ctx, table, entries, rows[1..][k]).None?;
        assert rows[k + 1] == rows[1..][k];
      }
    }
  }

  /** A row that can be attached to shows that every entry is known. */
  lemma {:induction false} AttachedKnown(ctx: Context, table: OrmTable, entries: seq<Entry>, row: Row)
    requires AllPaired(ctx) && table in ctx.schema && AttachRow(ctx, table, entries, row).Some?
    ensures Known(ctx, table, entries)
  {
    if entries != [] {
      AttachedKnown(ctx, table, entries[..|entries| - 1], row);
    }
  }

  // ---- what an entry writes ----

  /** A plain entry puts under the relation's name, for a row that has no key, null or an empty list; for a row with a key
      the first row the database finds for the key, or null, or all the rows it finds; and nothing else changes. */
  lemma EntryPuts(ctx: Context, table: OrmTable, e: Entry, row: Row, rel: Relation, target: OrmTable, other: string)
    requires AllPaired(ctx) && table in ctx.schema && e.spec.Plain? && Resolve(ctx, table, e.name) == Some((rel, target))
    requires AttachEntry(ctx, table, e, row).Some?
    ensures var after := AttachEntry(ctx, table, e, row).value;
            && (other != rel.name ==> CellOf(after, other) == CellOf(row, other))
            && CellOf(after, rel.name).Some?
            && var v := CellOf(after, rel.name).value;
               match TupleOf(row, rel.local)
               case None => v == if rel.belongsTo then JNull else JArray([])
               case Some(t) =>
                 |t| == |rel.foreign| && KeyOf(ctx, target.table, rel.foreign, t).Some? &&
                 var found := Query(ctx, target.table.name, rel.foreign, [KeyOf(ctx, target.table, rel.foreign, t).value]);
                 if rel.belongsTo then v == (if found == [] then JNull else JObject(found[0]))
                 else v.JArray? && |v.items| == |found| && forall k :: 0 <= k < |found| ==> v.items[k] == JObject(found[k])
  {
    var found := Related(ctx, rel, target.table, row).value;
    InsertGets(row, rel.name, Attachment(rel.belongsTo, found), rel.name);
    InsertGets(row, rel.name, Attachment(rel.belongsTo, found), other);
  }

  /** A row has a key exactly when every key column is there and not null, and then the key is those values. */
  lemma {:induction false} TupleIs(row: Row, cols: seq<string>)
    ensures TupleOf(row, cols).Some? <==>
            forall k :: 0 <= k < |cols| ==> CellOf(row, cols[k]).Some? && CellOf(row, cols[k]).value != JNull
    ensures TupleOf(row, cols).Some? ==>
            forall k :: 0 <= k < |cols| ==> CellOf(row, cols[k]) == Some(TupleOf(row, cols).value[k])
  {
    if cols != [] {
      TupleIs(row, cols[1..]);
      assert forall k :: 0 < k < |cols| ==> cols[k] == cols[1..][k - 1];
      assert forall k :: 0 <= k < |cols| - 1 ==> cols[1..][k] == cols[k + 1];
    }
  }
}
