/** Relations derived from foreign keys and the names they claim (OrmSchema::parse, orm.rs). */
module RelationNames {
  import opened Bytes
  import opened WhereTree

  datatype ForeignKey = ForeignKey(owner: string, cols: seq<string>, target: string, targetCols: seq<string>)

  datatype Relation =
    Relation(name: string, belongsTo: bool, local: seq<string>, foreign: seq<string>, target: string)

  datatype OrmTable = OrmTable(table: Table, relations: seq<Relation>)

  function ColumnNames(table: Table): (names: seq<string>)
    ensures |names| == |table.columns|
    ensures forall k :: 0 <= k < |names| ==> names[k] == table.columns[k].name
  {
    seq(|table.columns|, k requires 0 <= k < |table.columns| => table.columns[k].name)
  }

  // ---- one claim ----

  function Longest(names: seq<string>): (n: nat)
    ensures forall k :: 0 <= k < |names| ==> |names[k]| <= n
  {
    if names == [] then 0 else
      var n := Longest(names[1..]);
      var m := if |names[0]| > n then |names[0]| else n;
      assert forall k :: 0 <= k < |names| ==> |names[k]| <= m by {
        forall k | 0 <= k < |names| ensures |names[k]| <= m {
          if k > 0 { assert names[k] == names[1..][k - 1]; }
        }
      }
      m
  }

  lemma InBound(names: seq<string>, s: string)
    requires s in names
    ensures |s| <= Longest(names)
  {
    var k :| 0 <= k < |names| && names[k] == s;
    assert |names[k]| <= Longest(names);
  }

  function Underscores(n: nat): string { seq(n, _ => '_') }

  /** `got` is `base` with the fewest underscores that make it free. */
  ghost predicate FirstFree(base: string, taken: seq<string>, got: string) {
    exists n: nat :: got == base + Underscores(n) && got !in taken && forall m: nat :: m < n ==> base + Underscores(m) in taken
  }

  lemma FirstFreeUnique(base: string, taken: seq<string>, a: string, b: string)
    requires FirstFree(base, taken, a) && FirstFree(base, taken, b)
    ensures a == b
  {
  }

  /** A base that is free is the name; one that is taken gets an underscore. */
  lemma OneTaken(base: string, taken: seq<string>, got: string)
    requires FirstFree(base, taken, got)
    ensures base !in taken ==> got == base
    ensures base in taken && base + "_" !in taken ==> got == base + "_"
  {
    assert base + Underscores(0) == base && base + Underscores(1) == base + "_";
  }

  /** The loop of `claim`: it ends because names that are taken have bounded length. */
  method ClaimName(base: string, used: seq<string>, columns: seq<string>) returns (name: string)
    ensures FirstFree(base, used + columns, name)
  {
    name := base;
    ghost var n := 0;
    assert base + Underscores(0) == base;
    while name in used || name in columns
      invariant name == base + Underscores(n)
      invariant forall m: nat :: m < n ==> base + Underscores(m) in used + columns
      decreases Longest(used + columns) + 1 - |name|
    {
      InBound(used + columns, name);
      assert base + Underscores(n) + ['_'] == base + Underscores(n + 1);
      name := name + ['_'];
      n := n + 1;
    }
  }

  // ---- the relations of a table ----

  function ParentName(fk: ForeignKey): string {
    if |fk.cols| == 1 then
      var c := fk.cols[0];
      if |c| > 3 && c[|c| - 3..] == "_id" then c[..|c| - 3] else fk.target
    else fk.target
  }

  /** The name a foreign key asks for, and the relation it gives, seen from `table`; none when it is not the table's. */
  function Parent(fk: ForeignKey, table: string): Option<Relation> {
    if fk.owner == table then Some(Relation(ParentName(fk), true, fk.cols, fk.targetCols, fk.target)) else None
  }

  function Children(fk: ForeignKey, table: string): Option<Relation> {
    if fk.owner == table || fk.target != table then None
    else Some(Relation(fk.owner, false, fk.targetCols, fk.cols, fk.owner))
  }

  function Listed(r: Option<Relation>): seq<Relation> {
    match r case Some(rel) => [rel] case None => []
  }

  function Parents(fks: seq<ForeignKey>, table: string): seq<Relation> {
    if fks == [] then [] else Parents(fks[..|fks| - 1], table) + Listed(Parent(fks[|fks| - 1], table))
  }

  function AllChildren(fks: seq<ForeignKey>, table: string): seq<Relation> {
    if fks == [] then [] else AllChildren(fks[..|fks| - 1], table) + Listed(Children(fks[|fks| - 1], table))
  }

  /** The relations asked for, in order: first the table's own foreign keys, then those of other tables to it. */
  function Asked(table: Table, fks: seq<ForeignKey>): seq<Relation> {
    Parents(fks, table.name) + AllChildren(fks, table.name)
  }

  function Names(rels: seq<Relation>): (names: seq<string>)
    ensures |names| == |rels| && forall k :: 0 <= k < |rels| ==> names[k] == rels[k].name
  {
    seq(|rels|, k requires 0 <= k < |rels| => rels[k].name)
  }

  /** Each relation is the one asked for, under the first name free of the columns and of the relations before it. */
  ghost predicate Claimed(asked: seq<Relation>, rels: seq<Relation>, columns: seq<string>) {
    |rels| == |asked| && forall k :: 0 <= k < |rels| ==> ClaimedAt(asked, rels, columns, k)
  }

  ghost predicate ClaimedAt(asked: seq<Relation>, rels: seq<Relation>, columns: seq<string>, k: nat)
    requires k < |rels| == |asked|
  {
    && rels[k] == asked[k].(name := rels[k].name)
    && FirstFree(asked[k].name, Names(rels[..k]) + columns, rels[k].name)
  }

  lemma ClaimedMore(asked: seq<Relation>, rels: seq<Relation>, columns: seq<string>, a: Relation, r: Relation)
    requires Claimed(asked, rels, columns) && r == a.(name := r.name)
    requires FirstFree(a.name, Names(rels) + columns, r.name)
    ensures Claimed(asked + [a], rels + [r], columns)
    ensures Names(rels + [r]) == Names(rels) + [r.name]
  {
    forall k | 0 <= k < |rels| + 1 ensures ClaimedAt(asked + [a], rels + [r], columns, k) {
      assert (rels + [r])[..k] == if k < |rels| then rels[..k] else rels;
      if k < |rels| {
        assert ClaimedAt(asked, rels, columns, k);
      }
    }
  }

  // ---- the relations, read off the foreign keys ----

  /** The table's own foreign keys, in order. */
  function Own(fks: seq<ForeignKey>, table: string): seq<ForeignKey> {
    if fks == [] then [] else Own(fks[..|fks| - 1], table) + if fks[|fks| - 1].owner == table then [fks[|fks| - 1]] else []
  }

  /** Those of other tables to it. */
  function Incoming(fks: seq<ForeignKey>, table: string): seq<ForeignKey> {
    if fks == [] then [] else
      Incoming(fks[..|fks| - 1], table)
      + if fks[|fks| - 1].owner != table && fks[|fks| - 1].target == table then [fks[|fks| - 1]] else []
  }

  /** A key of one column `<stem>_id` names its relation after the stem, any other after the table it leads to. */
  ghost predicate ParentBase(fk: ForeignKey, base: string) {
    || (base != "" && fk.cols == [base + "_id"])
    || (base == fk.target && forall stem :: fk.cols == [stem + "_id"] ==> stem == "")
  }

  /** The relation a foreign key gives its own table. */
  ghost predicate IsParent(fk: ForeignKey, r: Relation, taken: seq<string>) {
    && r.belongsTo && r.local == fk.cols && r.foreign == fk.targetCols && r.target == fk.target
    && exists base :: ParentBase(fk, base) && FirstFree(base, taken, r.name)
  }

  /** And the one it gives the table it leads to, named after its owner. */
  ghost predicate IsChildren(fk: ForeignKey, r: Relation, taken: seq<string>) {
    && !r.belongsTo && r.local == fk.targetCols && r.foreign == fk.cols && r.target == fk.owner
    && FirstFree(fk.owner, taken, r.name)
  }

  /** First one relation for each of the table's own keys, then one for each key of another table to it. */
  ghost predicate Derived(table: Table, fks: seq<ForeignKey>, rels: seq<Relation>) {
    var own, incoming, columns := Own(fks, table.name), Incoming(fks, table.name), ColumnNames(table);
    && |rels| == |own| + |incoming|
    && (forall k :: 0 <= k < |own| ==> IsParent(own[k], rels[k], Names(rels[..k]) + columns))
    && (forall k :: 0 <= k < |incoming| ==>
          IsChildren(incoming[k], rels[|own| + k], Names(rels[..|own| + k]) + columns))
  }

  lemma ParentNamed(fk: ForeignKey)
    ensures ParentBase(fk, ParentName(fk))
    ensures forall base :: ParentBase(fk, base) ==> base == ParentName(fk)
  {
    if |fk.cols| == 1 {
      var c := fk.cols[0];
      if |c| > 3 && c[|c| - 3..] == "_id" {
        assert c == c[..|c| - 3] + "_id" && fk.cols == [c[..|c| - 3] + "_id"];
      }
      forall stem | fk.cols == [stem + "_id"] ensures |c| == |stem| + 3 && c[|c| - 3..] == "_id" && c[..|c| - 3] == stem {
        assert fk.cols[0] == stem + "_id";
      }
    }
  }

  lemma {:induction false} ParentsAre(fks: seq<ForeignKey>, table: string)
    ensures |Parents(fks, table)| == |Own(fks, table)|
    ensures forall k :: 0 <= k < |Own(fks, table)| ==> Parent(Own(fks, table)[k], table) == Some(Parents(fks, table)[k])
  {
    if fks != [] {
      ParentsAre(fks[..|fks| - 1], table);
    }
  }

  lemma {:induction false} ChildrenAre(fks: seq<ForeignKey>, table: string)
    ensures |AllChildren(fks, table)| == |Incoming(fks, table)|
    ensures forall k :: 0 <= k < |Incoming(fks, table)| ==>
              Children(Incoming(fks, table)[k], table) == Some(AllChildren(fks, table)[k])
  {
    if fks != [] {
      ChildrenAre(fks[..|fks| - 1], table);
    }
  }

  /** Claiming what is asked for gives exactly these relations. */
  lemma ClaimedDerives(table: Table, fks: seq<ForeignKey>, rels: seq<Relation>)
    requires Claimed(Asked(table, fks), rels, ColumnNames(table))
    ensures Derived(table, fks, rels)
  {
    var asked, own, incoming := Asked(table, fks), Own(fks, table.name), Incoming(fks, table.name);
    ParentsAre(fks, table.name);
    ChildrenAre(fks, table.name);
    forall k | 0 <= k < |own| ensures IsParent(own[k], rels[k], Names(rels[..k]) + ColumnNames(table)) {
      assert ClaimedAt(asked, rels, ColumnNames(table), k);
      assert asked[k] == Parents(fks, table.name)[k];
      ParentNamed(own[k]);
    }
    forall k | 0 <= k < |incoming|
      ensures IsChildren(incoming[k], rels[|own| + k], Names(rels[..|own| + k]) + ColumnNames(table))
    {
      assert ClaimedAt(asked, rels, ColumnNames(table), |own| + k);
      assert asked[|own| + k] == AllChildren(fks, table.name)[k];
    }
  }

  method DeriveRelations(table: Table, fks: seq<ForeignKey>) returns (rels: seq<Relation>)
    ensures Claimed(Asked(table, fks), rels, ColumnNames(table))
    ensures Derived(table, fks, rels)
  {
    var columns := ColumnNames(table);
    var used: seq<string> := [];
    rels := [];
    ghost var asked: seq<Relation> := [];
    for k := 0 to |fks|
      invariant asked == Parents(fks[..k], table.name)
      invariant Claimed(asked, rels, columns) && used == Names(rels)
    {
      assert fks[..k + 1][..k] == fks[..k];
      match Parent(fks[k], table.name) {
        case None =>
        case Some(want) =>
          var name := ClaimName(want.name, used, columns);
          ClaimedMore(asked, rels, columns, want, want.(name := name));
          asked, rels, used := asked + [want], rels + [want.(name := name)], used + [name];
      }
    }
    assert fks[..|fks|] == fks;
    for k := 0 to |fks|
      invariant asked == Parents(fks, table.name) + AllChildren(fks[..k], table.name)
      invariant Claimed(asked, rels, columns) && used == Names(rels)
    {
      assert fks[..k + 1][..k] == fks[..k];
      match Children(fks[k], table.name) {
        case None =>
        case Some(want) =>
          var name := ClaimName(want.name, used, columns);
          ClaimedMore(asked, rels, columns, want, want.(name := name));
          asked, rels, used := asked + [want], rels + [want.(name := name)], used + [name];
      }
    }
    ClaimedDerives(table, fks, rels);
  }

  // ---- what claiming gives ----

  /** No relation is named like a column or like another relation. */
  predicate NamesApart(t: OrmTable) {
    && (forall k :: 0 <= k < |t.relations| ==> t.relations[k].name !in ColumnNames(t.table))
    && (forall j, k :: 0 <= j < k < |t.relations| ==> t.relations[j].name != t.relations[k].name)
  }

  lemma ClaimedApart(table: Table, asked: seq<Relation>, rels: seq<Relation>)
    requires Claimed(asked, rels, ColumnNames(table))
    ensures NamesApart(OrmTable(table, rels))
  {
    var columns := ColumnNames(table);
    forall k | 0 <= k < |rels| ensures rels[k].name !in columns && forall j :: 0 <= j < k ==> rels[j].name != rels[k].name {
      assert ClaimedAt(asked, rels, columns, k);
      forall j | 0 <= j < k ensures rels[j].name != rels[k].name {
        assert Names(rels[..k])[j] == rels[j].name;
        assert (Names(rels[..k]) + columns)[j] == rels[j].name;
      }
    }
  }

  lemma {:induction false} ClaimedPrefix(asked: seq<Relation>, a: seq<Relation>, b: seq<Relation>, columns: seq<string>, n: nat)
    requires Claimed(asked, a, columns) && Claimed(asked, b, columns) && n <= |asked|
    ensures a[..n] == b[..n]
  {
    if n > 0 {
      ClaimedPrefix(asked, a, b, columns, n - 1);
      assert ClaimedAt(asked, a, columns, n - 1) && ClaimedAt(asked, b, columns, n - 1);
      FirstFreeUnique(asked[n - 1].name, Names(a[..n - 1]) + columns, a[n - 1].name, b[n - 1].name);
      assert a[..n] == a[..n - 1] + [a[n - 1]] && b[..n] == b[..n - 1] + [b[n - 1]];
    }
  }

  /** Claiming leaves one answer: the same foreign keys always give the same relations. */
  lemma ClaimedUnique(asked: seq<Relation>, a: seq<Relation>, b: seq<Relation>, columns: seq<string>)
    requires Claimed(asked, a, columns) && Claimed(asked, b, columns)
    ensures a == b
  {
    ClaimedPrefix(asked, a, b, columns, |asked|);
    assert a[..|asked|] == a && b[..|asked|] == b;
  }

  /** A column a relation reads its key from is not the name of a relation. */
  predicate KeysApart(t: OrmTable) {
    forall j, k :: 0 <= j < |t.relations| && 0 <= k < |t.relations| ==> t.relations[k].name !in t.relations[j].local
  }

  /** So it is when foreign keys name columns the tables declare. */
  lemma DeclaredKeysApart(t: OrmTable)
    requires NamesApart(t)
    requires forall k, c :: 0 <= k < |t.relations| && c in t.relations[k].local ==> c in ColumnNames(t.table)
    ensures KeysApart(t)
  {
  }

  /** Both sides of every foreign key are declared columns, one for one. */
  predicate Declared(fks: seq<ForeignKey>, table: Table) {
    forall k :: 0 <= k < |fks| ==>
      && |fks[k].cols| == |fks[k].targetCols|
      && (fks[k].owner == table.name ==> AllIn(fks[k].cols, ColumnNames(table)))
      && (fks[k].target == table.name ==> AllIn(fks[k].targetCols, ColumnNames(table)))
  }

  predicate AllIn(cols: seq<string>, names: seq<string>) { forall c :: c in cols ==> c in names }

  predicate Sound(r: Relation, names: seq<string>) { |r.local| == |r.foreign| && AllIn(r.local, names) }

  lemma {:induction false} AskedSound(table: Table, fks: seq<ForeignKey>)
    requires Declared(fks, table)
    ensures forall k :: 0 <= k < |Asked(table, fks)| ==> Sound(Asked(table, fks)[k], ColumnNames(table))
  {
    if fks != [] {
      var n := |fks| - 1;
      AskedSound(table, fks[..n]);
      var parents, children := Parents(fks[..n], table.name), AllChildren(fks[..n], table.name);
      assert forall k :: 0 <= k < |parents| ==> parents[k] == Asked(table, fks[..n])[k];
      assert forall k :: 0 <= k < |children| ==> children[k] == Asked(table, fks[..n])[|parents| + k];
    }
  }

  /** Relations derived from such foreign keys never take the name of a column, nor of a column any of them reads. */
  lemma DerivedApart(table: Table, fks: seq<ForeignKey>, rels: seq<Relation>)
    requires Claimed(Asked(table, fks), rels, ColumnNames(table)) && Declared(fks, table)
    ensures NamesApart(OrmTable(table, rels)) && KeysApart(OrmTable(table, rels))
    ensures forall k :: 0 <= k < |rels| ==> |rels[k].local| == |rels[k].foreign|
  {
    ClaimedApart(table, Asked(table, fks), rels);
    AskedSound(table, fks);
    forall k | 0 <= k < |rels| ensures Sound(rels[k], ColumnNames(table)) {
      assert ClaimedAt(Asked(table, fks), rels, ColumnNames(table), k);
      assert Sound(Asked(table, fks)[k], ColumnNames(table));
    }
    DeclaredKeysApart(OrmTable(table, rels));
  }
}
