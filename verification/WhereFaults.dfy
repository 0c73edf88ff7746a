/** Which where trees are refused (orm.rs): exactly the malformed ones. */
module WhereFaults {
  import opened Bytes
  import opened SqlExpr
  import opened WhereFrag
  import opened WhereTree

  predicate OpShaped(op: Op, v: Json) {
    match op
    case InList => v.JArray? && forall k :: 0 <= k < |v.items| ==> Scalar(v.items[k])
    case CmpWith(_) => Scalar(v)
  }

  predicate CondShaped(table: Table, col: string, cond: Json) {
    && TypeOf(table, col).Some?
    && if cond.JObject? then forall k :: 0 <= k < |cond.fields| ==> KnownOpShaped(cond.fields[k]) else Scalar(cond)
  }

  /** Unknown operators are skipped, whatever they hold. */
  predicate KnownOpShaped(f: Field) { SqlOp(f.key).Some? ==> OpShaped(SqlOp(f.key).value, f.value) }

  predicate FieldShaped(table: Table, f: Field) { Logical(f.key) || CondShaped(table, f.key, f.value) }

  predicate GroupsShaped(table: Table, v: Json, k: nat)
    requires k <= |Items(v)|
    decreases v, 1, k
  {
    k == 0 || (GroupsShaped(table, v, k - 1) && Items(v)[k - 1].JObject? && WellShaped(table, Items(v)[k - 1]))
  }

  /** Known columns, scalar operands, arrays under `in`, objects as groups, an array under OR: at every depth. */
  predicate WellShaped(table: Table, w: Json)
    requires w.JObject?
    decreases w, 0
  {
    && (forall k :: 0 <= k < |w.fields| ==> FieldShaped(table, w.fields[k]))
    && (match Get(w, "AND") case None => true case Some(v) => IsGroupList(v) && GroupsShaped(table, v, |Items(v)|))
    && (match Get(w, "OR") case None => true case Some(v) => v.JArray? && GroupsShaped(table, v, |Items(v)|))
    && (match Get(w, "NOT") case None => true case Some(v) => IsGroupList(v) && GroupsShaped(table, v, |Items(v)|))
  }

  lemma {:induction false} ListIff(table: Table, col: string, items: seq<Json>, k: nat, casts: Casts)
    requires k <= |items|
    ensures ListParams(table, col, items, k, casts).Ok? <==> forall j :: 0 <= j < k ==> Scalar(items[j])
  {
    if k > 0 {
      ListIff(table, col, items, k - 1, casts);
    }
  }

  lemma OpIff(table: Table, col: string, op: Op, v: Json, casts: Casts)
    ensures OpParts(table, col, op, v, casts).Ok? <==> OpShaped(op, v)
  {
    if op == InList && v.JArray? {
      ListIff(table, col, v.items, |v.items|, casts);
    }
  }

  lemma {:induction false} OpsIff(table: Table, col: string, ops: seq<Field>, k: nat, casts: Casts)
    requires k <= |ops|
    ensures OpsParts(table, col, ops, k, casts).Ok? <==> forall j :: 0 <= j < k ==> KnownOpShaped(ops[j])
  {
    if k > 0 {
      OpsIff(table, col, ops, k - 1, casts);
      if SqlOp(ops[k - 1].key).Some? {
        OpIff(table, col, SqlOp(ops[k - 1].key).value, ops[k - 1].value, casts);
      }
    }
  }

  lemma {:induction false} CondsIff(table: Table, w: Json, k: nat, casts: Casts)
    requires w.JObject? && k <= |w.fields|
    ensures CondsParts(table, w, k, casts).Ok? <==> forall j :: 0 <= j < k ==> FieldShaped(table, w.fields[j])
  {
    if k > 0 {
      CondsIff(table, w, k - 1, casts);
      var f := w.fields[k - 1];
      if f.value.JObject? {
        OpsIff(table, f.key, f.value.fields, |f.value.fields|, casts);
      }
    }
  }

  lemma {:induction false} GroupsIff(table: Table, v: Json, k: nat, wrap: Wrap, casts: Casts)
    requires k <= |Items(v)|
    ensures GroupParts(table, v, k, wrap, casts).Ok? <==> GroupsShaped(table, v, k)
    decreases v, 1, k
  {
    if k > 0 {
      GroupsIff(table, v, k - 1, wrap, casts);
      if Items(v)[k - 1].JObject? {
        RendersIff(table, Items(v)[k - 1], casts);
      }
    }
  }

  /** A tree renders if and only if it is well shaped. */
  lemma {:induction false} RendersIff(table: Table, w: Json, casts: Casts)
    requires w.JObject?
    ensures FragOf(table, w, casts).Ok? <==> WellShaped(table, w)
    decreases w, 0
  {
    CondsIff(table, w, |w.fields|, casts);
    if v :| Get(w, "AND") == Some(v) {
      GroupsIff(table, v, |Items(v)|, Plain, casts);
    }
    if v :| Get(w, "OR") == Some(v) {
      GroupsIff(table, v, |Items(v)|, Plain, casts);
    }
    if v :| Get(w, "NOT") == Some(v) {
      GroupsIff(table, v, |Items(v)|, Negated, casts);
    }
  }
}
