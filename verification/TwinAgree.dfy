/** The TypeScript compiler and the engine's print the same SQL and bind the same values (orm.ts, orm.rs). */
module TwinAgree {
  import opened Bytes
  import opened SqlExpr
  import opened WhereFrag
  import opened WhereTree
  import opened TsWhere
  import opened WhereMemo
  import opened TsTable
  import opened TwinBindings
  import WhereMeaning
  import WhereRender

  // ---- the same tree as parsed JSON: undefined entries are not there ----

  function OpField(o: OpEntry): seq<Field> {
    match o.value case None => [] case Some(v) => [Field(o.key, v)]
  }

  function OpFields(ops: seq<OpEntry>): seq<Field> {
    if ops == [] then [] else OpFields(ops[..|ops| - 1]) + OpField(ops[|ops| - 1])
  }

  function CondField(c: CondEntry): seq<Field> {
    match c.cond
    case Absent => []
    case Bare(v) => [Field(c.col, v)]
    case Ops(ops) => [Field(c.col, JObject(OpFields(ops)))]
  }

  function CondFields(conds: seq<CondEntry>): seq<Field> {
    if conds == [] then [] else CondFields(conds[..|conds| - 1]) + CondField(conds[|conds| - 1])
  }

  function JsonOf(w: Where): Json {
    JObject(CondFields(w.conds) + (LogicField("AND", w.ands) + (LogicField("OR", w.ors) + LogicField("NOT", w.nots))))
  }

  function LogicField(key: string, gs: Groups): seq<Field>
    decreases gs
  {
    match gs case NoGroups => [] case Groups(list) => [Field(key, JArray(JsonsOf(list)))]
  }

  function JsonsOf(ws: seq<Where>): (js: seq<Json>)
    ensures |js| == |ws| && forall k :: 0 <= k < |js| ==> js[k].JObject?
  {
    if ws == [] then [] else JsonsOf(ws[..|ws| - 1]) + [JsonOf(ws[|ws| - 1])]
  }

  /** The columns the TypeScript side knows are the table's. */
  predicate Declares(table: Table, cols: seq<string>) { forall col :: col in cols ==> TypeOf(table, col).Some? }

  // ---- conditions ----

  function Made(parts: seq<Part>, table: Table, bs: seq<Binding>, casts: Casts): Rendered {
    Rendered(parts, Coerced(table, bs, casts))
  }

  lemma AddMade(p: seq<Part>, r: seq<Part>, table: Table, a: seq<Binding>, b: seq<Binding>, casts: Casts)
    ensures Add(Made(p, table, a, casts), Made(r, table, b, casts)) == Made(p + r, table, a + b, casts)
  {
    CoercedConcat(table, a, b, casts);
  }

  lemma {:induction false} CoercedList(table: Table, col: string, items: seq<Json>, k: nat, casts: Casts)
    requires k <= |items| && forall j :: 0 <= j < |items| ==> Scalar(items[j])
    ensures WhereTree.ListParams(table, col, items, k, casts) == Ok(Coerced(table, ItemBindings(col, items[..k]), casts))
  {
    if k > 0 {
      var b := Binding(col, ParamOf(items[k - 1]), true);
      CoercedList(table, col, items, k - 1, casts);
      assert ItemBindings(col, items[..k]) == ItemBindings(col, items[..k - 1]) + [b];
      CoercedConcat(table, ItemBindings(col, items[..k - 1]), [b], casts);
      CoercedOne(table, col, items[k - 1], casts, b);
    }
  }

  lemma CoercedOne(table: Table, col: string, v: Json, casts: Casts, b: Binding)
    requires Scalar(v) && b.col == col && b.value == ParamOf(v)
    ensures ToParamAs(table, col, v, casts) == Ok(Fitted(table, b, casts)) && Coerced(table, [b], casts) == [Fitted(table, b, casts)]
  {
  }

  lemma OpAgrees(table: Table, col: string, o: OpEntry, casts: Casts)
    requires TypedOp(o) && SqlOp(o.key).Some? && o.value.Some?
    ensures OpParts(table, col, SqlOp(o.key).value, o.value.value, casts) == Ok(OpMade(table, col, o, casts))
  {
    var v := o.value.value;
    assert OpsShapeParts(col, OpShapeOf(o)) == [OpPart(col, OpShapeOf(o)[0])];
    if SqlOp(o.key).value == InList {
      CoercedList(table, col, v.items, |v.items|, casts);
      assert v.items[..|v.items|] == v.items;
    } else if OpBindings(col, o) != [] {
      CoercedOne(table, col, v, casts, OpBindings(col, o)[0]);
    }
  }

  function OpMade(table: Table, col: string, o: OpEntry, casts: Casts): Rendered {
    Made(OpsShapeParts(col, OpShapeOf(o)), table, OpBindings(col, o), casts)
  }

  lemma AddNothing(r: Rendered)
    ensures Add(r, Rendered([], [])) == r
  {
  }

  lemma OpStep(table: Table, col: string, fs: seq<Field>, o: OpEntry, before: Rendered, casts: Casts)
    requires TypedOp(o) && OpsParts(table, col, fs, |fs|, casts) == Ok(before)
    ensures OpsParts(table, col, fs + OpField(o), |fs + OpField(o)|, casts) == Ok(Add(before, OpMade(table, col, o, casts)))
  {
    AddNothing(before);
    if o.value.None? {
      assert fs + OpField(o) == fs;
      assert OpMade(table, col, o, casts) == Rendered([], []);
    } else {
      OpsPrefix(table, col, fs, OpField(o), |fs|, casts);
      if SqlOp(o.key).Some? {
        OpAgrees(table, col, o, casts);
      } else {
        assert OpMade(table, col, o, casts) == Rendered([], []);
      }
    }
  }

  lemma {:induction false} OpsAgree(table: Table, col: string, ops: seq<OpEntry>, casts: Casts)
    requires forall k :: 0 <= k < |ops| ==> TypedOp(ops[k])
    ensures OpsParts(table, col, OpFields(ops), |OpFields(ops)|, casts)
         == Ok(Made(OpsShapeParts(col, OpShapes(ops)), table, OpsBindings(col, ops), casts))
  {
    if ops != [] {
      var init, o := ops[..|ops| - 1], ops[|ops| - 1];
      var parts := OpsShapeParts(col, OpShapes(init));
      assert ops == init + [o];
      OpsAgree(table, col, init, casts);
      OpStep(table, col, OpFields(init), o, Made(parts, table, OpsBindings(col, init), casts), casts);
      OpShapesSnoc(init, o);
      OpPartsSnoc(col, OpShapes(init), OpShapeOf(o));
      AddMade(parts, OpsShapeParts(col, OpShapeOf(o)), table, OpsBindings(col, init), OpBindings(col, o), casts);
    }
  }

  lemma {:induction false} OpsPrefix(table: Table, col: string, a: seq<Field>, b: seq<Field>, k: nat, casts: Casts)
    requires k <= |a|
    ensures OpsParts(table, col, a + b, k, casts) == OpsParts(table, col, a, k, casts)
  {
    if k > 0 {
      OpsPrefix(table, col, a, b, k - 1, casts);
    }
  }

  lemma CondAgrees(table: Table, c: CondEntry, v: Json, casts: Casts)
    requires TypeOf(table, c.col).Some? && TypedCond(c)
    requires c.cond == Bare(v) || (c.cond.Ops? && v == JObject(OpFields(c.cond.ops)))
    ensures CondParts(table, c.col, v, casts) == Ok(CondMade(table, c, casts))
  {
    if c.cond.Ops? {
      OpsAgree(table, c.col, c.cond.ops, casts);
    } else {
      CoercedOne(table, c.col, v, casts, Binding(c.col, ParamOf(v), true));
    }
  }

  lemma {:induction false} CondsPrefix(table: Table, a: seq<Field>, b: seq<Field>, k: nat, casts: Casts)
    requires k <= |a|
    ensures CondsParts(table, JObject(a + b), k, casts) == CondsParts(table, JObject(a), k, casts)
  {
    if k > 0 {
      CondsPrefix(table, a, b, k - 1, casts);
    }
  }

  function CondMade(table: Table, c: CondEntry, casts: Casts): Rendered {
    Made(CondPart(c), table, CondBindings(c), casts)
  }

  lemma CondStep(table: Table, fs: seq<Field>, c: CondEntry, before: Rendered, casts: Casts)
    requires TypeOf(table, c.col).Some? && TypedCond(c) && CondsParts(table, JObject(fs), |fs|, casts) == Ok(before)
    ensures CondsParts(table, JObject(fs + CondField(c)), |fs + CondField(c)|, casts) == Ok(Add(before, CondMade(table, c, casts)))
  {
    AddNothing(before);
    if c.cond.Absent? {
      assert fs + CondField(c) == fs;
      assert CondMade(table, c, casts) == Rendered([], []);
    } else {
      var v := if c.cond.Bare? then c.cond.v else JObject(OpFields(c.cond.ops));
      CondsPrefix(table, fs, CondField(c), |fs|, casts);
      CondAgrees(table, c, v, casts);
    }
  }

  lemma {:induction false} CondsAgree(table: Table, conds: seq<CondEntry>, casts: Casts)
    requires forall k :: 0 <= k < |conds| ==> TypeOf(table, conds[k].col).Some? && TypedCond(conds[k])
    ensures CondsParts(table, JObject(CondFields(conds)), |CondFields(conds)|, casts)
         == Ok(Made(CondsShapeParts(CondShapes(conds)), table, CondsBindings(conds), casts))
  {
    if conds != [] {
      var init, c := conds[..|conds| - 1], conds[|conds| - 1];
      var parts := CondsShapeParts(CondShapes(init));
      assert conds == init + [c];
      CondsAgree(table, init, casts);
      CondStep(table, CondFields(init), c, Made(parts, table, CondsBindings(init), casts), casts);
      CondShapesSnoc(init, c);
      CondPartsSnoc(CondShapes(init), CondShapeOf(c));
      AddMade(parts, CondPart(c), table, CondsBindings(init), CondBindings(c), casts);
    }
  }

  lemma {:induction false} CondKeys(conds: seq<CondEntry>)
    requires forall k :: 0 <= k < |conds| ==> TypedCond(conds[k])
    ensures forall k :: 0 <= k < |CondFields(conds)| ==> !Logical(CondFields(conds)[k].key)
  {
    if conds != [] {
      assert TypedCond(conds[|conds| - 1]);
      CondKeys(conds[..|conds| - 1]);
    }
  }

  /** Logical keys after the conditions change nothing about them. */
  lemma {:induction false} LogicSkipped(table: Table, a: seq<Field>, b: seq<Field>, k: nat, casts: Casts)
    requires k <= |b| && forall j :: 0 <= j < |b| ==> Logical(b[j].key)
    ensures CondsParts(table, JObject(a + b), |a| + k, casts) == CondsParts(table, JObject(a), |a|, casts)
  {
    if k == 0 {
      CondsPrefix(table, a, b, |a|, casts);
    } else {
      LogicSkipped(table, a, b, k - 1, casts);
    }
  }

  // ---- logical keys ----

  lemma {:induction false} KeyAbsent(a: seq<Field>, b: seq<Field>, key: string)
    requires forall j :: 0 <= j < |a| ==> a[j].key != key
    ensures FirstKey(a + b, key) == |a| + FirstKey(b, key)
  {
    if a == [] {
      assert a + b == b;
    } else {
      assert (a + b)[1..] == a[1..] + b;
      KeyAbsent(a[1..], b, key);
    }
  }

  /** The first field with a key, whatever comes after it. */
  function Look(fs: seq<Field>, key: string): Option<Json> {
    if FirstKey(fs, key) < |fs| then Some(fs[FirstKey(fs, key)].value) else None
  }

  lemma LookPast(a: seq<Field>, b: seq<Field>, key: string)
    requires forall j :: 0 <= j < |a| ==> a[j].key != key
    ensures Look(a + b, key) == Look(b, key)
  {
    KeyAbsent(a, b, key);
  }

  lemma LookHere(gs: Groups, rest: seq<Field>, key: string)
    requires Look(rest, key) == None
    ensures Look(LogicField(key, gs) + rest, key) == Found(gs)
  {
    assert LogicField(key, gs) == [] ==> LogicField(key, gs) + rest == rest;
  }

  lemma LookNone(fs: seq<Field>, key: string)
    requires forall j :: 0 <= j < |fs| ==> fs[j].key != key
    ensures Look(fs, key) == None
  {
  }

  /** Looking up each logical key finds its groups. */
  lemma LogicFound(w: Where)
    requires forall k :: 0 <= k < |CondFields(w.conds)| ==> !Logical(CondFields(w.conds)[k].key)
    ensures Get(JsonOf(w), "AND") == Found(w.ands) && Get(JsonOf(w), "OR") == Found(w.ors) && Get(JsonOf(w), "NOT") == Found(w.nots)
  {
    AndFound(w);
    OrFound(w);
    NotFound(w);
  }

  lemma AndFound(w: Where)
    requires forall k :: 0 <= k < |CondFields(w.conds)| ==> !Logical(CondFields(w.conds)[k].key)
    ensures Get(JsonOf(w), "AND") == Found(w.ands)
  {
    var c, a, o, n := CondFields(w.conds), LogicField("AND", w.ands), LogicField("OR", w.ors), LogicField("NOT", w.nots);
    LookPast(c, a + (o + n), "AND");
    LookNone(o + n, "AND");
    LookHere(w.ands, o + n, "AND");
  }

  lemma OrFound(w: Where)
    requires forall k :: 0 <= k < |CondFields(w.conds)| ==> !Logical(CondFields(w.conds)[k].key)
    ensures Get(JsonOf(w), "OR") == Found(w.ors)
  {
    var c, a, o, n := CondFields(w.conds), LogicField("AND", w.ands), LogicField("OR", w.ors), LogicField("NOT", w.nots);
    LookPast(c, a + (o + n), "OR");
    LookPast(a, o + n, "OR");
    LookNone(n, "OR");
    LookHere(w.ors, n, "OR");
  }

  lemma NotFound(w: Where)
    requires forall k :: 0 <= k < |CondFields(w.conds)| ==> !Logical(CondFields(w.conds)[k].key)
    ensures Get(JsonOf(w), "NOT") == Found(w.nots)
  {
    var c, a, o, n := CondFields(w.conds), LogicField("AND", w.ands), LogicField("OR", w.ors), LogicField("NOT", w.nots);
    LookPast(c, a + (o + n), "NOT");
    LookPast(a, o + n, "NOT");
    LookPast(o, n, "NOT");
    LookHere(w.nots, [], "NOT");
    assert n + [] == n;
  }

  function Found(gs: Groups): Option<Json> {
    match gs case NoGroups => None case Groups(list) => Some(JArray(JsonsOf(list)))
  }

  // ---- the twins ----

  lemma {:induction false} JsonsAt(ws: seq<Where>, k: nat)
    requires k < |ws|
    ensures JsonsOf(ws)[k] == JsonOf(ws[k])
  {
    if k < |ws| - 1 {
      JsonsAt(ws[..|ws| - 1], k);
    }
  }

  lemma GroupStep(table: Table, v: Json, k: nat, wrap: Wrap, casts: Casts, before: Rendered, g: Rendered)
    requires 0 < k <= |Items(v)| && Items(v)[k - 1].JObject?
    requires GroupParts(table, v, k - 1, wrap, casts) == Ok(before) && FragOf(table, Items(v)[k - 1], casts) == Ok(g)
    ensures GroupParts(table, v, k, wrap, casts)
         == Ok(Add(before, Rendered(if g.parts == [] then [] else [Wrapped(wrap, g.parts)], g.params)))
  {
  }

  /** What the first groups of a twin list come to. */
  function GroupsSum(ws: seq<Where>, wrap: Wrap, table: Table, casts: Casts): Rendered {
    Made(GroupsShapeParts(ShapesOf(ws), wrap), table, ListBindings(ws), casts)
  }

  lemma GroupsSumSnoc(ws: seq<Where>, w: Where, wrap: Wrap, table: Table, casts: Casts)
    ensures GroupsSum(ws + [w], wrap, table, casts)
         == Add(GroupsSum(ws, wrap, table, casts), Made(GroupPart(ShapeOf(w), wrap), table, Bindings(w), casts))
  {
    ShapesSnoc(ws, w);
    GroupPartsSnoc(ShapesOf(ws), ShapeOf(w), wrap);
    AddMade(GroupsShapeParts(ShapesOf(ws), wrap), GroupPart(ShapeOf(w), wrap), table, ListBindings(ws), Bindings(w), casts);
    assert (ws + [w])[..|ws|] == ws;
  }

  lemma {:induction false} GroupsAgree(table: Table, cols: seq<string>, ws: seq<Where>, k: nat, wrap: Wrap, casts: Casts)
    requires Declares(table, cols) && k <= |ws|
    requires forall j :: 0 <= j < |ws| ==> Typed(ws[j]) && KnownCols(ws[j], cols)
    ensures GroupParts(table, JArray(JsonsOf(ws)), k, wrap, casts) == Ok(GroupsSum(ws[..k], wrap, table, casts))
    decreases ws, 1, k
  {
    if k > 0 {
      var v, w := JArray(JsonsOf(ws)), ws[k - 1];
      SliceSnoc(ws, k);
      GroupsSumSnoc(ws[..k - 1], w, wrap, table, casts);
      GroupsAgree(table, cols, ws, k - 1, wrap, casts);
      TwinItem(table, cols, ws, k, casts);
      GroupStep(table, v, k, wrap, casts, GroupsSum(ws[..k - 1], wrap, table, casts),
                Made(ShapeParts(ShapeOf(w)), table, Bindings(w), casts));
    }
  }

  lemma SliceSnoc<T>(s: seq<T>, k: nat)
    requires 0 < k <= |s|
    ensures s[..k] == s[..k - 1] + [s[k - 1]]
  {
  }

  lemma {:induction false} TwinItem(table: Table, cols: seq<string>, ws: seq<Where>, k: nat, casts: Casts)
    requires Declares(table, cols) && 0 < k <= |ws| && Typed(ws[k - 1]) && KnownCols(ws[k - 1], cols)
    ensures var g := Items(JArray(JsonsOf(ws)))[k - 1];
            g.JObject? && FragOf(table, g, casts) == Ok(Made(ShapeParts(ShapeOf(ws[k - 1])), table, Bindings(ws[k - 1]), casts))
    decreases ws, 0
  {
    JsonsAt(ws, k - 1);
    TwinRenders(table, cols, ws[k - 1], casts);
  }

  lemma AndNotAgrees(table: Table, cols: seq<string>, j: Json, key: string, gs: Groups, wrap: Wrap, casts: Casts)
    requires Declares(table, cols) && TypedGroups(gs) && KnownGroups(gs, cols)
    requires j.JObject? && Get(j, key) == Found(gs)
    ensures AndNotParts(table, j, key, wrap, casts)
         == Ok(Made(AndNotShapeParts(GroupShapes(gs), wrap), table, GroupsBindings(gs), casts))
    decreases gs
  {
    if gs.Groups? {
      GroupsAgree(table, cols, gs.list, |gs.list|, wrap, casts);
      assert gs.list[..|gs.list|] == gs.list;
    }
  }

  lemma OrAgrees(table: Table, cols: seq<string>, j: Json, gs: Groups, casts: Casts)
    requires Declares(table, cols) && TypedGroups(gs) && KnownGroups(gs, cols)
    requires j.JObject? && Get(j, "OR") == Found(gs)
    ensures OrParts(table, j, casts) == Ok(Made(OrShapeParts(GroupShapes(gs)), table, GroupsBindings(gs), casts))
    decreases gs
  {
    if gs.Groups? && gs.list != [] {
      GroupsAgree(table, cols, gs.list, |gs.list|, Plain, casts);
      assert gs.list[..|gs.list|] == gs.list;
    }
  }

  lemma TwinConds(table: Table, w: Where, casts: Casts)
    requires forall k :: 0 <= k < |w.conds| ==> TypeOf(table, w.conds[k].col).Some? && TypedCond(w.conds[k])
    ensures CondsParts(table, JsonOf(w), |JsonOf(w).fields|, casts)
         == Ok(Made(CondsShapeParts(CondShapes(w.conds)), table, CondsBindings(w.conds), casts))
  {
    var c := CondFields(w.conds);
    var logic := LogicField("AND", w.ands) + (LogicField("OR", w.ors) + LogicField("NOT", w.nots));
    LogicSkipped(table, c, logic, |logic|, casts);
    CondsAgree(table, w.conds, casts);
  }

  /** Both compilers print the same parts; the engine binds one value per placeholder, nudged toward its column's type. */
  lemma {:induction false} TwinRenders(table: Table, cols: seq<string>, w: Where, casts: Casts)
    requires Declares(table, cols) && Typed(w) && KnownCols(w, cols)
    ensures FragOf(table, JsonOf(w), casts) == Ok(Rendered(ShapeParts(ShapeOf(w)), Coerced(table, Bindings(w), casts)))
    decreases w
  {
    var j := JsonOf(w);
    TwinConds(table, w, casts);
    CondKeys(w.conds);
    LogicFound(w);
    AndNotAgrees(table, cols, j, "AND", w.ands, Plain, casts);
    OrAgrees(table, cols, j, w.ors, casts);
    AndNotAgrees(table, cols, j, "NOT", w.nots, Negated, casts);
    WholeMade(table, w, casts);
  }

  lemma WholeMade(table: Table, w: Where, casts: Casts)
    ensures var s := ShapeOf(w);
            Add(Add(Add(Made(CondsShapeParts(s.conds), table, CondsBindings(w.conds), casts),
                        Made(AndNotShapeParts(s.ands, Plain), table, GroupsBindings(w.ands), casts)),
                    Made(OrShapeParts(s.ors), table, GroupsBindings(w.ors), casts)),
                Made(AndNotShapeParts(s.nots, Negated), table, GroupsBindings(w.nots), casts))
            == Made(ShapeParts(s), table, Bindings(w), casts)
  {
    var s := ShapeOf(w);
    var c, a, o, n := CondsBindings(w.conds), GroupsBindings(w.ands), GroupsBindings(w.ors), GroupsBindings(w.nots);
    var pc, pa, po, pn := CondsShapeParts(s.conds), AndNotShapeParts(s.ands, Plain), OrShapeParts(s.ors), AndNotShapeParts(s.nots, Negated);
    AddMade(pc, pa, table, c, a, casts);
    AddMade(pc + pa, po, table, c + a, o, casts);
    AddMade(pc + pa + po, pn, table, c + a + o, n, casts);
  }

  /** They bind the same values if and only if no null is loose and every value already fits its column. */
  lemma TwinBindIff(table: Table, cols: seq<string>, w: Where, casts: Casts)
    requires Declares(table, cols) && Typed(w) && KnownCols(w, cols)
    ensures FragOf(table, JsonOf(w), casts) == Ok(Rendered(ShapeParts(ShapeOf(w)), Params(w)))
            <==> AllAlike(table, Bindings(w), casts)
  {
    TwinRenders(table, cols, w, casts);
    BindingsSent(w);
    AlikeIff(table, Bindings(w), casts);
  }

  // ---- what the twin's text means ----

  /** So, its values bound as they were sent, the twin's text has the tree's three-valued meaning. */
  lemma TwinMeans(table: Table, cols: seq<string>, w: Where, q: string, casts: Casts, env: Env)
    requires Declares(table, cols) && Typed(w) && KnownCols(w, cols) && AllAlike(table, Bindings(w), casts)
    requires WhereMeaning.GoodNames(table, q) && Lawful(env.cmp) && env.params == Params(w)
    ensures var text := FragText(ShapeParts(ShapeOf(w)), q);
            && (text == "") == (Truths(table, JsonOf(w), q, casts, env) == [])
            && (text != "" ==>
                  && ParseCondition(text).Some?
                  && ParseOr(Lex(text), 0).n == |Params(w)|
                  && Eval(ParseCondition(text).value, env) == AndAll(Truths(table, JsonOf(w), q, casts, env)))
  {
    TwinBindIff(table, cols, w, casts);
    WhereMeaning.TextMeansTree(table, JsonOf(w), q, casts, env);
  }

  /** A table that leaves every bound value as it is, as the TypeScript side does. */
  predicate Untyped(table: Table) { forall k :: 0 <= k < |table.columns| ==> table.columns[k].ty == TextCol }

  /** Read as TypeScript reads it, without types, every value is alike once it is sent. */
  lemma UntypedAlike(table: Table, bs: seq<Binding>, casts: Casts)
    requires Untyped(table) && forall k :: 0 <= k < |bs| ==> bs[k].sent
    ensures AllAlike(table, bs, casts)
  {
    forall k | 0 <= k < |bs| ensures Alike(table, bs[k], casts) {
      TextOnly(table.columns, bs[k].col);
    }
  }

  /** The meaning the TypeScript side gives the tree, where no value is nudged: the twin's text has it as soon as no null
      is loose. */
  lemma TwinMeansUntyped(table: Table, cols: seq<string>, w: Where, q: string, casts: Casts, env: Env)
    requires Untyped(table) && Declares(table, cols) && Typed(w) && KnownCols(w, cols)
    requires forall k :: 0 <= k < |Bindings(w)| ==> Bindings(w)[k].sent
    requires WhereMeaning.GoodNames(table, q) && Lawful(env.cmp) && env.params == Params(w)
    ensures var text := FragText(ShapeParts(ShapeOf(w)), q);
            && (text == "") == (Truths(table, JsonOf(w), q, casts, env) == [])
            && (text != "" ==>
                  && ParseCondition(text).Some?
                  && Eval(ParseCondition(text).value, env) == AndAll(Truths(table, JsonOf(w), q, casts, env)))
  {
    UntypedAlike(table, Bindings(w), casts);
    TwinMeans(table, cols, w, q, casts, env);
  }

  lemma {:induction false} TextOnly(columns: seq<TableColumn>, col: string)
    requires forall k :: 0 <= k < |columns| ==> columns[k].ty == TextCol
    ensures TypeIn(columns, col) == None || TypeIn(columns, col) == Some(TextCol)
  {
    if columns != [] {
      TextOnly(columns[1..], col);
    }
  }

  /** The two compile the same clause text for the same predicate. */
  lemma TwinClause(table: Table, cols: seq<string>, w: Where, qualify: Option<string>, q: string, casts: Casts)
    requires Declares(table, cols) && Typed(w) && KnownCols(w, cols)
    requires q == match qualify case None => "" case Some(t) => t + "."
    ensures var r := WhereRender.ClauseOf(table, Some(JsonOf(w)), qualify, casts);
            r.Ok? && r.value.text == ClauseText(ShapeOf(w), q)
  {
    TwinRenders(table, cols, w, casts);
  }
}
