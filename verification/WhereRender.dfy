/** `render_group` and `compile_where`: the loops that print a where tree and collect its parameters (orm.rs). */
module WhereRender {
  import opened Bytes
  import opened SqlExpr
  import opened WhereFrag
  import opened WhereTree
  import opened WhereMeaning

  function Texts(parts: seq<Part>, q: string): (ts: seq<string>)
    ensures |ts| == |parts|
  {
    seq(|parts|, k requires 0 <= k < |parts| => PartText(parts[k], q))
  }

  lemma TextsConcat(a: seq<Part>, b: seq<Part>, q: string)
    ensures Texts(a + b, q) == Texts(a, q) + Texts(b, q)
  {
  }

  lemma {:induction false} JoinTexts(parts: seq<Part>, sep: string, q: string)
    ensures Join(Texts(parts, q), sep) == PartsText(parts, sep, q)
  {
    if |parts| > 1 {
      JoinTexts(parts[1..], sep, q);
      assert Texts(parts, q)[1..] == Texts(parts[1..], q);
    }
  }

  lemma OneText(p: Pred, q: string)
    ensures Texts([One(p)], q) == [PredText(p, q)]
  {
  }

  lemma EqText(ident: string)
    ensures ident + " = ?" == ident + " " + OpText(Eq) + " ?"
  {
  }

  /** A part never prints as nothing. */
  lemma PartTextShows(part: Part, q: string)
    ensures PartText(part, q) != ""
  {
    match part
    case One(p) => assert |PredText(p, q)| > 0;
    case Group(g) => assert |"(" + PartsText(g, " AND ", q) + ")"| > 0;
    case AnyOf(gs) => assert |"(" + PartsText(gs, " OR ", q) + ")"| > 0;
    case NotGroup(g) => assert |"NOT (" + PartsText(g, " AND ", q) + ")"| > 0;
  }

  lemma FragTextEmpty(parts: seq<Part>, q: string)
    ensures (FragText(parts, q) == "") == (parts == [])
  {
    if parts != [] {
      PartTextShows(parts[0], q);
    }
  }

  // ---- an error stops the loop it happens in ----

  lemma {:induction false} OpsStuck(table: Table, col: string, ops: seq<Field>, k: nat, n: nat, casts: Casts)
    requires k <= n <= |ops| && OpsParts(table, col, ops, k, casts).Err?
    ensures OpsParts(table, col, ops, n, casts) == OpsParts(table, col, ops, k, casts)
    decreases n
  {
    if k < n {
      OpsStuck(table, col, ops, k, n - 1, casts);
    }
  }

  lemma {:induction false} ListStuck(table: Table, col: string, items: seq<Json>, k: nat, n: nat, casts: Casts)
    requires k <= n <= |items| && ListParams(table, col, items, k, casts).Err?
    ensures ListParams(table, col, items, n, casts) == ListParams(table, col, items, k, casts)
    decreases n
  {
    if k < n {
      ListStuck(table, col, items, k, n - 1, casts);
    }
  }

  lemma {:induction false} CondsStuck(table: Table, w: Json, k: nat, n: nat, casts: Casts)
    requires w.JObject? && k <= n <= |w.fields| && CondsParts(table, w, k, casts).Err?
    ensures CondsParts(table, w, n, casts) == CondsParts(table, w, k, casts)
    decreases n
  {
    if k < n {
      CondsStuck(table, w, k, n - 1, casts);
    }
  }

  lemma GroupStuck(table: Table, v: Json, n: nat, wrap: Wrap, casts: Casts, f: Fault)
    requires n < |Items(v)| && GroupParts(table, v, n, wrap, casts) == Err(f)
    ensures GroupParts(table, v, n + 1, wrap, casts) == Err(f)
  {
  }

  lemma {:induction false} GroupsStuck(table: Table, v: Json, k: nat, n: nat, wrap: Wrap, casts: Casts, f: Fault)
    requires k <= n <= |Items(v)| && GroupParts(table, v, k, wrap, casts) == Err(f)
    ensures GroupParts(table, v, n, wrap, casts) == Err(f)
    decreases n - k
  {
    if k == n {
      return;
    }
    GroupStuck(table, v, k, wrap, casts, f);
    GroupsStuck(table, v, k + 1, n, wrap, casts, f);
  }

  // ---- the loops ----

  /** What a renderer has appended: texts for the parts, values for the parameters. */
  ghost predicate Appended(spec: Checked<Rendered>, r: Checked<seq<string>>, q: string, before: seq<Value>, after: seq<Value>) {
    match spec
    case Err(f) => r == Err(f)
    case Ok(d) => r == Ok(Texts(d.parts, q)) && after == before + d.params
  }

  method RenderList(table: Table, col: string, items: seq<Json>, casts: Casts, params: seq<Value>)
    returns (r: Checked<()>, params': seq<Value>)
    ensures match ListParams(table, col, items, |items|, casts)
            case Err(f) => r == Err(f)
            case Ok(ps) => r == Ok(()) && params' == params + ps
  {
    params' := params;
    for k := 0 to |items|
      invariant ListParams(table, col, items, k, casts).Ok?
      invariant params' == params + ListParams(table, col, items, k, casts).value
    {
      match ToParamAs(table, col, items[k], casts) {
        case Err(f) =>
          ListStuck(table, col, items, k + 1, |items|, casts);
          return Err(f), params';
        case Ok(p) => params' := params' + [p];
      }
    }
    r := Ok(());
  }

  method RenderOp(table: Table, col: string, op: Op, v: Json, q: string, casts: Casts, params: seq<Value>)
    returns (r: Checked<seq<string>>, params': seq<Value>)
    ensures Appended(OpParts(table, col, op, v, casts), r, q, params, params')
  {
    params' := params;
    var ident := q + col;
    match op
    case InList =>
      if !v.JArray? {
        return Err(InNeedsArray(col)), params';
      }
      if v.items == [] {
        OneText(Never, q);
        return Ok(["1 = 0"]), params';
      }
      var ok;
      ok, params' := RenderList(table, col, v.items, casts, params);
      if ok.Err? {
        return Err(ok.fault), params';
      }
      OneText(Among(col, |v.items|), q);
      return Ok([ident + " IN (" + Marks(|v.items|) + ")"]), params';
    case CmpWith(c) =>
      OneText(Comparing(col, c), q);
      OneText(NullTest(col, true), q);
      OneText(NullTest(col, false), q);
      if c == Ne && v == JNull {
        return Ok([ident + " IS NOT NULL"]), params';
      } else if c == Eq && v == JNull {
        return Ok([ident + " IS NULL"]), params';
      }
      match ToParamAs(table, col, v, casts)
      case Err(f) => return Err(f), params';
      case Ok(p) => return Ok([ident + " " + OpText(c) + " ?"]), params' + [p];
  }

  method RenderCond(table: Table, col: string, cond: Json, q: string, casts: Casts, params: seq<Value>)
    returns (r: Checked<seq<string>>, params': seq<Value>)
    ensures Appended(CondParts(table, col, cond, casts), r, q, params, params')
  {
    params' := params;
    if TypeOf(table, col).None? {
      return Err(UnknownColumn(col)), params';
    }
    OneText(NullTest(col, false), q);
    OneText(Comparing(col, Eq), q);
    EqText(q + col);
    match cond
    case JNull => return Ok([q + col + " IS NULL"]), params';
    case JObject(ops) =>
      var parts := [];
      ghost var done := Rendered([], []);
      for k := 0 to |ops|
        invariant OpsParts(table, col, ops, k, casts) == Ok(done)
        invariant parts == Texts(done.parts, q) && params' == params + done.params
      {
        match SqlOp(ops[k].key) {
          case None =>
          case Some(op) =>
            var more;
            more, params' := RenderOp(table, col, op, ops[k].value, q, casts, params');
            if more.Err? {
              OpsStuck(table, col, ops, k + 1, |ops|, casts);
              return Err(more.fault), params';
            }
            ghost var add := OpParts(table, col, op, ops[k].value, casts).value;
            TextsConcat(done.parts, add.parts, q);
            parts, done := parts + more.value, Add(done, add);
        }
      }
      return Ok(parts), params';
    case _ =>
      match ToParamAs(table, col, cond, casts)
      case Err(f) => return Err(f), params';
      case Ok(p) => return Ok([q + col + " = ?"]), params' + [p];
  }

  method RenderConds(table: Table, w: Json, q: string, casts: Casts, params: seq<Value>)
    returns (r: Checked<seq<string>>, params': seq<Value>)
    requires w.JObject?
    ensures Appended(CondsParts(table, w, |w.fields|, casts), r, q, params, params')
  {
    params' := params;
    var parts := [];
    ghost var done := Rendered([], []);
    for k := 0 to |w.fields|
      invariant CondsParts(table, w, k, casts) == Ok(done)
      invariant parts == Texts(done.parts, q) && params' == params + done.params
    {
      var f := w.fields[k];
      if !Logical(f.key) {
        var more;
        more, params' := RenderCond(table, f.key, f.value, q, casts, params');
        if more.Err? {
          CondsStuck(table, w, k + 1, |w.fields|, casts);
          return Err(more.fault), params';
        }
        ghost var add := CondParts(table, f.key, f.value, casts).value;
        TextsConcat(done.parts, add.parts, q);
        parts, done := parts + more.value, Add(done, add);
      }
    }
    r := Ok(parts);
  }

  lemma PartTexts(part: Part, q: string)
    ensures Texts([part], q) == [PartText(part, q)]
  {
  }

  /** One group, rendered and parenthesised, or nothing. */
  method RenderWrapped(table: Table, g: Json, wrap: Wrap, q: string, casts: Casts, params: seq<Value>)
    returns (r: Checked<seq<string>>, params': seq<Value>)
    requires g.JObject?
    ensures match FragOf(table, g, casts)
            case Err(f) => r == Err(f)
            case Ok(d) => r == Ok(Texts(if d.parts == [] then [] else [Wrapped(wrap, d.parts)], q)) && params' == params + d.params
    decreases g, 0, 3
  {
    var s;
    s, params' := RenderGroup(table, g, q, casts, params);
    if s.Err? {
      return Err(s.fault), params';
    }
    ghost var inner := FragOf(table, g, casts).value;
    FragTextEmpty(inner.parts, q);
    if s.value == "" {
      return Ok([]), params';
    }
    PartTexts(Wrapped(wrap, inner.parts), q);
    return Ok([if wrap == Plain then "(" + s.value + ")" else "NOT (" + s.value + ")"]), params';
  }

  lemma AppendedMore(done: Rendered, add: Rendered, parts: seq<string>, more: seq<string>, q: string,
                     p0: seq<Value>, p1: seq<Value>, p2: seq<Value>)
    requires parts == Texts(done.parts, q) && p1 == p0 + done.params
    requires more == Texts(add.parts, q) && p2 == p1 + add.params
    ensures Appended(Ok(Add(done, add)), Ok(parts + more), q, p0, p2)
  {
    TextsConcat(done.parts, add.parts, q);
  }

  /** The next group of a list. */
  method RenderNext(table: Table, v: Json, k: nat, parts: seq<string>, wrap: Wrap, q: string, casts: Casts,
                    params: seq<Value>, ghost before: seq<Value>)
    returns (r: Checked<seq<string>>, params': seq<Value>)
    requires k < |Items(v)| && Appended(GroupParts(table, v, k, wrap, casts), Ok(parts), q, before, params)
    ensures Appended(GroupParts(table, v, k + 1, wrap, casts), r, q, before, params')
    decreases v, 1, 0
  {
    var g := Items(v)[k];
    if !g.JObject? {
      return Err(GroupNotObject), params;
    }
    r, params' := RenderWrapped(table, g, wrap, q, casts, params);
    if r.Ok? {
      ghost var done, inner := GroupParts(table, v, k, wrap, casts).value, FragOf(table, g, casts).value;
      ghost var add := Rendered(if inner.parts == [] then [] else [Wrapped(wrap, inner.parts)], inner.params);
      AppendedMore(done, add, parts, r.value, q, before, params, params');
      r := Ok(parts + r.value);
    }
  }

  lemma NoGroupsYet(table: Table, v: Json, wrap: Wrap, q: string, casts: Casts, params: seq<Value>)
    ensures Appended(GroupParts(table, v, 0, wrap, casts), Ok([]), q, params, params)
  {
    assert params + [] == params;
  }

  /** The groups of a list, in order. */
  method RenderGroups(table: Table, v: Json, wrap: Wrap, q: string, casts: Casts, params: seq<Value>)
    returns (r: Checked<seq<string>>, params': seq<Value>)
    ensures Appended(GroupParts(table, v, |Items(v)|, wrap, casts), r, q, params, params')
    decreases v, 1, 1
  {
    params' := params;
    r := Ok([]);
    var n := |Items(v)|;
    NoGroupsYet(table, v, wrap, q, casts, params);
    for k := 0 to n
      invariant r.Ok? && Appended(GroupParts(table, v, k, wrap, casts), r, q, params, params')
    {
      r, params' := RenderNext(table, v, k, r.value, wrap, q, casts, params', params);
      if r.Err? {
        GroupsStuck(table, v, k + 1, n, wrap, casts, r.fault);
        return;
      }
    }
  }

  method RenderAndNot(table: Table, w: Json, key: string, wrap: Wrap, q: string, casts: Casts, params: seq<Value>)
    returns (r: Checked<seq<string>>, params': seq<Value>)
    requires w.JObject?
    ensures Appended(AndNotParts(table, w, key, wrap, casts), r, q, params, params')
    decreases w, 0, 1
  {
    match Get(w, key)
    case None => return Ok([]), params;
    case Some(v) =>
      if !IsGroupList(v) {
        return Err(GroupNotObject), params;
      }
      r, params' := RenderGroups(table, v, wrap, q, casts, params);
  }

  method RenderOr(table: Table, w: Json, q: string, casts: Casts, params: seq<Value>)
    returns (r: Checked<seq<string>>, params': seq<Value>)
    requires w.JObject?
    ensures Appended(OrParts(table, w, casts), r, q, params, params')
    decreases w, 0, 1
  {
    match Get(w, "OR")
    case None => return Ok([]), params;
    case Some(v) =>
      if !v.JArray? {
        return Err(OrNeedsArray), params;
      }
      if v.items == [] {
        OneText(Never, q);
        return Ok(["1 = 0"]), params;
      }
      r, params' := RenderGroups(table, v, Plain, q, casts, params);
      if r.Ok? && r.value != [] {
        ghost var subs := GroupParts(table, v, |v.items|, Plain, casts).value.parts;
        JoinTexts(subs, " OR ", q);
        PartTexts(AnyOf(subs), q);
        r := Ok(["(" + Join(r.value, " OR ") + ")"]);
      }
  }

  /** `render_group` */
  method RenderGroup(table: Table, w: Json, q: string, casts: Casts, params: seq<Value>)
    returns (r: Checked<string>, params': seq<Value>)
    requires w.JObject?
    ensures match FragOf(table, w, casts)
            case Err(f) => r == Err(f)
            case Ok(d) => r == Ok(FragText(d.parts, q)) && params' == params + d.params
    decreases w, 0, 2
  {
    var conds, ands, ors, nots;
    ghost var sc := CondsParts(table, w, |w.fields|, casts);
    conds, params' := RenderConds(table, w, q, casts, params);
    if conds.Err? {
      return Err(conds.fault), params';
    }
    ghost var p1 := params';
    ands, params' := RenderAndNot(table, w, "AND", Plain, q, casts, params');
    if ands.Err? {
      return Err(ands.fault), params';
    }
    ghost var sa, p2 := AndNotParts(table, w, "AND", Plain, casts), params';
    AppendedThen(sc, sa, conds.value, ands.value, q, params, p1, p2);
    ors, params' := RenderOr(table, w, q, casts, params');
    if ors.Err? {
      return Err(ors.fault), params';
    }
    ghost var so, p3 := OrParts(table, w, casts), params';
    AppendedThen(Then(sc, sa), so, conds.value + ands.value, ors.value, q, params, p2, p3);
    nots, params' := RenderAndNot(table, w, "NOT", Negated, q, casts, params');
    if nots.Err? {
      return Err(nots.fault), params';
    }
    ghost var sn := AndNotParts(table, w, "NOT", Negated, casts);
    var parts := conds.value + ands.value + ors.value + nots.value;
    AppendedThen(Then(Then(sc, sa), so), sn, conds.value + ands.value + ors.value, nots.value, q, params, p3, params');
    JoinTexts(FragOf(table, w, casts).value.parts, " AND ", q);
    return Ok(Join(parts, " AND ")), params';
  }

  lemma AppendedThen(a: Checked<Rendered>, b: Checked<Rendered>, ta: seq<string>, tb: seq<string>, q: string,
                     p0: seq<Value>, p1: seq<Value>, p2: seq<Value>)
    requires Appended(a, Ok(ta), q, p0, p1) && Appended(b, Ok(tb), q, p1, p2)
    ensures Appended(Then(a, b), Ok(ta + tb), q, p0, p2)
  {
    TextsConcat(a.value.parts, b.value.parts, q);
  }

  // ---- compile_where ----

  datatype Clause = Clause(text: string, params: seq<Value>)

  function ClauseOf(table: Table, where_: Option<Json>, qualify: Option<string>, casts: Casts): Checked<Clause> {
    if where_.None? || where_.value == JNull then Ok(Clause("", []))
    else if !where_.value.JObject? then Err(WhereNotObject)
    else
      match FragOf(table, where_.value, casts)
      case Err(f) => Err(f)
      case Ok(d) =>
        var frag := FragText(d.parts, QualifierOf(qualify));
        Ok(Clause(if frag == "" then "" else " WHERE " + frag, d.params))
  }

  function QualifierOf(qualify: Option<string>): string {
    match qualify case None => "" case Some(t) => t + "."
  }

  method CompileWhere(table: Table, where_: Option<Json>, qualify: Option<string>, casts: Casts)
    returns (r: Checked<Clause>)
    ensures r == ClauseOf(table, where_, qualify, casts)
    ensures where_.None? || where_.value.JNull? ==> r == Ok(Clause("", []))
    ensures where_.Some? && !where_.value.JNull? && !where_.value.JObject? ==> r == Err(WhereNotObject)
  {
    if where_.None? || where_.value == JNull {
      return Ok(Clause("", []));
    }
    var w := where_.value;
    if !w.JObject? {
      return Err(WhereNotObject);
    }
    var q := QualifierOf(qualify);
    var frag, params := RenderGroup(table, w, q, casts, []);
    match frag
    case Err(f) => return Err(f);
    case Ok(text) =>
      assert [] + FragOf(table, w, casts).value.params == FragOf(table, w, casts).value.params;
      if text == "" {
        return Ok(Clause("", params));
      }
      return Ok(Clause(" WHERE " + text, params));
  }

  /** An empty clause keeps every row; another keeps the rows its condition is true of. */
  ghost predicate Keeps(text: string, env: Env) {
    text == "" ||
      (|text| > 7 && text[..7] == " WHERE " && ParseCondition(text[7..]).Some? && Eval(ParseCondition(text[7..]).value, env) == True)
  }

  /** A where that is missing or null compiles to nothing and keeps every row, one that is not an object is refused. The
      clause of an object keeps a row exactly when the tree is true of it, its columns read through the qualifier. */
  lemma ClauseMeansTree(table: Table, where_: Option<Json>, qualify: Option<string>, q: string, casts: Casts, env: Env)
    requires q == match qualify case None => "" case Some(t) => t + "."
    ensures where_.None? || where_.value.JNull? ==>
              ClauseOf(table, where_, qualify, casts) == Ok(Clause("", [])) && Keeps("", env)
    ensures where_.Some? && !where_.value.JNull? && !where_.value.JObject? ==>
              ClauseOf(table, where_, qualify, casts) == Err(WhereNotObject)
    ensures where_.Some? && where_.value.JObject? && ClauseOf(table, where_, qualify, casts).Ok? && Lawful(env.cmp) &&
            GoodNames(table, q) && env.params == ClauseOf(table, where_, qualify, casts).value.params ==>
              (Keeps(ClauseOf(table, where_, qualify, casts).value.text, env)
               <==> AndAll(Truths(table, where_.value, q, casts, env)) == True)
  {
    if where_.Some? && where_.value.JObject? && ClauseOf(table, where_, qualify, casts).Ok? && Lawful(env.cmp) &&
       GoodNames(table, q) && env.params == ClauseOf(table, where_, qualify, casts).value.params
    {
      ObjectClause(table, where_.value, qualify, casts, env);
    }
  }

  /** The clause of an object has the tree's truth, unknown included; no clause stands for true. */
  lemma ObjectClause(table: Table, w: Json, qualify: Option<string>, casts: Casts, env: Env)
    requires w.JObject? && ClauseOf(table, Some(w), qualify, casts).Ok? && Lawful(env.cmp)
    requires GoodNames(table, QualifierOf(qualify))
    requires env.params == ClauseOf(table, Some(w), qualify, casts).value.params
    ensures var text := ClauseOf(table, Some(w), qualify, casts).value.text;
            var truth := AndAll(Truths(table, w, QualifierOf(qualify), casts, env));
            && (text == "" ==> truth == True)
            && (text != "" ==>
                  && |text| > 7 && text[..7] == " WHERE "
                  && ParseCondition(text[7..]).Some?
                  && Eval(ParseCondition(text[7..]).value, env) == truth)
  {
    TextMeansTree(table, w, QualifierOf(qualify), casts, env);
    var frag := FragText(FragOf(table, w, casts).value.parts, QualifierOf(qualify));
    assert (" WHERE " + frag)[7..] == frag && (" WHERE " + frag)[..7] == " WHERE ";
  }
}
