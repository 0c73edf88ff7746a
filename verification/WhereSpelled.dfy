/** The clauses the small predicates compile to, letter by letter, and the values they bind (orm.rs). */
module WhereSpelled {
  import opened Bytes
  import opened SqlExpr
  import opened WhereFrag
  import opened WhereTree
  import opened WhereRender

  // ---- one condition ----

  /** A predicate with one condition compiles to that condition. */
  lemma OneCondition(table: Table, col: string, cond: Json, casts: Casts)
    requires !Logical(col)
    ensures FragOf(table, JObject([Field(col, cond)]), casts) == CondParts(table, col, cond, casts)
  {
    var w := JObject([Field(col, cond)]);
    assert CondsParts(table, w, 0, casts) == Ok(Rendered([], []));
    match CondParts(table, col, cond, casts) {
      case Err(_) =>
      case Ok(d) =>
        AddNothing(d);
        assert CondsParts(table, w, 1, casts) == Ok(d);
    }
    assert Get(w, "AND") == None && Get(w, "OR") == None && Get(w, "NOT") == None;
  }

  lemma AddNothing(d: Rendered)
    ensures Add(Rendered([], []), d) == d && Add(d, Rendered([], [])) == d
  {
  }

  lemma OneOperator(table: Table, col: string, key: string, v: Json, casts: Casts)
    requires TypeOf(table, col).Some?
    ensures CondParts(table, col, JObject([Field(key, v)]), casts) ==
            match SqlOp(key) case None => Ok(Rendered([], [])) case Some(op) => OpParts(table, col, op, v, casts)
  {
    var ops := [Field(key, v)];
    assert OpsParts(table, col, ops, 0, casts) == Ok(Rendered([], []));
    match SqlOp(key) {
      case None =>
      case Some(op) =>
        match OpParts(table, col, op, v, casts) {
          case Err(_) =>
          case Ok(d) => AddNothing(d);
        }
    }
  }

  predicate Plainly(table: Table, col: string) { TypeOf(table, col).Some? && col != "AND" && col != "OR" && col != "NOT" }

  function Asks(table: Table, col: string, cond: Json, casts: Casts): Checked<Clause> {
    ClauseOf(table, Some(JObject([Field(col, cond)])), None, casts)
  }

  lemma Spelled(table: Table, col: string, cond: Json, casts: Casts, p: Pred, ps: seq<Value>)
    requires Plainly(table, col) && CondParts(table, col, cond, casts) == Ok(Rendered([One(p)], ps)) && PredText(p, "") != ""
    ensures Asks(table, col, cond, casts) == Ok(Clause(" WHERE " + PredText(p, ""), ps))
  {
    OneCondition(table, col, cond, casts);
    OnePart(One(p), " AND ", "");
  }

  lemma OnePart(part: Part, sep: string, q: string)
    ensures PartsText([part], sep, q) == PartText(part, q)
  {
  }

  lemma TwoParts(a: Part, b: Part, sep: string, q: string)
    ensures PartsText([a, b], sep, q) == PartText(a, q) + sep + PartText(b, q)
  {
    assert [a, b][1..] == [b];
    OnePart(b, sep, q);
  }

  /** Each operator, by its name. */
  lemma OperatorSpelled(table: Table, col: string, key: string, sign: string, v: Json, p: Value, casts: Casts)
    requires Plainly(table, col) && v != JNull && ToParamAs(table, col, v, casts) == Ok(p)
    requires (key == "eq" && sign == "=") || (key == "ne" && sign == "<>") || (key == "gt" && sign == ">")
          || (key == "gte" && sign == ">=") || (key == "lt" && sign == "<") || (key == "lte" && sign == "<=")
          || (key == "like" && sign == "LIKE")
    ensures Asks(table, col, JObject([Field(key, v)]), casts) == Ok(Clause(" WHERE " + (col + " " + sign + " ?"), [p]))
  {
    OneOperator(table, col, key, v, casts);
    var op := SqlOp(key).value.op;
    assert OpText(op) == sign;
    assert "" + col == col;
    Spelled(table, col, JObject([Field(key, v)]), casts, Comparing(col, op), [p]);
  }

  /** A value alone asks for equality, a null for its absence. */
  lemma BareSpelled(table: Table, col: string, v: Json, p: Value, casts: Casts)
    requires Plainly(table, col) && Scalar(v) && v != JNull && ToParamAs(table, col, v, casts) == Ok(p)
    ensures Asks(table, col, v, casts) == Ok(Clause(" WHERE " + (col + " = ?"), [p]))
    ensures Asks(table, col, JNull, casts) == Ok(Clause(" WHERE " + (col + " IS NULL"), []))
    ensures Asks(table, col, JObject([Field("eq", JNull)]), casts) == Ok(Clause(" WHERE " + (col + " IS NULL"), []))
    ensures Asks(table, col, JObject([Field("ne", JNull)]), casts) == Ok(Clause(" WHERE " + (col + " IS NOT NULL"), []))
  {
    assert "" + col == col;
    assert PredText(Comparing(col, Eq), "") == col + " = ?" by { assert col + " " + "=" + " ?" == col + " = ?"; }
    Spelled(table, col, v, casts, Comparing(col, Eq), [p]);
    Spelled(table, col, JNull, casts, NullTest(col, false), []);
    OneOperator(table, col, "eq", JNull, casts);
    Spelled(table, col, JObject([Field("eq", JNull)]), casts, NullTest(col, false), []);
    OneOperator(table, col, "ne", JNull, casts);
    Spelled(table, col, JObject([Field("ne", JNull)]), casts, NullTest(col, true), []);
  }

  lemma TwoValues(table: Table, col: string, items: seq<Json>, p: Value, q: Value, casts: Casts)
    requires |items| == 2 && ToParamAs(table, col, items[0], casts) == Ok(p) && ToParamAs(table, col, items[1], casts) == Ok(q)
    ensures ListParams(table, col, items, 2, casts) == Ok([p, q])
  {
    assert ListParams(table, col, items, 0, casts) == Ok([]);
    assert ListParams(table, col, items, 1, casts) == Ok([] + [p]);
    assert [] + [p] + [q] == [p, q];
  }

  lemma TwoAmong(table: Table, col: string, items: seq<Json>, p: Value, q: Value, casts: Casts)
    requires |items| == 2 && ToParamAs(table, col, items[0], casts) == Ok(p) && ToParamAs(table, col, items[1], casts) == Ok(q)
    ensures OpParts(table, col, InList, JArray(items), casts) == Ok(Rendered([One(Among(col, 2))], [p, q]))
  {
    TwoValues(table, col, items, p, q, casts);
  }

  lemma AmongText(col: string)
    ensures PredText(Among(col, 2), "") == col + " IN (" + "?, ?" + ")"
  {
    TwoMarks();
    assert "" + col == col;
  }

  /** A list of two, and the empty list, which nothing is in. */
  lemma InSpelled(table: Table, col: string, items: seq<Json>, p: Value, q: Value, casts: Casts)
    requires Plainly(table, col) && |items| == 2
    requires ToParamAs(table, col, items[0], casts) == Ok(p) && ToParamAs(table, col, items[1], casts) == Ok(q)
    ensures Asks(table, col, JObject([Field("in", JArray(items))]), casts) ==
            Ok(Clause(" WHERE " + (col + " IN (" + "?, ?" + ")"), [p, q]))
  {
    assert CondParts(table, col, JObject([Field("in", JArray(items))]), casts) == Ok(Rendered([One(Among(col, 2))], [p, q])) by {
      TwoAmong(table, col, items, p, q, casts);
      OneOperator(table, col, "in", JArray(items), casts);
    }
    AmongText(col);
    Spelled(table, col, JObject([Field("in", JArray(items))]), casts, Among(col, 2), [p, q]);
  }

  lemma NothingSpelled(table: Table, col: string, casts: Casts)
    requires Plainly(table, col)
    ensures Asks(table, col, JObject([Field("in", JArray([]))]), casts) == Ok(Clause(" WHERE " + "1 = 0", []))
  {
    OneOperator(table, col, "in", JArray([]), casts);
    Spelled(table, col, JObject([Field("in", JArray([]))]), casts, Never, []);
  }

  lemma TwoMarks()
    ensures Marks(2) == "?, ?"
  {
    var ss := seq(2, _ => "?");
    assert ss[1..] == ["?"] && Join(ss[1..], ", ") == "?";
    assert Join(ss, ", ") == "?" + ", " + "?" == "?, ?";
  }

  // ---- two groups ----

  lemma TwoGroups(table: Table, v: Json, g: Json, h: Json, dg: Rendered, dh: Rendered, wrap: Wrap, casts: Casts)
    requires v == JArray([g, h]) && g.JObject? && h.JObject? && dg.parts != [] && dh.parts != []
    requires FragOf(table, g, casts) == Ok(dg) && FragOf(table, h, casts) == Ok(dh)
    ensures |Items(v)| == 2
    ensures GroupParts(table, v, 2, wrap, casts) ==
            Ok(Rendered([Wrapped(wrap, dg.parts), Wrapped(wrap, dh.parts)], dg.params + dh.params))
  {
    var first := Rendered([Wrapped(wrap, dg.parts)], dg.params);
    assert GroupParts(table, v, 0, wrap, casts) == Ok(Rendered([], []));
    AddNothing(first);
    assert Items(v)[0] == g && Items(v)[1] == h;
    assert GroupParts(table, v, 1, wrap, casts) == Ok(first);
    assert Add(first, Rendered([Wrapped(wrap, dh.parts)], dh.params)) ==
           Rendered([Wrapped(wrap, dg.parts), Wrapped(wrap, dh.parts)], dg.params + dh.params);
  }

  lemma OneKey(table: Table, key: string, v: Json, casts: Casts)
    requires key == "AND" || key == "OR" || key == "NOT"
    ensures FragOf(table, JObject([Field(key, v)]), casts) ==
            if key == "OR" then OrParts(table, JObject([Field(key, v)]), casts)
            else AndNotParts(table, JObject([Field(key, v)]), key, if key == "AND" then Plain else Negated, casts)
  {
    var w := JObject([Field(key, v)]);
    assert CondsParts(table, w, 0, casts) == Ok(Rendered([], [])) && CondsParts(table, w, 1, casts) == Ok(Rendered([], []));
    assert Get(w, key) == Some(v);
    var d := if key == "OR" then OrParts(table, w, casts)
             else AndNotParts(table, w, key, if key == "AND" then Plain else Negated, casts);
    if d.Ok? {
      AddNothing(d.value);
      AddNothing(Rendered([], []));
    }
  }

  /** Two equality groups. */
  function Pair(c: string, x: Json, d: string, y: Json): Json { JArray([JObject([Field(c, x)]), JObject([Field(d, y)])]) }

  lemma PairParts(table: Table, c: string, x: Json, p: Value, d: string, y: Json, q: Value, wrap: Wrap, casts: Casts)
    requires Plainly(table, c) && Scalar(x) && x != JNull && ToParamAs(table, c, x, casts) == Ok(p)
    requires Plainly(table, d) && Scalar(y) && y != JNull && ToParamAs(table, d, y, casts) == Ok(q)
    ensures |Items(Pair(c, x, d, y))| == 2 && IsGroupList(Pair(c, x, d, y))
    ensures GroupParts(table, Pair(c, x, d, y), 2, wrap, casts) ==
            Ok(Rendered([Wrapped(wrap, [One(Comparing(c, Eq))]), Wrapped(wrap, [One(Comparing(d, Eq))])], [p, q]))
  {
    EqualityParts(table, c, x, p, casts);
    EqualityParts(table, d, y, q, casts);
    assert [p] + [q] == [p, q];
    TwoGroups(table, Pair(c, x, d, y), JObject([Field(c, x)]), JObject([Field(d, y)]),
              Rendered([One(Comparing(c, Eq))], [p]), Rendered([One(Comparing(d, Eq))], [q]), wrap, casts);
  }

  /** Two groups joined each way. */
  lemma AndSpelled(table: Table, c: string, x: Json, p: Value, d: string, y: Json, q: Value, casts: Casts)
    requires Plainly(table, c) && Scalar(x) && x != JNull && ToParamAs(table, c, x, casts) == Ok(p)
    requires Plainly(table, d) && Scalar(y) && y != JNull && ToParamAs(table, d, y, casts) == Ok(q)
    ensures Asks(table, "AND", Pair(c, x, d, y), casts) ==
            Ok(Clause(" WHERE " + (("(" + (c + " = ?") + ")") + " AND " + ("(" + (d + " = ?") + ")")), [p, q]))
  {
    PairParts(table, c, x, p, d, y, q, Plain, casts);
    OneKey(table, "AND", Pair(c, x, d, y), casts);
    TwoParts(Group([One(Comparing(c, Eq))]), Group([One(Comparing(d, Eq))]), " AND ", "");
    EqualityText(c);
    EqualityText(d);
  }

  lemma OrSpelled(table: Table, c: string, x: Json, p: Value, d: string, y: Json, q: Value, casts: Casts)
    requires Plainly(table, c) && Scalar(x) && x != JNull && ToParamAs(table, c, x, casts) == Ok(p)
    requires Plainly(table, d) && Scalar(y) && y != JNull && ToParamAs(table, d, y, casts) == Ok(q)
    ensures Asks(table, "OR", Pair(c, x, d, y), casts) ==
            Ok(Clause(" WHERE " + ("(" + (("(" + (c + " = ?") + ")") + " OR " + ("(" + (d + " = ?") + ")")) + ")"), [p, q]))
  {
    PairParts(table, c, x, p, d, y, q, Plain, casts);
    OneKey(table, "OR", Pair(c, x, d, y), casts);
    var a, b := Group([One(Comparing(c, Eq))]), Group([One(Comparing(d, Eq))]);
    OnePart(AnyOf([a, b]), " AND ", "");
    TwoParts(a, b, " OR ", "");
    EqualityText(c);
    EqualityText(d);
  }

  lemma NotSpelled(table: Table, c: string, x: Json, p: Value, d: string, y: Json, q: Value, casts: Casts)
    requires Plainly(table, c) && Scalar(x) && x != JNull && ToParamAs(table, c, x, casts) == Ok(p)
    requires Plainly(table, d) && Scalar(y) && y != JNull && ToParamAs(table, d, y, casts) == Ok(q)
    ensures Asks(table, "NOT", Pair(c, x, d, y), casts) ==
            Ok(Clause(" WHERE " + (("NOT (" + (c + " = ?") + ")") + " AND " + ("NOT (" + (d + " = ?") + ")")), [p, q]))
  {
    PairParts(table, c, x, p, d, y, q, Negated, casts);
    OneKey(table, "NOT", Pair(c, x, d, y), casts);
    NotText(c, d);
  }

  lemma NotText(c: string, d: string)
    ensures FragText([NotGroup([One(Comparing(c, Eq))]), NotGroup([One(Comparing(d, Eq))])], "") ==
            ("NOT (" + (c + " = ?") + ")") + " AND " + ("NOT (" + (d + " = ?") + ")")
  {
    TwoParts(NotGroup([One(Comparing(c, Eq))]), NotGroup([One(Comparing(d, Eq))]), " AND ", "");
    EqualityText(c);
    EqualityText(d);
  }

  lemma NeverText()
    ensures FragText([One(Never)], "") == "1 = 0"
  {
    OnePart(One(Never), " AND ", "");
  }

  lemma NoGroups(table: Table, key: string, casts: Casts)
    requires key == "AND" || key == "NOT"
    ensures FragOf(table, JObject([Field(key, JArray([]))]), casts) == Ok(Rendered([], []))
  {
    OneKey(table, key, JArray([]), casts);
    assert Get(JObject([Field(key, JArray([]))]), key) == Some(JArray([]));
  }

  lemma NoAlternative(table: Table, casts: Casts)
    ensures FragOf(table, JObject([Field("OR", JArray([]))]), casts) == Ok(Rendered([One(Never)], []))
  {
    OneKey(table, "OR", JArray([]), casts);
    assert Get(JObject([Field("OR", JArray([]))]), "OR") == Some(JArray([]));
  }

  /** No alternative: nothing. No group at all: everything. */
  lemma EmptySpelled(table: Table, casts: Casts)
    ensures Asks(table, "OR", JArray([]), casts) == Ok(Clause(" WHERE " + "1 = 0", []))
    ensures Asks(table, "AND", JArray([]), casts) == Asks(table, "NOT", JArray([]), casts) == Ok(Clause("", []))
  {
    NoAlternative(table, casts);
    NeverText();
    FragClause(table, JObject([Field("OR", JArray([]))]), casts, Rendered([One(Never)], []));
    NoGroups(table, "AND", casts);
    FragClause(table, JObject([Field("AND", JArray([]))]), casts, Rendered([], []));
    NoGroups(table, "NOT", casts);
    FragClause(table, JObject([Field("NOT", JArray([]))]), casts, Rendered([], []));
  }

  lemma FragClause(table: Table, w: Json, casts: Casts, d: Rendered)
    requires w.JObject? && FragOf(table, w, casts) == Ok(d)
    ensures ClauseOf(table, Some(w), None, casts) ==
            Ok(Clause(if FragText(d.parts, "") == "" then "" else " WHERE " + FragText(d.parts, ""), d.params))
  {
  }

  lemma EqualityParts(table: Table, c: string, x: Json, p: Value, casts: Casts)
    requires Plainly(table, c) && Scalar(x) && x != JNull && ToParamAs(table, c, x, casts) == Ok(p)
    ensures FragOf(table, JObject([Field(c, x)]), casts) == Ok(Rendered([One(Comparing(c, Eq))], [p]))
  {
    OneCondition(table, c, x, casts);
  }

  lemma EqualityText(c: string)
    ensures PartsText([One(Comparing(c, Eq))], " AND ", "") == c + " = ?"
  {
    OnePart(One(Comparing(c, Eq)), " AND ", "");
    assert "" + c == c && c + " " + "=" + " ?" == c + " = ?";
  }

  // ---- the values ----

  /** A value is bound as it is, except a number whose kind is not its column's: an integer for a float column becomes
      that float, a float without fraction for an integer column that integer, an integer for a boolean column whether it
      is not zero. */
  lemma ValueBound(table: Table, col: string, ty: ColType, v: Json, casts: Casts)
    requires TypeOf(table, col) == Some(ty)
    ensures ToParamAs(table, col, v, casts) ==
            if v.JArray? || v.JObject? then Err(UnsupportedValue)
            else if v == JNull then Ok(NullValue)
            else if v.JBool? then Ok(BoolValue(v.b))
            else if v.JText? then Ok(TextValue(v.text))
            else if v.JInt? && ty == FloatCol then Ok(FloatValue(casts.toFloat(v.i)))
            else if v.JInt? && ty == BoolCol then Ok(BoolValue(v.i != 0))
            else if v.JInt? then Ok(IntValue(v.i))
            else if ty == IntCol && casts.whole(v.f).Some? then Ok(IntValue(casts.whole(v.f).value))
            else Ok(FloatValue(v.f))
  {
  }

  // ---- the faults ----

  lemma Refused(table: Table, col: string, cond: Json, casts: Casts, f: Fault)
    requires !Logical(col) && CondParts(table, col, cond, casts) == Err(f)
    ensures Asks(table, col, cond, casts) == Err(f)
  {
    OneCondition(table, col, cond, casts);
  }

  /** What each malformed condition is refused for. */
  lemma ConditionRefused(table: Table, col: string, v: Json, casts: Casts)
    requires col != "AND" && col != "OR" && col != "NOT"
    ensures TypeOf(table, col).None? ==> Asks(table, col, v, casts) == Err(UnknownColumn(col))
    ensures TypeOf(table, col).Some? && v.JArray? ==> Asks(table, col, v, casts) == Err(UnsupportedValue)
  {
    if TypeOf(table, col).None? {
      Refused(table, col, v, casts, UnknownColumn(col));
    } else if v.JArray? {
      Refused(table, col, v, casts, UnsupportedValue);
    }
  }

  lemma OperandRefused(table: Table, col: string, v: Json, casts: Casts)
    requires Plainly(table, col)
    ensures !v.JArray? ==> Asks(table, col, JObject([Field("in", v)]), casts) == Err(InNeedsArray(col))
    ensures v.JArray? || v.JObject? ==> Asks(table, col, JObject([Field("gt", v)]), casts) == Err(UnsupportedValue)
  {
    if !v.JArray? {
      OneOperator(table, col, "in", v, casts);
      Refused(table, col, JObject([Field("in", v)]), casts, InNeedsArray(col));
    }
    if v.JArray? || v.JObject? {
      OneOperator(table, col, "gt", v, casts);
      Refused(table, col, JObject([Field("gt", v)]), casts, UnsupportedValue);
    }
  }

  /** An operator nobody knows says nothing. */
  lemma UnknownOperator(table: Table, col: string, key: string, v: Json, casts: Casts)
    requires Plainly(table, col) && key !in ["eq", "ne", "gt", "gte", "lt", "lte", "like", "in"]
    ensures Asks(table, col, JObject([Field(key, v)]), casts) == Ok(Clause("", []))
  {
    OneOperator(table, col, key, v, casts);
    OneCondition(table, col, JObject([Field(key, v)]), casts);
    FragClause(table, JObject([Field(col, JObject([Field(key, v)]))]), casts, Rendered([], []));
  }

  lemma GroupsRefused(table: Table, v: Json, casts: Casts)
    ensures !v.JArray? ==> Asks(table, "OR", v, casts) == Err(OrNeedsArray)
    ensures !v.JArray? && !v.JObject? ==>
              Asks(table, "AND", v, casts) == Asks(table, "NOT", v, casts) == Err(GroupNotObject)
  {
    OneKey(table, "OR", v, casts);
    OneKey(table, "AND", v, casts);
    OneKey(table, "NOT", v, casts);
  }

  /** One group stands for a list of one. */
  lemma OneGroup(table: Table, key: string, g: Json, casts: Casts)
    requires g.JObject? && (key == "AND" || key == "NOT")
    ensures Asks(table, key, g, casts) == Asks(table, key, JArray([g]), casts)
  {
    OneKey(table, key, g, casts);
    OneKey(table, key, JArray([g]), casts);
    SameGroup(table, g, if key == "AND" then Plain else Negated, casts);
    assert Get(JObject([Field(key, g)]), key) == Some(g) && Get(JObject([Field(key, JArray([g]))]), key) == Some(JArray([g]));
  }

  lemma SameGroup(table: Table, g: Json, wrap: Wrap, casts: Casts)
    requires g.JObject?
    ensures IsGroupList(g) && IsGroupList(JArray([g])) && Items(g) == Items(JArray([g])) == [g]
    ensures GroupParts(table, g, 1, wrap, casts) == GroupParts(table, JArray([g]), 1, wrap, casts)
  {
    assert GroupParts(table, g, 0, wrap, casts) == GroupParts(table, JArray([g]), 0, wrap, casts);
  }
}
