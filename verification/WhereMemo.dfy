/** `compileWhere` with its cache of clauses by predicate shape (orm.ts). */
module WhereMemo {
  import opened Bytes
  import opened SqlExpr
  import opened WhereFrag
  import opened WhereTree
  import opened WhereRender
  import opened TsWhere
  import opened ShapeReads
  import opened ShapeKeys
  import Decimal

  // ---- what the types promise, and which columns a tree names ----

  /** `in` takes an array of values, every other operator a value. */
  predicate TypedOp(o: OpEntry) {
    SqlOp(o.key).Some? && o.value.Some? ==>
      if SqlOp(o.key).value == InList then
        o.value.value.JArray? && forall k :: 0 <= k < |o.value.value.items| ==> Scalar(o.value.value.items[k])
      else Scalar(o.value.value)
  }

  predicate TypedCond(c: CondEntry) {
    && !Logical(c.col)
    && match c.cond
       case Absent => true
       case Bare(v) => Scalar(v)
       case Ops(ops) => forall k :: 0 <= k < |ops| ==> TypedOp(ops[k])
  }

  predicate Typed(w: Where) {
    && (forall k :: 0 <= k < |w.conds| ==> TypedCond(w.conds[k]))
    && (forall i, j :: 0 <= i < j < |w.conds| ==> w.conds[i].col != w.conds[j].col)
    && TypedGroups(w.ands) && TypedGroups(w.ors) && TypedGroups(w.nots)
  }

  predicate TypedGroups(gs: Groups) {
    gs.Groups? ==> forall k :: 0 <= k < |gs.list| ==> Typed(gs.list[k])
  }

  predicate KnownCols(w: Where, cols: seq<string>)
    decreases w
  {
    && (forall k :: 0 <= k < |w.conds| ==> w.conds[k].col in cols)
    && KnownGroups(w.ands, cols) && KnownGroups(w.ors, cols) && KnownGroups(w.nots, cols)
  }

  predicate KnownGroups(gs: Groups, cols: seq<string>)
    decreases gs
  {
    gs.Groups? ==> forall k :: 0 <= k < |gs.list| ==> KnownCols(gs.list[k], cols)
  }

  lemma {:induction false} ShapesAt(ws: seq<Where>, k: nat)
    requires k < |ws|
    ensures ShapesOf(ws)[k] == ShapeOf(ws[k])
  {
    if k > 0 {
      ShapesAt(ws[1..], k - 1);
    }
  }

  lemma {:induction false} CondShapeCols(conds: seq<CondEntry>, cols: seq<string>)
    requires forall k :: 0 <= k < |conds| ==> conds[k].col in cols
    requires forall i, j :: 0 <= i < j < |conds| ==> conds[i].col != conds[j].col
    ensures forall k :: 0 <= k < |CondShapes(conds)| ==>
              CondShapes(conds)[k].col in cols && exists j :: 0 <= j < |conds| && conds[j].col == CondShapes(conds)[k].col
    ensures forall i, j :: 0 <= i < j < |CondShapes(conds)| ==> CondShapes(conds)[i].col != CondShapes(conds)[j].col
  {
    if conds != [] {
      var rest := CondShapes(conds[1..]);
      CondShapeCols(conds[1..], cols);
      forall k | 0 <= k < |rest| ensures rest[k].col != conds[0].col && exists j :: 0 <= j < |conds| && conds[j].col == rest[k].col {
        var j :| 0 <= j < |conds[1..]| && conds[1..][j].col == rest[k].col;
        assert conds[j + 1].col == rest[k].col;
      }
    }
  }

  lemma {:induction false} ShapeIsGood(w: Where, cols: seq<string>)
    requires Typed(w) && KnownCols(w, cols)
    ensures GoodShape(ShapeOf(w), cols)
    decreases w
  {
    CondShapeCols(w.conds, cols);
    GroupsAreGood(w.ands, cols);
    GroupsAreGood(w.ors, cols);
    GroupsAreGood(w.nots, cols);
  }

  lemma {:induction false} GroupsAreGood(gs: Groups, cols: seq<string>)
    requires TypedGroups(gs) && KnownGroups(gs, cols)
    ensures GoodGroups(GroupShapes(gs), cols)
    decreases gs
  {
    if gs.Groups? {
      forall k | 0 <= k < |gs.list| ensures GoodShape(ShapesOf(gs.list)[k], cols) {
        ShapesAt(gs.list, k);
        ShapeIsGood(gs.list[k], cols);
      }
    }
  }

  // ---- parameters ----

  function ParamOf(v: Json): Value {
    match ToParam(v) case Ok(p) => p case Err(_) => NullValue
  }

  function ParamsOf(vs: seq<Json>): (ps: seq<Value>)
    ensures |ps| == |vs|
  {
    seq(|vs|, k requires 0 <= k < |vs| => ParamOf(vs[k]))
  }

  function OpParams(o: OpEntry): seq<Value> {
    match (SqlOp(o.key), o.value)
    case (None, _) => []
    case (_, None) => []
    case (Some(InList), Some(v)) => if v.JArray? then ParamsOf(v.items) else []
    case (Some(CmpWith(_)), Some(v)) => if v == JNull then [] else [ParamOf(v)]
  }

  function OpsParams(ops: seq<OpEntry>): seq<Value> { if ops == [] then [] else OpParams(ops[0]) + OpsParams(ops[1..]) }

  function CondParams(c: Cond): seq<Value> {
    match c
    case Absent => []
    case Bare(v) => if v == JNull then [] else [ParamOf(v)]
    case Ops(ops) => OpsParams(ops)
  }

  function CondsParams(conds: seq<CondEntry>): seq<Value> {
    if conds == [] then [] else CondParams(conds[0].cond) + CondsParams(conds[1..])
  }

  function ListParams(ws: seq<Where>): seq<Value> { if ws == [] then [] else Params(ws[0]) + ListParams(ws[1..]) }

  function GroupsParams(gs: Groups): seq<Value> { match gs case NoGroups => [] case Groups(list) => ListParams(list) }

  function Params(w: Where): seq<Value> {
    CondsParams(w.conds) + GroupsParams(w.ands) + GroupsParams(w.ors) + GroupsParams(w.nots)
  }

  // ---- appending one more entry ----

  lemma {:induction false} OpShapesSnoc(ops: seq<OpEntry>, o: OpEntry)
    ensures OpShapes(ops + [o]) == OpShapes(ops) + OpShapeOf(o)
  {
    if ops == [] {
      assert [] + [o] == [o] && OpShapes([o][1..]) == [];
    } else {
      assert (ops + [o])[1..] == ops[1..] + [o];
      OpShapesSnoc(ops[1..], o);
      Assoc(OpShapeOf(ops[0]), OpShapes(ops[1..]), OpShapeOf(o));
    }
  }

  lemma {:induction false} OpsParamsSnoc(ops: seq<OpEntry>, o: OpEntry)
    ensures OpsParams(ops + [o]) == OpsParams(ops) + OpParams(o)
  {
    if ops == [] {
      assert [] + [o] == [o] && OpsParams([o][1..]) == [];
    } else {
      assert (ops + [o])[1..] == ops[1..] + [o];
      OpsParamsSnoc(ops[1..], o);
      Assoc(OpParams(ops[0]), OpsParams(ops[1..]), OpParams(o));
    }
  }

  lemma {:induction false} CondShapesSnoc(conds: seq<CondEntry>, c: CondEntry)
    ensures CondShapes(conds + [c]) == CondShapes(conds) + CondShapeOf(c)
  {
    if conds == [] {
      assert [] + [c] == [c] && CondShapes([c][1..]) == [];
    } else {
      assert (conds + [c])[1..] == conds[1..] + [c];
      CondShapesSnoc(conds[1..], c);
      Assoc(CondShapeOf(conds[0]), CondShapes(conds[1..]), CondShapeOf(c));
    }
  }

  lemma {:induction false} CondsParamsSnoc(conds: seq<CondEntry>, c: CondEntry)
    ensures CondsParams(conds + [c]) == CondsParams(conds) + CondParams(c.cond)
  {
    if conds == [] {
      assert [] + [c] == [c] && CondsParams([c][1..]) == [];
    } else {
      assert (conds + [c])[1..] == conds[1..] + [c];
      CondsParamsSnoc(conds[1..], c);
      Assoc(CondParams(conds[0].cond), CondsParams(conds[1..]), CondParams(c.cond));
    }
  }

  lemma {:induction false} OpsKeyConcat(a: seq<OpShape>, b: seq<OpShape>)
    ensures OpsKey(a + b) == OpsKey(a) + OpsKey(b)
  {
    if a == [] {
      assert a + b == b;
    } else {
      assert (a + b)[1..] == a[1..] + b;
      OpsKeyConcat(a[1..], b);
      Assoc(OpKey(a[0]), OpsKey(a[1..]), OpsKey(b));
    }
  }

  lemma {:induction false} CondsKeyConcat(a: seq<CondShape>, b: seq<CondShape>)
    ensures CondsKey(a + b) == CondsKey(a) + CondsKey(b)
  {
    if a == [] {
      assert a + b == b;
    } else {
      assert (a + b)[1..] == a[1..] + b;
      CondsKeyConcat(a[1..], b);
      Assoc(CondKey(a[0]), CondsKey(a[1..]), CondsKey(b));
    }
  }

  lemma {:induction false} GroupsKeySnoc(gs: seq<Shape>, g: Shape, q: string)
    ensures GroupsKey(gs + [g], q) == GroupsKey(gs, q) + (ShapeKey(g, q) + ";")
  {
    if gs == [] {
      assert [] + [g] == [g];
      assert GroupsKey([g], q) == ShapeKey(g, q) + ";" + "";
    } else {
      assert (gs + [g])[1..] == gs[1..] + [g];
      GroupsKeySnoc(gs[1..], g, q);
      Assoc(ShapeKey(gs[0], q) + ";", GroupsKey(gs[1..], q), ShapeKey(g, q) + ";");
    }
  }

  lemma {:induction false} ShapesSnoc(ws: seq<Where>, w: Where)
    ensures ShapesOf(ws + [w]) == ShapesOf(ws) + [ShapeOf(w)]
  {
    if ws == [] {
      assert [] + [w] == [w];
    } else {
      assert (ws + [w])[1..] == ws[1..] + [w];
      ShapesSnoc(ws[1..], w);
    }
  }

  lemma {:induction false} ListParamsSnoc(ws: seq<Where>, w: Where)
    ensures ListParams(ws + [w]) == ListParams(ws) + Params(w)
  {
    if ws == [] {
      assert [] + [w] == [w] && ListParams([w][1..]) == [];
    } else {
      assert (ws + [w])[1..] == ws[1..] + [w];
      ListParamsSnoc(ws[1..], w);
      Assoc(Params(ws[0]), ListParams(ws[1..]), Params(w));
    }
  }

  // ---- whereShape ----

  method OpsShapeKey(ops: seq<OpEntry>) returns (key: string)
    requires forall k :: 0 <= k < |ops| ==> TypedOp(ops[k])
    ensures key == OpsKey(OpShapes(ops))
  {
    key := "";
    for k := 0 to |ops|
      invariant key == OpsKey(OpShapes(ops[..k]))
    {
      var o := ops[k];
      assert TypedOp(o);
      assert ops[..k + 1] == ops[..k] + [o];
      OpShapesSnoc(ops[..k], o);
      OpsKeyConcat(OpShapes(ops[..k]), OpShapeOf(o));
      OneOpKey(o);
      var op := SqlOp(o.key);
      if op.Some? && o.value.Some? {
        var v := o.value.value;
        match op.value
        case InList => key := key + ("in:" + Decimal.Text(|v.items|) + ",");
        case CmpWith(_) => key := key + if v == JNull then o.key + ":null," else o.key + ",";
      } else {
        assert key + "" == key;
      }
    }
    assert ops[..|ops|] == ops;
  }

  lemma OneOpKey(o: OpEntry)
    requires TypedOp(o)
    ensures OpsKey(OpShapeOf(o)) ==
            match (SqlOp(o.key), o.value)
            case (None, _) => ""
            case (_, None) => ""
            case (Some(InList), Some(v)) => "in:" + Decimal.Text(|v.items|) + ","
            case (Some(CmpWith(c)), Some(v)) => if v == JNull then o.key + ":null," else o.key + ","
  {
    var shapes := OpShapeOf(o);
    if shapes != [] {
      assert OpsKey(shapes) == OpKey(shapes[0]) + OpsKey(shapes[1..]);
    }
  }

  lemma OneCondKey(c: CondEntry)
    ensures CondsKey(CondShapeOf(c)) ==
            match c.cond
            case Absent => ""
            case Bare(v) => c.col + if v == JNull then "null" else "="
            case Ops(ops) => c.col + "{" + OpsKey(OpShapes(ops)) + "}"
  {
    var shapes := CondShapeOf(c);
    if shapes != [] {
      assert CondsKey(shapes) == CondKey(shapes[0]) + CondsKey(shapes[1..]);
    }
  }

  method CondsShapeKey(conds: seq<CondEntry>) returns (key: string)
    requires forall k :: 0 <= k < |conds| ==> TypedCond(conds[k])
    ensures key == CondsKey(CondShapes(conds))
  {
    key := "";
    for k := 0 to |conds|
      invariant key == CondsKey(CondShapes(conds[..k]))
    {
      var c := conds[k];
      assert conds[..k + 1] == conds[..k] + [c];
      CondShapesSnoc(conds[..k], c);
      CondsKeyConcat(CondShapes(conds[..k]), CondShapeOf(c));
      OneCondKey(c);
      match c.cond {
        case Absent => assert key + "" == key;
        case Bare(v) => key := key + (c.col + if v == JNull then "null" else "=");
        case Ops(ops) =>
          var inner := OpsShapeKey(ops);
          key := key + (c.col + "{" + inner + "}");
      }
    }
    assert conds[..|conds|] == conds;
  }

  method GroupsShapeKey(ws: seq<Where>, q: string) returns (key: string)
    requires forall k :: 0 <= k < |ws| ==> Typed(ws[k])
    ensures key == GroupsKey(ShapesOf(ws), q)
    decreases ws
  {
    key := "";
    for k := 0 to |ws|
      invariant key == GroupsKey(ShapesOf(ws[..k]), q)
    {
      assert ws[..k + 1] == ws[..k] + [ws[k]];
      ShapesSnoc(ws[..k], ws[k]);
      GroupsKeySnoc(ShapesOf(ws[..k]), ShapeOf(ws[k]), q);
      var inner := WhereShape(ws[k], q);
      key := key + (inner + ";");
    }
    assert ws[..|ws|] == ws;
  }

  method WhereShape(w: Where, q: string) returns (key: string)
    requires Typed(w)
    ensures key == ShapeKey(ShapeOf(w), q)
    decreases w
  {
    var conds := CondsShapeKey(w.conds);
    var ands, ors, nots := "", "", "";
    if w.ands.Groups? {
      var inner := GroupsShapeKey(w.ands.list, q);
      ands := "AND[" + inner + "]";
      assert "AND[" == "AND" + "[";
    }
    if w.ors.Groups? {
      var inner := GroupsShapeKey(w.ors.list, q);
      ors := "OR" + Decimal.Text(|w.ors.list|) + "[" + inner + "]";
    }
    if w.nots.Groups? {
      var inner := GroupsShapeKey(w.nots.list, q);
      nots := "NOT[" + inner + "]";
      assert "NOT[" == "NOT" + "[";
    }
    return q + (conds + (ands + (ors + nots)));
  }

  // ---- collectWhereParams ----

  method CollectConds(conds: seq<CondEntry>) returns (params: seq<Value>)
    requires forall k :: 0 <= k < |conds| ==> TypedCond(conds[k])
    ensures params == CondsParams(conds)
  {
    params := [];
    for k := 0 to |conds|
      invariant params == CondsParams(conds[..k])
    {
      var c := conds[k];
      assert conds[..k + 1] == conds[..k] + [c];
      CondsParamsSnoc(conds[..k], c);
      match c.cond {
        case Absent =>
        case Bare(v) =>
          if v != JNull {
            params := params + [ParamOf(v)];
          }
        case Ops(ops) =>
          var inner := CollectOps(ops);
          params := params + inner;
      }
    }
    assert conds[..|conds|] == conds;
  }

  method CollectOps(ops: seq<OpEntry>) returns (params: seq<Value>)
    requires forall k :: 0 <= k < |ops| ==> TypedOp(ops[k])
    ensures params == OpsParams(ops)
  {
    params := [];
    for k := 0 to |ops|
      invariant params == OpsParams(ops[..k])
    {
      var o := ops[k];
      assert TypedOp(o);
      assert ops[..k + 1] == ops[..k] + [o];
      OpsParamsSnoc(ops[..k], o);
      var op := SqlOp(o.key);
      if op.Some? && o.value.Some? {
        var v := o.value.value;
        match op.value
        case InList => params := params + ParamsOf(v.items);
        case CmpWith(_) =>
          if v != JNull {
            params := params + [ParamOf(v)];
          }
      }
    }
    assert ops[..|ops|] == ops;
  }

  method CollectGroups(gs: Groups) returns (params: seq<Value>)
    requires TypedGroups(gs)
    ensures params == GroupsParams(gs)
    decreases gs
  {
    params := [];
    if gs.Groups? {
      for k := 0 to |gs.list|
        invariant params == ListParams(gs.list[..k])
      {
        assert gs.list[..k + 1] == gs.list[..k] + [gs.list[k]];
        ListParamsSnoc(gs.list[..k], gs.list[k]);
        var inner := CollectWhereParams(gs.list[k]);
        params := params + inner;
      }
      assert gs.list[..|gs.list|] == gs.list;
    }
  }

  method CollectWhereParams(w: Where) returns (params: seq<Value>)
    requires Typed(w)
    ensures params == Params(w)
    decreases w
  {
    var conds := CollectConds(w.conds);
    var ands := CollectGroups(w.ands);
    var ors := CollectGroups(w.ors);
    var nots := CollectGroups(w.nots);
    return conds + ands + ors + nots;
  }
}
