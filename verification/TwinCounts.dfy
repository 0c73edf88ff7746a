/** How many values the TypeScript collector gathers for the placeholders its text holds (orm.ts). */
module TwinCounts {
  import opened Bytes
  import opened SqlExpr
  import opened WhereFrag
  import opened WhereTree
  import opened TsWhere
  import opened WhereMemo
  import opened TsTable

  /** Nulls under an operator other than eq and ne: a placeholder is printed, no value is collected. */
  function LooseOp(o: OpEntry): nat {
    match SqlOp(o.key)
    case Some(CmpWith(c)) => if o.value == Some(JNull) && c != Eq && c != Ne then 1 else 0
    case _ => 0
  }

  function LooseOps(ops: seq<OpEntry>): nat { if ops == [] then 0 else LooseOp(ops[0]) + LooseOps(ops[1..]) }

  function LooseConds(conds: seq<CondEntry>): nat {
    if conds == [] then 0 else (if conds[0].cond.Ops? then LooseOps(conds[0].cond.ops) else 0) + LooseConds(conds[1..])
  }

  function LooseList(ws: seq<Where>): nat { if ws == [] then 0 else Loose(ws[0]) + LooseList(ws[1..]) }

  function LooseGroups(gs: Groups): nat { match gs case NoGroups => 0 case Groups(list) => LooseList(list) }

  function Loose(w: Where): nat {
    LooseConds(w.conds) + LooseGroups(w.ands) + LooseGroups(w.ors) + LooseGroups(w.nots)
  }

  lemma {:induction false} CountConcat(a: seq<Part>, b: seq<Part>)
    ensures PartsCount(a + b) == PartsCount(a) + PartsCount(b)
  {
    if a == [] {
      assert a + b == b;
    } else {
      assert (a + b)[1..] == a[1..] + b;
      CountConcat(a[1..], b);
    }
  }

  lemma OpCounts(col: string, o: OpEntry)
    requires TypedOp(o)
    ensures PartsCount(OpsShapeParts(col, OpShapeOf(o))) == |OpParams(o)| + LooseOp(o)
  {
    var shapes := OpShapeOf(o);
    if shapes != [] {
      assert OpsShapeParts(col, shapes) == [OpPart(col, shapes[0])];
      assert PartsCount([OpPart(col, shapes[0])]) == PartCount(OpPart(col, shapes[0])) + PartsCount([]);
    }
  }

  lemma {:induction false} OpsCount(col: string, ops: seq<OpEntry>)
    requires forall k :: 0 <= k < |ops| ==> TypedOp(ops[k])
    ensures PartsCount(OpsShapeParts(col, OpShapes(ops))) == |OpsParams(ops)| + LooseOps(ops)
  {
    if ops != [] {
      OpCounts(col, ops[0]);
      OpsCount(col, ops[1..]);
      OpPartsSnoc(col, OpShapeOf(ops[0]), OpShapes(ops[1..]));
      CountConcat(OpsShapeParts(col, OpShapeOf(ops[0])), OpsShapeParts(col, OpShapes(ops[1..])));
    }
  }

  lemma {:induction false} CondsConcat(a: seq<CondShape>, b: seq<CondShape>)
    ensures PartsCount(CondsShapeParts(a + b)) == PartsCount(CondsShapeParts(a)) + PartsCount(CondsShapeParts(b))
  {
    if a == [] {
      assert a + b == b;
    } else {
      assert (a + b)[1..] == a[1..] + b;
      CondsConcat(a[1..], b);
      CountConcat(CondShapeParts(a[0]), CondsShapeParts(a[1..] + b));
      CountConcat(CondShapeParts(a[0]), CondsShapeParts(a[1..]));
    }
  }

  lemma {:induction false} CondsCount(conds: seq<CondEntry>)
    requires forall k :: 0 <= k < |conds| ==> TypedCond(conds[k])
    ensures PartsCount(CondsShapeParts(CondShapes(conds))) == |CondsParams(conds)| + LooseConds(conds)
  {
    if conds != [] {
      CondsCount(conds[1..]);
      CondsConcat(CondShapeOf(conds[0]), CondShapes(conds[1..]));
      CondCounts(conds[0]);
    }
  }

  lemma CondCounts(c: CondEntry)
    requires TypedCond(c)
    ensures PartsCount(CondsShapeParts(CondShapeOf(c))) == |CondParams(c.cond)| + if c.cond.Ops? then LooseOps(c.cond.ops) else 0
  {
    var shapes := CondShapeOf(c);
    if shapes != [] {
      assert CondsShapeParts(shapes) == CondShapeParts(shapes[0]) + CondsShapeParts([]);
      CountConcat(CondShapeParts(shapes[0]), []);
    }
    match c.cond
    case Absent =>
    case Bare(v) =>
      var p := CondShapeParts(shapes[0])[0];
      assert PartsCount([p]) == PartCount(p) + PartsCount([]);
    case Ops(ops) => OpsCount(c.col, ops);
  }

  lemma {:induction false} GroupsCount(ws: seq<Where>, wrap: Wrap)
    requires forall k :: 0 <= k < |ws| ==> Typed(ws[k])
    ensures PartsCount(GroupsShapeParts(ShapesOf(ws), wrap)) == |WhereMemo.ListParams(ws)| + LooseList(ws)
    decreases ws
  {
    if ws != [] {
      MarksCounted(ws[0]);
      GroupsCount(ws[1..], wrap);
      var g := ShapeParts(ShapeOf(ws[0]));
      var rest := GroupsShapeParts(ShapesOf(ws[1..]), wrap);
      assert ShapesOf(ws)[1..] == ShapesOf(ws[1..]);
      CountConcat(if g == [] then [] else [Wrapped(wrap, g)], rest);
      if g != [] {
        assert PartsCount([Wrapped(wrap, g)]) == PartCount(Wrapped(wrap, g)) + PartsCount([]);
      }
    }
  }

  lemma AndNotCount(gs: Groups, wrap: Wrap)
    requires TypedGroups(gs)
    ensures PartsCount(AndNotShapeParts(GroupShapes(gs), wrap)) == |GroupsParams(gs)| + LooseGroups(gs)
    decreases gs
  {
    if gs.Groups? {
      GroupsCount(gs.list, wrap);
    }
  }

  lemma OrCounts(gs: Groups)
    requires TypedGroups(gs)
    ensures PartsCount(OrShapeParts(GroupShapes(gs))) == |GroupsParams(gs)| + LooseGroups(gs)
    decreases gs
  {
    if gs.Groups? {
      GroupsCount(gs.list, Plain);
      var subs := GroupsShapeParts(ShapesOf(gs.list), Plain);
      assert PartsCount([AnyOf(subs)]) == PartCount(AnyOf(subs)) + PartsCount([]);
      assert PartsCount([One(Never)]) == PartCount(One(Never)) + PartsCount([]);
    }
  }

  /** One value per placeholder but for the loose nulls, so the counts agree if and only if there is none. */
  lemma {:induction false} MarksCounted(w: Where)
    requires Typed(w)
    ensures PartsCount(ShapeParts(ShapeOf(w))) == |Params(w)| + Loose(w)
    decreases w
  {
    var s := ShapeOf(w);
    CondsCount(w.conds);
    AndNotCount(w.ands, Plain);
    OrCounts(w.ors);
    AndNotCount(w.nots, Negated);
    var a, b, c, d := CondsShapeParts(s.conds), AndNotShapeParts(s.ands, Plain), OrShapeParts(s.ors), AndNotShapeParts(s.nots, Negated);
    CountConcat(a, b);
    CountConcat(a + b, c);
    CountConcat(a + b + c, d);
  }
}
