/** `PowderTable.compileWhere`: rendering on a miss, a bounded cache, and when a hit can be trusted (orm.ts). */
module TsTable {
  import opened Bytes
  import opened SqlExpr
  import opened WhereFrag
  import opened WhereTree
  import opened WhereRender
  import opened TsWhere
  import opened ShapeReads
  import opened ShapeKeys
  import opened WhereMemo

  // ---- renderGroup; `None` is the error for an unknown column ----

  lemma {:induction false} CondPartsSnoc(conds: seq<CondShape>, more: seq<CondShape>)
    requires |more| <= 1
    ensures CondsShapeParts(conds + more) == CondsShapeParts(conds) + if more == [] then [] else CondShapeParts(more[0])
  {
    if more == [] {
      assert conds + more == conds;
    } else if conds == [] {
      assert [] + more == more && more[1..] == [];
      assert CondsShapeParts(more) == CondShapeParts(more[0]) + CondsShapeParts([]);
    } else {
      assert (conds + more)[1..] == conds[1..] + more;
      CondPartsSnoc(conds[1..], more);
      Assoc(CondShapeParts(conds[0]), CondsShapeParts(conds[1..]), CondShapeParts(more[0]));
    }
  }

  lemma {:induction false} OpPartsSnoc(col: string, ops: seq<OpShape>, more: seq<OpShape>)
    ensures OpsShapeParts(col, ops + more) == OpsShapeParts(col, ops) + OpsShapeParts(col, more)
  {
    if ops == [] {
      assert ops + more == more;
    } else {
      assert (ops + more)[1..] == ops[1..] + more;
      OpPartsSnoc(col, ops[1..], more);
    }
  }

  function GroupPart(g: Shape, wrap: Wrap): seq<Part> {
    if ShapeParts(g) == [] then [] else [Wrapped(wrap, ShapeParts(g))]
  }

  lemma {:induction false} GroupPartsSnoc(gs: seq<Shape>, g: Shape, wrap: Wrap)
    ensures GroupsShapeParts(gs + [g], wrap) == GroupsShapeParts(gs, wrap) + GroupPart(g, wrap)
  {
    if gs == [] {
      assert [] + [g] == [g] && GroupsShapeParts([g][1..], wrap) == [];
    } else {
      assert (gs + [g])[1..] == gs[1..] + [g];
      GroupPartsSnoc(gs[1..], g, wrap);
      Assoc(GroupPart(gs[0], wrap), GroupsShapeParts(gs[1..], wrap), GroupPart(g, wrap));
    }
  }

  method RenderOps(col: string, ops: seq<OpEntry>, q: string) returns (parts: seq<string>)
    requires forall k :: 0 <= k < |ops| ==> TypedOp(ops[k])
    ensures parts == Texts(OpsShapeParts(col, OpShapes(ops)), q)
  {
    parts := [];
    for k := 0 to |ops|
      invariant parts == Texts(OpsShapeParts(col, OpShapes(ops[..k])), q)
    {
      var o := ops[k];
      assert TypedOp(o);
      assert ops[..k + 1] == ops[..k] + [o];
      OpShapesSnoc(ops[..k], o);
      OpPartsSnoc(col, OpShapes(ops[..k]), OpShapeOf(o));
      TextsConcat(OpsShapeParts(col, OpShapes(ops[..k])), OpsShapeParts(col, OpShapeOf(o)), q);
      var text := RenderOne(col, o, q);
      parts := parts + text;
    }
    assert ops[..|ops|] == ops;
  }

  method RenderOne(col: string, o: OpEntry, q: string) returns (parts: seq<string>)
    requires TypedOp(o)
    ensures parts == Texts(OpsShapeParts(col, OpShapeOf(o)), q)
  {
    var op := SqlOp(o.key);
    if op.None? || o.value.None? {
      return [];
    }
    var v, ident := o.value.value, q + col;
    assert OpsShapeParts(col, OpShapeOf(o)) == [OpPart(col, OpShapeOf(o)[0])];
    PartTexts(OpPart(col, OpShapeOf(o)[0]), q);
    match op.value
    case InList =>
      return [if |v.items| == 0 then "1 = 0" else ident + " IN (" + Marks(|v.items|) + ")"];
    case CmpWith(c) =>
      return [if c == Ne && v == JNull then ident + " IS NOT NULL"
              else if c == Eq && v == JNull then ident + " IS NULL"
              else ident + " " + OpText(c) + " ?"];
  }

  /** The texts of the first `k` conditions. */
  function CondTexts(conds: seq<CondEntry>, k: nat, q: string): seq<string>
    requires k <= |conds|
  {
    Texts(CondsShapeParts(CondShapes(conds[..k])), q)
  }

  /** The texts of the first `k` groups. */
  function GroupTexts(ws: seq<Where>, k: nat, wrap: Wrap, q: string): seq<string>
    requires k <= |ws|
  {
    Texts(GroupsShapeParts(ShapesOf(ws[..k]), wrap), q)
  }

  method RenderConds(conds: seq<CondEntry>, q: string, cols: seq<string>) returns (r: Option<seq<string>>)
    requires forall k :: 0 <= k < |conds| ==> TypedCond(conds[k])
    ensures r.Some? == forall k :: 0 <= k < |conds| ==> conds[k].col in cols
    ensures r.Some? ==> r.value == Texts(CondsShapeParts(CondShapes(conds)), q)
  {
    var parts := [];
    assert CondTexts(conds, 0, q) == [];
    for k := 0 to |conds|
      invariant forall j :: 0 <= j < k ==> conds[j].col in cols
      invariant parts == CondTexts(conds, k, q)
    {
      var c := conds[k];
      if c.col !in cols {
        return None;
      }
      parts := AppendCond(conds, k, q, parts);
    }
    assert CondTexts(conds, |conds|, q) == Texts(CondsShapeParts(CondShapes(conds)), q) by {
      assert conds[..|conds|] == conds;
    }
    return Some(parts);
  }

  method AppendCond(conds: seq<CondEntry>, k: nat, q: string, parts: seq<string>) returns (parts': seq<string>)
    requires k < |conds| && TypedCond(conds[k]) && parts == CondTexts(conds, k, q)
    ensures parts' == CondTexts(conds, k + 1, q)
  {
    NextCond(conds, k, q);
    var more := RenderCond(conds[k], q);
    parts' := parts + more;
  }

  lemma NextCond(conds: seq<CondEntry>, k: nat, q: string)
    requires k < |conds|
    ensures CondTexts(conds, k + 1, q) == CondTexts(conds, k, q) + Texts(CondPart(conds[k]), q)
  {
    assert conds[..k + 1] == conds[..k] + [conds[k]];
    CondShapesSnoc(conds[..k], conds[k]);
    CondPartsSnoc(CondShapes(conds[..k]), CondShapeOf(conds[k]));
    TextsConcat(CondsShapeParts(CondShapes(conds[..k])), CondPart(conds[k]), q);
  }

  function CondPart(c: CondEntry): seq<Part> {
    if CondShapeOf(c) == [] then [] else CondShapeParts(CondShapeOf(c)[0])
  }

  method RenderCond(c: CondEntry, q: string) returns (parts: seq<string>)
    requires TypedCond(c)
    ensures parts == Texts(CondPart(c), q)
  {
    EqText(q + c.col);
    PartTexts(One(NullTest(c.col, false)), q);
    PartTexts(One(Comparing(c.col, Eq)), q);
    match c.cond
    case Absent => parts := [];
    case Bare(v) => parts := [if v == JNull then q + c.col + " IS NULL" else q + c.col + " = ?"];
    case Ops(ops) => parts := RenderOps(c.col, ops, q);
  }

  method RenderGroups(ws: seq<Where>, wrap: Wrap, q: string, cols: seq<string>) returns (r: Option<seq<string>>)
    requires forall k :: 0 <= k < |ws| ==> Typed(ws[k])
    ensures r.Some? == forall k :: 0 <= k < |ws| ==> KnownCols(ws[k], cols)
    ensures r.Some? ==> r.value == Texts(GroupsShapeParts(ShapesOf(ws), wrap), q)
    decreases ws
  {
    var parts := [];
    for k := 0 to |ws|
      invariant forall j :: 0 <= j < k ==> KnownCols(ws[j], cols)
      invariant parts == GroupTexts(ws, k, wrap, q)
    {
      var s := RenderWhere(ws[k], q, cols);
      if s.None? {
        return None;
      }
      parts := AppendGroup(ws, k, wrap, q, parts, s.value);
    }
    assert ws[..|ws|] == ws;
    return Some(parts);
  }

  method AppendGroup(ws: seq<Where>, k: nat, wrap: Wrap, q: string, parts: seq<string>, s: string) returns (parts': seq<string>)
    requires k < |ws| && parts == GroupTexts(ws, k, wrap, q)
    requires s == FragText(ShapeParts(ShapeOf(ws[k])), q)
    ensures parts' == GroupTexts(ws, k + 1, wrap, q)
  {
    NextGroup(ws, k, wrap, q);
    parts' := parts;
    if s != "" {
      parts' := parts + [if wrap == Plain then "(" + s + ")" else "NOT (" + s + ")"];
    }
  }

  lemma NextGroup(ws: seq<Where>, k: nat, wrap: Wrap, q: string)
    requires k < |ws|
    ensures GroupTexts(ws, k + 1, wrap, q) == GroupTexts(ws, k, wrap, q) + WrappedText(FragText(ShapeParts(ShapeOf(ws[k])), q), wrap)
  {
    var g := ShapeOf(ws[k]);
    assert ws[..k + 1] == ws[..k] + [ws[k]];
    ShapesSnoc(ws[..k], ws[k]);
    GroupPartsSnoc(ShapesOf(ws[..k]), g, wrap);
    TextsConcat(GroupsShapeParts(ShapesOf(ws[..k]), wrap), GroupPart(g, wrap), q);
    FragTextEmpty(ShapeParts(g), q);
    PartTexts(Wrapped(wrap, ShapeParts(g)), q);
  }

  /** A non-empty group in parentheses. */
  function WrappedText(s: string, wrap: Wrap): seq<string> {
    if s == "" then [] else [if wrap == Plain then "(" + s + ")" else "NOT (" + s + ")"]
  }

  method RenderAndNot(gs: Groups, wrap: Wrap, q: string, cols: seq<string>) returns (r: Option<seq<string>>)
    requires TypedGroups(gs)
    ensures r.Some? == KnownGroups(gs, cols)
    ensures r.Some? ==> r.value == Texts(AndNotShapeParts(GroupShapes(gs), wrap), q)
    decreases gs
  {
    if gs.NoGroups? {
      return Some([]);
    }
    r := RenderGroups(gs.list, wrap, q, cols);
  }

  method RenderOr(gs: Groups, q: string, cols: seq<string>) returns (r: Option<seq<string>>)
    requires TypedGroups(gs)
    ensures r.Some? == KnownGroups(gs, cols)
    ensures r.Some? ==> r.value == Texts(OrShapeParts(GroupShapes(gs)), q)
    decreases gs
  {
    if gs.NoGroups? {
      return Some([]);
    }
    if gs.list == [] {
      PartTexts(One(Never), q);
      return Some(["1 = 0"]);
    }
    r := RenderGroups(gs.list, Plain, q, cols);
    if r.Some? && r.value != [] {
      ghost var subs := GroupsShapeParts(ShapesOf(gs.list), Plain);
      JoinTexts(subs, " OR ", q);
      PartTexts(AnyOf(subs), q);
      return Some(["(" + Join(r.value, " OR ") + ")"]);
    }
  }

  method RenderWhere(w: Where, q: string, cols: seq<string>) returns (r: Option<string>)
    requires Typed(w)
    ensures r.Some? == KnownCols(w, cols)
    ensures r.Some? ==> r.value == FragText(ShapeParts(ShapeOf(w)), q)
    decreases w
  {
    var conds := RenderConds(w.conds, q, cols);
    if conds.None? {
      return None;
    }
    var ands := RenderAndNot(w.ands, Plain, q, cols);
    if ands.None? {
      return None;
    }
    var ors := RenderOr(w.ors, q, cols);
    if ors.None? {
      return None;
    }
    var nots := RenderAndNot(w.nots, Negated, q, cols);
    if nots.None? {
      return None;
    }
    FourTexts(ShapeOf(w), q);
    JoinTexts(ShapeParts(ShapeOf(w)), " AND ", q);
    return Some(Join(conds.value + ands.value + ors.value + nots.value, " AND "));
  }

  lemma FourTexts(s: Shape, q: string)
    ensures Texts(ShapeParts(s), q) == Texts(CondsShapeParts(s.conds), q) + Texts(AndNotShapeParts(s.ands, Plain), q)
                                       + Texts(OrShapeParts(s.ors), q) + Texts(AndNotShapeParts(s.nots, Negated), q)
  {
    var a, b, c, d := CondsShapeParts(s.conds), AndNotShapeParts(s.ands, Plain), OrShapeParts(s.ors), AndNotShapeParts(s.nots, Negated);
    TextsConcat(a, b, q);
    TextsConcat(a + b, c, q);
    TextsConcat(a + b + c, d, q);
  }

  method BuildWhereClause(w: Where, q: string, cols: seq<string>) returns (r: Option<string>)
    requires Typed(w)
    ensures r == if KnownCols(w, cols) then Some(ClauseText(ShapeOf(w), q)) else None
  {
    var frag := RenderWhere(w, q, cols);
    if frag.None? {
      return None;
    }
    return Some(if frag.value == "" then "" else " WHERE " + frag.value);
  }

  // ---- the table ----

  const WHERE_CACHE_MAX := 256

  /** A cached clause belongs to some shape that was rendered under that key. */
  ghost predicate CachedRight(cols: seq<string>, key: string, clause: string) {
    exists s: Shape, q: string ::
      GoodShape(s, cols) && GoodQualifier(q) && key == ShapeKey(s, q) && clause == ClauseText(s, q)
  }

  class PowderTable {
    const cols: seq<string>
    var whereCache: map<string, string>

    ghost predicate Valid()
      reads this
    {
      |whereCache| <= WHERE_CACHE_MAX && forall k :: k in whereCache ==> CachedRight(cols, k, whereCache[k])
    }

    constructor (cols: seq<string>)
      ensures Valid() && this.cols == cols && whereCache == map[]
    {
      this.cols := cols;
      whereCache := map[];
    }

    method Remember(key: string, clause: string)
      requires Valid() && CachedRight(cols, key, clause)
      modifies this
      ensures Valid()
      ensures whereCache == (if |old(whereCache)| >= WHERE_CACHE_MAX then map[] else old(whereCache))[key := clause]
    {
      if |whereCache| >= WHERE_CACHE_MAX {
        whereCache := map[];
      }
      whereCache := whereCache[key := clause];
    }

    /** On every call, whatever was compiled before: if the table's runs are unique, the clause is the uncached one. An
        unknown column is an error on a miss. */
    method CompileWhere(w: Option<Where>, qualify: Option<string>) returns (r: Option<Clause>)
      requires Valid() && (w.Some? ==> Typed(w.value)) && (qualify.Some? ==> IsIdent(qualify.value))
      modifies this
      ensures Valid()
      ensures w.None? ==> r == Some(Clause("", [])) && whereCache == old(whereCache)
      ensures w.Some? && KnownCols(w.value, cols) ==> r.Some? && r.value.params == Params(w.value)
      ensures w.Some? && KnownCols(w.value, cols) && GoodColumns(cols) && RunsUnique(cols) ==>
                r.value.text == ClauseText(ShapeOf(w.value), QualifierOf(qualify))
      ensures w.Some? && !KnownCols(w.value, cols) && r.None? ==> whereCache == old(whereCache)
      ensures |whereCache| <= 256
      ensures r.Some? && w.Some? ==>
                var key := ShapeKey(ShapeOf(w.value), QualifierOf(qualify));
                if key in old(whereCache) then whereCache == old(whereCache) && r.value.text == whereCache[key]
                else whereCache == (if |old(whereCache)| >= 256 then map[] else old(whereCache))[key := r.value.text]
    {
      if w.None? {
        return Some(Clause("", []));
      }
      var q := QualifierOf(qualify);
      QualifierIsGood(qualify);
      var key := WhereMemo.WhereShape(w.value, q);
      var clause;
      if key in whereCache {
        clause := whereCache[key];
        if KnownCols(w.value, cols) && GoodColumns(cols) {
          ShapeIsGood(w.value, cols);
          HitIsRight(cols, key, clause, ShapeOf(w.value), q);
        }
      } else {
        var built := BuildWhereClause(w.value, q, cols);
        if built.None? {
          return None;
        }
        clause := built.value;
        ShapeIsGood(w.value, cols);
        assert CachedRight(cols, key, clause);
        Remember(key, clause);
      }
      var params := CollectWhereParams(w.value);
      return Some(Clause(clause, params));
    }
  }

  lemma QualifierIsGood(qualify: Option<string>)
    requires qualify.Some? ==> IsIdent(qualify.value)
    ensures GoodQualifier(QualifierOf(qualify))
  {
    if qualify.Some? {
      var q := qualify.value + ".";
      assert q[..|q| - 1] == qualify.value;
    }
  }

  lemma HitIsRight(cols: seq<string>, key: string, clause: string, s: Shape, q: string)
    requires CachedRight(cols, key, clause) && GoodColumns(cols)
    requires GoodShape(s, cols) && GoodQualifier(q) && key == ShapeKey(s, q)
    ensures RunsUnique(cols) ==> clause == ClauseText(s, q)
  {
    if RunsUnique(cols) {
      var t: Shape, p: string :| GoodShape(t, cols) && GoodQualifier(p) && key == ShapeKey(t, p) && clause == ClauseText(t, p);
      KeyInjective(s, q, t, p, cols);
    }
  }

  // ---- exactly when ----

  function NullShapes(nulls: seq<string>): (cs: seq<CondShape>)
    ensures |cs| == |nulls| && forall k :: 0 <= k < |nulls| ==> cs[k] == NullShape(nulls[k])
  {
    seq(|nulls|, k requires 0 <= k < |nulls| => NullShape(nulls[k]))
  }

  /** A predicate that writes just this run. */
  function RunShape(r: Run): Shape {
    Shape(NullShapes(r.nulls) + (match r.last case None => [] case Some(c) => [EqShape(c)]), NoShapes, NoShapes, NoShapes)
  }

  lemma RunShapeIsGood(r: Run, cols: seq<string>)
    requires IsRun(r, cols)
    ensures GoodShape(RunShape(r), cols)
  {
    var conds := RunShape(r).conds;
    assert |conds| == |RunCols(r)| && forall k :: 0 <= k < |conds| ==> conds[k].col == RunCols(r)[k];
  }

  lemma {:induction false} NullShapesKey(nulls: seq<string>)
    ensures CondsKey(NullShapes(nulls)) == NullsText(nulls)
  {
    if nulls != [] {
      assert NullShapes(nulls)[1..] == NullShapes(nulls[1..]);
      NullShapesKey(nulls[1..]);
    }
  }

  lemma RunShapeKey(r: Run, q: string)
    ensures ShapeKey(RunShape(r), q) == q + (RunText(r) + if r.last.Some? then "=" else "")
  {
    NullShapesKey(r.nulls);
    var tail := RunShape(r).conds[|r.nulls|..];
    CondsKeyConcat(NullShapes(r.nulls), tail);
    assert RunShape(r).conds == NullShapes(r.nulls) + tail;
    if r.last.Some? {
      assert tail == [EqShape(r.last.value)];
      assert CondsKey(tail) == r.last.value + "=" + "";
      Assoc(NullsText(r.nulls), r.last.value, "=");
    } else {
      assert tail == [];
    }
    assert CondsKey(RunShape(r).conds) + "" == CondsKey(RunShape(r).conds);
    assert RunText(r) + "" == RunText(r);
  }

  // A clause of such a predicate names its columns, one every fourth token.

  lemma {:induction false} RunParts(nulls: seq<string>, last: Option<string>)
    ensures var ps := CondsShapeParts(NullShapes(nulls) + (match last case None => [] case Some(c) => [EqShape(c)]));
            && |ps| == |nulls| + (if last.Some? then 1 else 0)
            && (forall k :: 0 <= k < |nulls| ==> ps[k] == One(NullTest(nulls[k], false)))
            && (last.Some? ==> ps[|nulls|] == One(Comparing(last.value, Eq)))
  {
    var tail := match last case None => [] case Some(c) => [EqShape(c)];
    if nulls == [] {
      assert NullShapes(nulls) + tail == tail;
    } else {
      RunParts(nulls[1..], last);
      assert (NullShapes(nulls) + tail)[1..] == NullShapes(nulls[1..]) + tail;
    }
  }

  /** Parts that print as three tokens, the first of them the column. */
  predicate Simple(p: Part) { p.One? && (p.pred.Comparing? || (p.pred.NullTest? && !p.pred.negated)) }

  function ColName(p: Part): string { if Simple(p) then p.pred.col else "" }

  lemma {:induction false} ColumnTokens(ps: seq<Part>, q: string, k: nat)
    requires k < |ps| && forall j :: 0 <= j < |ps| ==> Simple(ps[j])
    ensures |PartsTokens(ps, "AND", q)| == 4 * |ps| - 1
    ensures PartsTokens(ps, "AND", q)[4 * k] == Word(q + ColName(ps[k]))
  {
    if |ps| > 1 {
      ColumnTokens(ps[1..], q, if k == 0 then 0 else k - 1);
    }
  }

  predicate GoodRunNames(cols: seq<string>, q: string) { forall k :: 0 <= k < |cols| ==> GoodName(q + cols[k]) }

  lemma {:induction false} SimpleGood(ps: seq<Part>, q: string)
    requires forall j :: 0 <= j < |ps| ==> Simple(ps[j]) && GoodName(q + ColName(ps[j]))
    ensures GoodParts(ps, q)
  {
    if ps != [] {
      SimpleGood(ps[1..], q);
    }
  }

  /** Different runs print different clauses. */
  lemma RunClausesDiffer(a: Run, b: Run, q: string, cols: seq<string>)
    requires IsRun(a, cols) && IsRun(b, cols) && a.last.Some? == b.last.Some? && GoodRunNames(cols, q)
    requires ClauseText(RunShape(a), q) == ClauseText(RunShape(b), q)
    ensures a == b
  {
    var pa, pb := RunPartsOf(a), RunPartsOf(b);
    RunPartsAre(a);
    RunPartsAre(b);
    RunClause(a, q, cols);
    RunClause(b, q, cols);
    FragTextEmpty(pa, q);
    FragTextEmpty(pb, q);
    var w := " WHERE ";
    if pa != [] && pb != [] {
      SameCut(w, FragText(pa, q), w, FragText(pb, q));
    } else {
      assert |w + FragText(pa, q)| > 0 && |w + FragText(pb, q)| > 0;
    }
    assert FragText(pa, q) == FragText(pb, q);
    assert PartsTokens(pa, "AND", q) == PartsTokens(pb, "AND", q);
    SameTokens(pa, pb, q);
    assert |a.nulls| == |b.nulls|;
    forall k | 0 <= k < |a.nulls| ensures a.nulls[k] == b.nulls[k] {
      assert ColName(pa[k]) == ColName(pb[k]);
    }
    if a.last.Some? {
      assert ColName(pa[|a.nulls|]) == ColName(pb[|a.nulls|]);
    }
  }

  lemma SameTokens(pa: seq<Part>, pb: seq<Part>, q: string)
    requires forall j :: 0 <= j < |pa| ==> Simple(pa[j])
    requires forall j :: 0 <= j < |pb| ==> Simple(pb[j])
    requires PartsTokens(pa, "AND", q) == PartsTokens(pb, "AND", q) && (pa == []) == (pb == [])
    ensures |pa| == |pb| && forall k :: 0 <= k < |pa| ==> ColName(pa[k]) == ColName(pb[k])
  {
    if pa != [] {
      ColumnTokens(pa, q, 0);
      ColumnTokens(pb, q, 0);
    }
    forall k | 0 <= k < |pa| ensures ColName(pa[k]) == ColName(pb[k]) {
      ColumnTokens(pa, q, k);
      ColumnTokens(pb, q, k);
      SameCut(q, ColName(pa[k]), q, ColName(pb[k]));
    }
  }

  function RunPartsOf(r: Run): seq<Part> { CondsShapeParts(RunShape(r).conds) }

  lemma RunPartsAre(r: Run)
    ensures |RunPartsOf(r)| == |RunCols(r)|
    ensures forall k :: 0 <= k < |RunCols(r)| ==> Simple(RunPartsOf(r)[k]) && ColName(RunPartsOf(r)[k]) == RunCols(r)[k]
  {
    RunParts(r.nulls, r.last);
    forall k | 0 <= k < |RunCols(r)|
      ensures Simple(RunPartsOf(r)[k]) && ColName(RunPartsOf(r)[k]) == RunCols(r)[k]
    {
      if k < |r.nulls| {
        assert RunPartsOf(r)[k] == One(NullTest(r.nulls[k], false));
      } else {
        assert RunPartsOf(r)[k] == One(Comparing(r.last.value, Eq));
      }
    }
  }

  lemma RunClause(r: Run, q: string, cols: seq<string>)
    requires IsRun(r, cols) && GoodRunNames(cols, q)
    ensures ShapeParts(RunShape(r)) == RunPartsOf(r)
    ensures Lex(FragText(RunPartsOf(r), q)) == PartsTokens(RunPartsOf(r), "AND", q)
  {
    var ps := RunPartsOf(r);
    RunPartsAre(r);
    forall j | 0 <= j < |ps| ensures GoodName(q + ColName(ps[j])) {
      assert RunCols(r)[j] in cols;
    }
    SimpleGood(ps, q);
    LexParts(ps, " AND ", "AND", q);
  }

  /** Equal keys imply equal clauses. */
  ghost predicate KeysFaithful(cols: seq<string>, q: string) {
    forall a: Shape, b: Shape :: GoodShape(a, cols) && GoodShape(b, cols) && ShapeKey(a, q) == ShapeKey(b, q) ==>
      ClauseText(a, q) == ClauseText(b, q)
  }

  /** The cache can be trusted for every predicate over a table if and only if no two runs of its columns are written
      alike. */
  lemma FaithfulIff(cols: seq<string>, q: string)
    requires GoodColumns(cols) && GoodQualifier(q) && GoodRunNames(cols, q)
    ensures KeysFaithful(cols, q) <==> RunsUnique(cols)
  {
    if RunsUnique(cols) {
      forall a: Shape, b: Shape | GoodShape(a, cols) && GoodShape(b, cols) && ShapeKey(a, q) == ShapeKey(b, q)
        ensures ClauseText(a, q) == ClauseText(b, q)
      {
        KeyInjective(a, q, b, q, cols);
      }
    }
    if KeysFaithful(cols, q) {
      forall a: Run, b: Run | IsRun(a, cols) && IsRun(b, cols) && a.last.Some? == b.last.Some? && RunText(a) == RunText(b)
        ensures a == b
      {
        RunShapeIsGood(a, cols);
        RunShapeIsGood(b, cols);
        RunShapeKey(a, q);
        RunShapeKey(b, q);
        RunClausesDiffer(a, b, q, cols);
      }
    }
  }
}
