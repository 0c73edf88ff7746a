/** The TypeScript where compiler (orm.ts): predicate shapes, their cache keys, and the SQL a shape stands for. */
module TsWhere {
  import opened Bytes
  import opened SqlExpr
  import opened WhereFrag
  import opened WhereTree
  import Decimal

  /** `None` is an operand left undefined. */
  datatype OpEntry = OpEntry(key: string, value: Option<Json>)

  datatype Cond = Absent | Bare(v: Json) | Ops(ops: seq<OpEntry>)

  datatype CondEntry = CondEntry(col: string, cond: Cond)

  /** A logical key left out, or its groups. */
  datatype Groups = NoGroups | Groups(list: seq<Where>)

  datatype Where = Where(conds: seq<CondEntry>, ands: Groups, ors: Groups, nots: Groups)

  // ---- shapes: columns, operators and IN arity, never values ----

  datatype OpShape = NullOp(op: CmpOp) | PlainOp(op: CmpOp) | InOp(count: nat)

  datatype CondShape = NullShape(col: string) | EqShape(col: string) | OpsShape(col: string, ops: seq<OpShape>)

  datatype Shapes = NoShapes | Shapes(list: seq<Shape>)

  datatype Shape = Shape(conds: seq<CondShape>, ands: Shapes, ors: Shapes, nots: Shapes)

  /** An operator that is known and given, or nothing. */
  function OpShapeOf(o: OpEntry): seq<OpShape> {
    match (SqlOp(o.key), o.value)
    case (None, _) => []
    case (_, None) => []
    case (Some(InList), Some(v)) => if v.JArray? then [InOp(|v.items|)] else []
    case (Some(CmpWith(c)), Some(v)) => [if v == JNull then NullOp(c) else PlainOp(c)]
  }

  function OpShapes(ops: seq<OpEntry>): seq<OpShape> {
    if ops == [] then [] else OpShapeOf(ops[0]) + OpShapes(ops[1..])
  }

  function CondShapeOf(c: CondEntry): seq<CondShape> {
    match c.cond
    case Absent => []
    case Bare(v) => [if v == JNull then NullShape(c.col) else EqShape(c.col)]
    case Ops(ops) => [OpsShape(c.col, OpShapes(ops))]
  }

  function CondShapes(conds: seq<CondEntry>): seq<CondShape> {
    if conds == [] then [] else CondShapeOf(conds[0]) + CondShapes(conds[1..])
  }

  function ShapeOf(w: Where): Shape {
    Shape(CondShapes(w.conds), GroupShapes(w.ands), GroupShapes(w.ors), GroupShapes(w.nots))
  }

  function GroupShapes(gs: Groups): Shapes {
    match gs case NoGroups => NoShapes case Groups(list) => Shapes(ShapesOf(list))
  }

  function ShapesOf(ws: seq<Where>): (ss: seq<Shape>)
    ensures |ss| == |ws|
  {
    if ws == [] then [] else [ShapeOf(ws[0])] + ShapesOf(ws[1..])
  }

  // ---- the key ----

  function OpName(op: CmpOp): string {
    match op
    case Eq => "eq" case Ne => "ne" case Gt => "gt" case Ge => "gte" case Lt => "lt" case Le => "lte" case Like => "like"
  }

  function OpKey(o: OpShape): string {
    match o
    case NullOp(c) => OpName(c) + ":null,"
    case PlainOp(c) => OpName(c) + ","
    case InOp(n) => "in:" + Decimal.Text(n) + ","
  }

  function OpsKey(ops: seq<OpShape>): string { if ops == [] then "" else OpKey(ops[0]) + OpsKey(ops[1..]) }

  function CondKey(c: CondShape): string {
    match c
    case NullShape(col) => col + "null"
    case EqShape(col) => col + "="
    case OpsShape(col, ops) => col + "{" + OpsKey(ops) + "}"
  }

  function CondsKey(conds: seq<CondShape>): string {
    if conds == [] then "" else CondKey(conds[0]) + CondsKey(conds[1..])
  }

  function GroupsKey(gs: seq<Shape>, q: string): string
    decreases gs
  {
    if gs == [] then "" else ShapeKey(gs[0], q) + ";" + GroupsKey(gs[1..], q)
  }

  function LogicKey(mark: string, gs: Shapes, q: string): string
    decreases gs
  {
    match gs case NoShapes => "" case Shapes(list) => mark + "[" + GroupsKey(list, q) + "]"
  }

  function OrMark(gs: Shapes): string {
    match gs case NoShapes => "" case Shapes(list) => "OR" + Decimal.Text(|list|)
  }

  function ShapeKey(s: Shape, q: string): string
    decreases s
  {
    q + (CondsKey(s.conds)
         + (LogicKey("AND", s.ands, q) + (LogicKey(OrMark(s.ors), s.ors, q) + LogicKey("NOT", s.nots, q))))
  }

  // ---- the fragment ----

  function OpPart(col: string, o: OpShape): Part {
    match o
    case InOp(n) => One(if n == 0 then Never else Among(col, n))
    case NullOp(c) => One(if c == Ne then NullTest(col, true) else if c == Eq then NullTest(col, false) else Comparing(col, c))
    case PlainOp(c) => One(Comparing(col, c))
  }

  function OpsShapeParts(col: string, ops: seq<OpShape>): (ps: seq<Part>)
    ensures |ps| == |ops|
  {
    if ops == [] then [] else [OpPart(col, ops[0])] + OpsShapeParts(col, ops[1..])
  }

  function CondShapeParts(c: CondShape): seq<Part> {
    match c
    case NullShape(col) => [One(NullTest(col, false))]
    case EqShape(col) => [One(Comparing(col, Eq))]
    case OpsShape(col, ops) => OpsShapeParts(col, ops)
  }

  function CondsShapeParts(conds: seq<CondShape>): seq<Part> {
    if conds == [] then [] else CondShapeParts(conds[0]) + CondsShapeParts(conds[1..])
  }

  function GroupsShapeParts(gs: seq<Shape>, wrap: Wrap): seq<Part> {
    if gs == [] then [] else
      var g := ShapeParts(gs[0]);
      (if g == [] then [] else [Wrapped(wrap, g)]) + GroupsShapeParts(gs[1..], wrap)
  }

  function AndNotShapeParts(gs: Shapes, wrap: Wrap): seq<Part> {
    match gs case NoShapes => [] case Shapes(list) => GroupsShapeParts(list, wrap)
  }

  function OrShapeParts(gs: Shapes): seq<Part> {
    match gs
    case NoShapes => []
    case Shapes(list) =>
      if list == [] then [One(Never)] else
        var subs := GroupsShapeParts(list, Plain);
        if subs == [] then [] else [AnyOf(subs)]
  }

  function ShapeParts(s: Shape): seq<Part> {
    CondsShapeParts(s.conds) + AndNotShapeParts(s.ands, Plain) + OrShapeParts(s.ors) + AndNotShapeParts(s.nots, Negated)
  }

  /** What `buildWhereClause` prints for a shape. */
  function ClauseText(s: Shape, q: string): string {
    var frag := FragText(ShapeParts(s), q);
    if frag == "" then "" else " WHERE " + frag
  }

  // ---- names ----

  predicate IdentChar(c: char) { 'a' <= c <= 'z' || 'A' <= c <= 'Z' || '0' <= c <= '9' || c == '_' }

  /** What the schema accepts as a column or table name. */
  predicate IsIdent(s: string) {
    s != "" && !('0' <= s[0] <= '9') && forall k :: 0 <= k < |s| ==> IdentChar(s[k])
  }

  /** Shapes over known columns, each at most once per group. */
  predicate GoodShape(s: Shape, cols: seq<string>)
    decreases s
  {
    && (forall k :: 0 <= k < |s.conds| ==> s.conds[k].col in cols)
    && (forall i, j :: 0 <= i < j < |s.conds| ==> s.conds[i].col != s.conds[j].col)
    && GoodGroups(s.ands, cols)
    && GoodGroups(s.ors, cols)
    && GoodGroups(s.nots, cols)
  }

  predicate GoodGroups(gs: Shapes, cols: seq<string>)
    decreases gs
  {
    gs.Shapes? ==> forall k :: 0 <= k < |gs.list| ==> GoodShape(gs.list[k], cols)
  }

  predicate GoodQualifier(q: string) {
    q == "" || (|q| > 1 && q[|q| - 1] == '.' && IsIdent(q[..|q| - 1]))
  }

  predicate GoodColumns(cols: seq<string>) {
    forall k :: 0 <= k < |cols| ==> IsIdent(cols[k])
  }

  // ---- runs: what the key writes without a delimiter ----

  /** Columns tested for null, one after another, and the column of a following condition if there is one. */
  datatype Run = Run(nulls: seq<string>, last: Option<string>)

  function NullsText(nulls: seq<string>): string {
    if nulls == [] then "" else nulls[0] + "null" + NullsText(nulls[1..])
  }

  function RunText(r: Run): string {
    NullsText(r.nulls) + match r.last case None => "" case Some(c) => c
  }

  function RunCols(r: Run): seq<string> {
    r.nulls + match r.last case None => [] case Some(c) => [c]
  }

  predicate IsRun(r: Run, cols: seq<string>) {
    NoRepeat(RunCols(r)) && forall k :: 0 <= k < |RunCols(r)| ==> RunCols(r)[k] in cols
  }

  /** No two runs of the table's columns are written alike. */
  ghost predicate RunsUnique(cols: seq<string>) {
    forall a: Run, b: Run :: IsRun(a, cols) && IsRun(b, cols) && a.last.Some? == b.last.Some? && RunText(a) == RunText(b) ==> a == b
  }

  predicate NullAt(s: string, p: nat) { p + 4 <= |s| && s[p..p + 4] == "null" }

  predicate ContainsNull(s: string) { exists p: nat :: p < |s| && NullAt(s, p) }
}
