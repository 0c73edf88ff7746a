/** The where tree of an operation (orm.rs): what it says about a row, and the fragment it renders to. */
module WhereTree {
  import opened Bytes
  import opened SqlExpr
  import opened WhereFrag

  datatype Json =
    | JNull
    | JBool(b: bool)
    | JInt(i: I64)
    | JFloat(f: F64)
    | JText(text: string)
    | JArray(items: seq<Json>)
    | JObject(fields: seq<Field>)

  datatype Field = Field(key: string, value: Json)

  datatype ColType = IntCol | FloatCol | TextCol | BoolCol

  datatype TableColumn = TableColumn(name: string, ty: ColType)

  datatype Table = Table(name: string, columns: seq<TableColumn>)

  datatype Fault =
    | UnknownColumn(col: string)
    | UnsupportedValue
    | InNeedsArray(col: string)
    | GroupNotObject
    | OrNeedsArray
    | WhereNotObject

  datatype Checked<T> = Ok(value: T) | Err(fault: Fault)

  /** `as f64`, and the integer a float equals when it has no fraction. */
  datatype Casts = Casts(toFloat: I64 -> F64, whole: F64 -> Option<I64>)

  // ---- bound values ----

  predicate Scalar(v: Json) { !v.JArray? && !v.JObject? }

  function ToParam(v: Json): Checked<Value> {
    match v
    case JNull => Ok(NullValue)
    case JBool(b) => Ok(BoolValue(b))
    case JInt(i) => Ok(IntValue(i))
    case JFloat(f) => Ok(FloatValue(f))
    case JText(s) => Ok(TextValue(s))
    case _ => Err(UnsupportedValue)
  }

  /** Nudges a value toward the declared type of its column. */
  function Coerce(ty: Option<ColType>, p: Value, casts: Casts): Value {
    match (ty, p)
    case (Some(FloatCol), IntValue(i)) => FloatValue(casts.toFloat(i))
    case (Some(IntCol), FloatValue(f)) =>
      (match casts.whole(f) case Some(i) => IntValue(i) case None => p)
    case (Some(BoolCol), IntValue(i)) => BoolValue(i != 0)
    case _ => p
  }

  function TypeOf(table: Table, col: string): Option<ColType> {
    TypeIn(table.columns, col)
  }

  function TypeIn(columns: seq<TableColumn>, col: string): (t: Option<ColType>)
    ensures t.Some? <==> exists k :: 0 <= k < |columns| && columns[k].name == col
  {
    if columns == [] then None
    else if columns[0].name == col then Some(columns[0].ty)
    else
      var t := TypeIn(columns[1..], col);
      assert t.Some? ==> exists k :: 0 <= k < |columns| && columns[k].name == col by {
        if t.Some? {
          var k :| 0 <= k < |columns[1..]| && columns[1..][k].name == col;
          assert columns[k + 1].name == col;
        }
      }
      t
  }

  function ToParamAs(table: Table, col: string, v: Json, casts: Casts): Checked<Value> {
    match ToParam(v)
    case Err(f) => Err(f)
    case Ok(p) => Ok(Coerce(TypeOf(table, col), p, casts))
  }

  // ---- operators ----

  datatype Op = CmpWith(op: CmpOp) | InList

  function SqlOp(key: string): Option<Op> {
    if key == "eq" then Some(CmpWith(Eq)) else if key == "ne" then Some(CmpWith(Ne))
    else if key == "gt" then Some(CmpWith(Gt)) else if key == "gte" then Some(CmpWith(Ge))
    else if key == "lt" then Some(CmpWith(Lt)) else if key == "lte" then Some(CmpWith(Le))
    else if key == "like" then Some(CmpWith(Like)) else if key == "in" then Some(InList) else None
  }

  predicate Logical(key: string) { key == "AND" || key == "OR" || key == "NOT" }

  function Get(w: Json, key: string): (v: Option<Json>)
    requires w.JObject?
    ensures v.Some? ==> v.value < w
    ensures v.Some? <==> exists k :: 0 <= k < |w.fields| && w.fields[k].key == key
  {
    var k := FirstKey(w.fields, key);
    if k < |w.fields| then
      assert w.fields[k].value < w;
      Some(w.fields[k].value)
    else None
  }

  function FirstKey(fields: seq<Field>, key: string): (k: nat)
    ensures k <= |fields|
    ensures k < |fields| ==> fields[k].key == key
    ensures forall i :: 0 <= i < k ==> fields[i].key != key
  {
    if fields == [] || fields[0].key == key then 0 else 1 + FirstKey(fields[1..], key)
  }

  // ---- what the tree says about a row ----

  function TruthOf(b: bool): Truth { if b then True else False }

  /** The value an operand is compared with. */
  function Bound(table: Table, col: string, v: Json, casts: Casts): Value {
    match ToParamAs(table, col, v, casts)
    case Ok(p) => p
    case Err(_) => NullValue
  }

  function OpTruths(table: Table, col: string, op: Op, v: Json, q: string, casts: Casts, env: Env): seq<Truth> {
    var x := env.row(q + col);
    match op
    case InList =>
      if v.JArray? then
        [OrAll(seq(|v.items|, k requires 0 <= k < |v.items| => env.cmp(Eq, x, Bound(table, col, v.items[k], casts))))]
      else []
    case CmpWith(c) =>
      if c == Ne && v == JNull then [TruthOf(x != NullValue)]
      else if c == Eq && v == JNull then [TruthOf(x == NullValue)]
      else [env.cmp(c, x, Bound(table, col, v, casts))]
  }

  /** Every known operator of a condition object, in order. */
  function OpsTruths(table: Table, col: string, ops: seq<Field>, k: nat, q: string, casts: Casts, env: Env): seq<Truth>
    requires k <= |ops|
  {
    if k == 0 then [] else
      OpsTruths(table, col, ops, k - 1, q, casts, env)
      + match SqlOp(ops[k - 1].key)
        case None => []
        case Some(op) => OpTruths(table, col, op, ops[k - 1].value, q, casts, env)
  }

  function CondTruths(table: Table, col: string, cond: Json, q: string, casts: Casts, env: Env): seq<Truth> {
    match cond
    case JNull => [TruthOf(env.row(q + col) == NullValue)]
    case JObject(ops) => OpsTruths(table, col, ops, |ops|, q, casts, env)
    case _ => [env.cmp(Eq, env.row(q + col), Bound(table, col, cond, casts))]
  }

  function CondsTruths(table: Table, w: Json, k: nat, q: string, casts: Casts, env: Env): seq<Truth>
    requires w.JObject? && k <= |w.fields|
  {
    if k == 0 then [] else
      CondsTruths(table, w, k - 1, q, casts, env)
      + if Logical(w.fields[k - 1].key) then [] else CondTruths(table, w.fields[k - 1].key, w.fields[k - 1].value, q, casts, env)
  }

  /** One object stands for a list of one. */
  function Items(v: Json): seq<Json> {
    match v
    case JArray(items) => items
    case JObject(_) => [v]
    case _ => []
  }

  /** The truths of the groups that say anything: empty groups are dropped. */
  function GroupTruths(table: Table, v: Json, k: nat, q: string, casts: Casts, env: Env): seq<Truth>
    requires k <= |Items(v)|
    decreases v, 1, k
  {
    if k == 0 then [] else
      var g := Items(v)[k - 1];
      var ts := if g.JObject? then Truths(table, g, q, casts, env) else [];
      GroupTruths(table, v, k - 1, q, casts, env) + if ts == [] then [] else [AndAll(ts)]
  }

  function NegateAll(ts: seq<Truth>): (r: seq<Truth>)
    ensures |r| == |ts|
  {
    seq(|ts|, k requires 0 <= k < |ts| => Not3(ts[k]))
  }

  /** The conjuncts of a group: its conditions, every AND group, the OR of its alternatives (none: false), and the
      negation of every NOT group. */
  function Truths(table: Table, w: Json, q: string, casts: Casts, env: Env): seq<Truth>
    requires w.JObject?
    decreases w, 0
  {
    CondsTruths(table, w, |w.fields|, q, casts, env)
    + (match Get(w, "AND") case None => [] case Some(v) => GroupTruths(table, v, |Items(v)|, q, casts, env))
    + (match Get(w, "OR") case None => []
       case Some(v) =>
         if v == JArray([]) then [False] else
           var ts := GroupTruths(table, v, |Items(v)|, q, casts, env);
           if ts == [] then [] else [OrAll(ts)])
    + (match Get(w, "NOT") case None => []
       case Some(v) => NegateAll(GroupTruths(table, v, |Items(v)|, q, casts, env)))
  }

  // ---- the fragment and parameters it renders to ----

  datatype Rendered = Rendered(parts: seq<Part>, params: seq<Value>)

  function Add(a: Rendered, b: Rendered): Rendered { Rendered(a.parts + b.parts, a.params + b.params) }

  /** The values of an IN list, up to the first that cannot be bound. */
  function ListParams(table: Table, col: string, items: seq<Json>, k: nat, casts: Casts): (r: Checked<seq<Value>>)
    requires k <= |items|
    ensures r.Ok? ==> |r.value| == k && forall j :: 0 <= j < k ==> r.value[j] == Bound(table, col, items[j], casts)
  {
    if k == 0 then Ok([]) else
      match ListParams(table, col, items, k - 1, casts)
      case Err(f) => Err(f)
      case Ok(ps) =>
        match ToParamAs(table, col, items[k - 1], casts)
        case Err(f) => Err(f)
        case Ok(p) => Ok(ps + [p])
  }

  function OpParts(table: Table, col: string, op: Op, v: Json, casts: Casts): Checked<Rendered> {
    match op
    case InList =>
      if !v.JArray? then Err(InNeedsArray(col))
      else if v.items == [] then Ok(Rendered([One(Never)], []))
      else
        (match ListParams(table, col, v.items, |v.items|, casts)
         case Err(f) => Err(f)
         case Ok(ps) => Ok(Rendered([One(Among(col, |v.items|))], ps)))
    case CmpWith(c) =>
      if c == Ne && v == JNull then Ok(Rendered([One(NullTest(col, true))], []))
      else if c == Eq && v == JNull then Ok(Rendered([One(NullTest(col, false))], []))
      else
        (match ToParamAs(table, col, v, casts)
         case Err(f) => Err(f)
         case Ok(p) => Ok(Rendered([One(Comparing(col, c))], [p])))
  }

  function OpsParts(table: Table, col: string, ops: seq<Field>, k: nat, casts: Casts): Checked<Rendered>
    requires k <= |ops|
  {
    if k == 0 then Ok(Rendered([], [])) else
      match OpsParts(table, col, ops, k - 1, casts)
      case Err(f) => Err(f)
      case Ok(before) =>
        match SqlOp(ops[k - 1].key)
        case None => Ok(before)
        case Some(op) =>
          match OpParts(table, col, op, ops[k - 1].value, casts)
          case Err(f) => Err(f)
          case Ok(more) => Ok(Add(before, more))
  }

  function CondParts(table: Table, col: string, cond: Json, casts: Casts): Checked<Rendered> {
    if TypeOf(table, col).None? then Err(UnknownColumn(col)) else
      match cond
      case JNull => Ok(Rendered([One(NullTest(col, false))], []))
      case JObject(ops) => OpsParts(table, col, ops, |ops|, casts)
      case _ =>
        match ToParamAs(table, col, cond, casts)
        case Err(f) => Err(f)
        case Ok(p) => Ok(Rendered([One(Comparing(col, Eq))], [p]))
  }

  function CondsParts(table: Table, w: Json, k: nat, casts: Casts): Checked<Rendered>
    requires w.JObject? && k <= |w.fields|
  {
    if k == 0 then Ok(Rendered([], [])) else
      match CondsParts(table, w, k - 1, casts)
      case Err(f) => Err(f)
      case Ok(before) =>
        if Logical(w.fields[k - 1].key) then Ok(before) else
          match CondParts(table, w.fields[k - 1].key, w.fields[k - 1].value, casts)
          case Err(f) => Err(f)
          case Ok(more) => Ok(Add(before, more))
  }

  datatype Wrap = Plain | Negated

  function Wrapped(wrap: Wrap, parts: seq<Part>): Part {
    if wrap == Plain then Group(parts) else NotGroup(parts)
  }

  /** The non-empty groups of a list, each wrapped. */
  function GroupParts(table: Table, v: Json, k: nat, wrap: Wrap, casts: Casts): Checked<Rendered>
    requires k <= |Items(v)|
    decreases v, 1, k
  {
    if k == 0 then Ok(Rendered([], [])) else
      match GroupParts(table, v, k - 1, wrap, casts)
      case Err(f) => Err(f)
      case Ok(before) =>
        if !Items(v)[k - 1].JObject? then Err(GroupNotObject) else
          match FragOf(table, Items(v)[k - 1], casts)
          case Err(f) => Err(f)
          case Ok(g) => Ok(Add(before, Rendered(if g.parts == [] then [] else [Wrapped(wrap, g.parts)], g.params)))
  }

  /** A list of groups whose items are all objects, or one object. */
  predicate IsGroupList(v: Json) {
    v.JObject? || (v.JArray? && forall k :: 0 <= k < |v.items| ==> v.items[k].JObject?)
  }

  function AndNotParts(table: Table, w: Json, key: string, wrap: Wrap, casts: Casts): Checked<Rendered>
    requires w.JObject?
    decreases w, 0, 1
  {
    match Get(w, key)
    case None => Ok(Rendered([], []))
    case Some(v) =>
      if !IsGroupList(v) then Err(GroupNotObject) else GroupParts(table, v, |Items(v)|, wrap, casts)
  }

  function OrParts(table: Table, w: Json, casts: Casts): Checked<Rendered>
    requires w.JObject?
    decreases w, 0, 1
  {
    match Get(w, "OR")
    case None => Ok(Rendered([], []))
    case Some(v) =>
      if !v.JArray? then Err(OrNeedsArray)
      else if v.items == [] then Ok(Rendered([One(Never)], []))
      else
        match GroupParts(table, v, |v.items|, Plain, casts)
        case Err(f) => Err(f)
        case Ok(subs) => Ok(Rendered(if subs.parts == [] then [] else [AnyOf(subs.parts)], subs.params))
  }

  function Then(a: Checked<Rendered>, b: Checked<Rendered>): Checked<Rendered> {
    match (a, b)
    case (Err(f), _) => Err(f)
    case (_, Err(f)) => Err(f)
    case (Ok(x), Ok(y)) => Ok(Add(x, y))
  }

  function FragOf(table: Table, w: Json, casts: Casts): Checked<Rendered>
    requires w.JObject?
    decreases w, 0, 2
  {
    Then(Then(Then(CondsParts(table, w, |w.fields|, casts),
                   AndNotParts(table, w, "AND", Plain, casts)),
              OrParts(table, w, casts)),
         AndNotParts(table, w, "NOT", Negated, casts))
  }
}
