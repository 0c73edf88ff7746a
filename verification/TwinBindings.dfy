/** What each placeholder of a predicate stands for: the column it is compared with, the value given for it, and whether
    the TypeScript collector sends that value (orm.ts, orm.rs). */
module TwinBindings {
  import opened Bytes
  import opened SqlExpr
  import opened WhereTree
  import opened TsWhere
  import opened WhereMemo

  datatype Binding = Binding(col: string, value: Value, sent: bool)

  /** A null under an operator other than eq and ne gets a placeholder, and no value is sent for it. */
  function OpBindings(col: string, o: OpEntry): seq<Binding> {
    match (SqlOp(o.key), o.value)
    case (None, _) => []
    case (_, None) => []
    case (Some(InList), Some(v)) => if v.JArray? then ItemBindings(col, v.items) else []
    case (Some(CmpWith(c)), Some(v)) =>
      if v != JNull then [Binding(col, ParamOf(v), true)]
      else if c == Eq || c == Ne then [] else [Binding(col, NullValue, false)]
  }

  function ItemBindings(col: string, items: seq<Json>): (bs: seq<Binding>)
    ensures |bs| == |items|
  {
    seq(|items|, k requires 0 <= k < |items| => Binding(col, ParamOf(items[k]), true))
  }

  function OpsBindings(col: string, ops: seq<OpEntry>): seq<Binding> {
    if ops == [] then [] else OpsBindings(col, ops[..|ops| - 1]) + OpBindings(col, ops[|ops| - 1])
  }

  function CondBindings(c: CondEntry): seq<Binding> {
    match c.cond
    case Absent => []
    case Bare(v) => if v == JNull then [] else [Binding(c.col, ParamOf(v), true)]
    case Ops(ops) => OpsBindings(c.col, ops)
  }

  function CondsBindings(conds: seq<CondEntry>): seq<Binding> {
    if conds == [] then [] else CondsBindings(conds[..|conds| - 1]) + CondBindings(conds[|conds| - 1])
  }

  function ListBindings(ws: seq<Where>): seq<Binding> {
    if ws == [] then [] else ListBindings(ws[..|ws| - 1]) + Bindings(ws[|ws| - 1])
  }

  function GroupsBindings(gs: Groups): seq<Binding> {
    match gs case NoGroups => [] case Groups(list) => ListBindings(list)
  }

  /** One binding per placeholder, in order. */
  function Bindings(w: Where): seq<Binding> {
    CondsBindings(w.conds) + GroupsBindings(w.ands) + GroupsBindings(w.ors) + GroupsBindings(w.nots)
  }

  // ---- the values the engine binds, and those the collector sends ----

  function Fitted(table: Table, b: Binding, casts: Casts): Value { Coerce(TypeOf(table, b.col), b.value, casts) }

  /** Every value nudged toward its column's declared type. */
  function Coerced(table: Table, bs: seq<Binding>, casts: Casts): (vs: seq<Value>)
    ensures |vs| == |bs|
  {
    seq(|bs|, k requires 0 <= k < |bs| => Fitted(table, bs[k], casts))
  }

  function Sent(bs: seq<Binding>): seq<Value> {
    if bs == [] then [] else Sent(bs[..|bs| - 1]) + if bs[|bs| - 1].sent then [bs[|bs| - 1].value] else []
  }

  lemma CoercedConcat(table: Table, a: seq<Binding>, b: seq<Binding>, casts: Casts)
    ensures Coerced(table, a + b, casts) == Coerced(table, a, casts) + Coerced(table, b, casts)
  {
  }

  lemma {:induction false} SentConcat(a: seq<Binding>, b: seq<Binding>)
    ensures Sent(a + b) == Sent(a) + Sent(b)
  {
    if b == [] {
      assert a + b == a;
    } else {
      var init, last := b[..|b| - 1], b[|b| - 1];
      SentConcat(a, init);
      assert (a + b)[..|a + b| - 1] == a + init && (a + b)[|a + b| - 1] == last;
      Assoc(Sent(a), Sent(init), if last.sent then [last.value] else []);
    }
  }

  lemma {:induction false} ItemsSent(col: string, items: seq<Json>)
    ensures Sent(ItemBindings(col, items)) == ParamsOf(items)
  {
    if items != [] {
      var init := items[..|items| - 1];
      ItemsSent(col, init);
      assert ItemBindings(col, items)[..|items| - 1] == ItemBindings(col, init);
      assert ParamsOf(items) == ParamsOf(init) + [ParamOf(items[|items| - 1])];
    }
  }

  lemma OneSent(b: Binding)
    ensures Sent([b]) == if b.sent then [b.value] else []
  {
    assert [b][..0] == [];
  }

  lemma OpSent(col: string, o: OpEntry)
    ensures Sent(OpBindings(col, o)) == OpParams(o)
  {
    match (SqlOp(o.key), o.value)
    case (Some(InList), Some(v)) => if v.JArray? { ItemsSent(col, v.items); }
    case (Some(CmpWith(_)), Some(v)) => if OpBindings(col, o) != [] { OneSent(OpBindings(col, o)[0]); }
    case _ =>
  }

  lemma {:induction false} OpsSent(col: string, ops: seq<OpEntry>)
    ensures Sent(OpsBindings(col, ops)) == OpsParams(ops)
  {
    if ops != [] {
      var init, o := ops[..|ops| - 1], ops[|ops| - 1];
      OpsSent(col, init);
      OpSent(col, o);
      SentConcat(OpsBindings(col, init), OpBindings(col, o));
      OpsParamsSnoc(init, o);
      assert ops == init + [o];
    }
  }

  lemma CondSent(c: CondEntry)
    ensures Sent(CondBindings(c)) == CondParams(c.cond)
  {
    match c.cond
    case Absent =>
    case Bare(v) => OneSent(Binding(c.col, ParamOf(v), true));
    case Ops(ops) => OpsSent(c.col, ops);
  }

  lemma {:induction false} CondsSent(conds: seq<CondEntry>)
    ensures Sent(CondsBindings(conds)) == CondsParams(conds)
  {
    if conds != [] {
      var init, c := conds[..|conds| - 1], conds[|conds| - 1];
      CondsSent(init);
      CondsSentMore(init, c);
      assert conds == init + [c];
    }
  }

  lemma CondsSentMore(init: seq<CondEntry>, c: CondEntry)
    requires Sent(CondsBindings(init)) == CondsParams(init)
    ensures Sent(CondsBindings(init + [c])) == CondsParams(init + [c])
  {
    CondSent(c);
    SentConcat(CondsBindings(init), CondBindings(c));
    CondsParamsSnoc(init, c);
    assert (init + [c])[..|init|] == init;
  }

  lemma {:induction false} ListSent(ws: seq<Where>)
    ensures Sent(ListBindings(ws)) == WhereMemo.ListParams(ws)
  {
    if ws != [] {
      var init, w := ws[..|ws| - 1], ws[|ws| - 1];
      ListSent(init);
      BindingsSent(w);
      assert Sent(ListBindings(init + [w])) == WhereMemo.ListParams(init + [w]) by {
        ListSentMore(init, w);
      }
      assert init + [w] == ws;
    }
  }

  lemma ListSentMore(init: seq<Where>, w: Where)
    requires Sent(ListBindings(init)) == WhereMemo.ListParams(init) && Sent(Bindings(w)) == Params(w)
    ensures Sent(ListBindings(init + [w])) == WhereMemo.ListParams(init + [w])
  {
    SentConcat(ListBindings(init), Bindings(w));
    ListParamsSnoc(init, w);
    assert (init + [w])[..|init|] == init;
  }

  lemma GroupsSent(gs: Groups)
    ensures Sent(GroupsBindings(gs)) == GroupsParams(gs)
    decreases gs
  {
    match gs case NoGroups => case Groups(list) => ListSent(list);
  }

  /** What the collector gathers are the values of the bindings it sends. */
  lemma {:induction false} BindingsSent(w: Where)
    ensures Sent(Bindings(w)) == Params(w)
    decreases w
  {
    CondsSent(w.conds);
    GroupsSent(w.ands);
    GroupsSent(w.ors);
    GroupsSent(w.nots);
    var c, a, o, n := CondsBindings(w.conds), GroupsBindings(w.ands), GroupsBindings(w.ors), GroupsBindings(w.nots);
    SentConcat(c, a);
    SentConcat(c + a, o);
    SentConcat(c + a + o, n);
  }

  // ---- when they are the same values ----

  /** Sent, and of a kind the column's declared type leaves as it is. */
  predicate Alike(table: Table, b: Binding, casts: Casts) { b.sent && Fitted(table, b, casts) == b.value }

  predicate AllAlike(table: Table, bs: seq<Binding>, casts: Casts) {
    forall k :: 0 <= k < |bs| ==> Alike(table, bs[k], casts)
  }

  lemma {:induction false} SentShort(bs: seq<Binding>)
    ensures |Sent(bs)| <= |bs|
    ensures |Sent(bs)| == |bs| ==> forall k :: 0 <= k < |bs| ==> bs[k].sent && Sent(bs)[k] == bs[k].value
    ensures (forall k :: 0 <= k < |bs| ==> bs[k].sent) ==> |Sent(bs)| == |bs|
  {
    if bs != [] {
      var init := bs[..|bs| - 1];
      SentShort(init);
      assert forall k :: 0 <= k < |init| ==> init[k] == bs[k];
    }
  }

  /** The engine binds the very values the collector sends if and only if every value is sent and fits its column. */
  lemma AlikeIff(table: Table, bs: seq<Binding>, casts: Casts)
    ensures Coerced(table, bs, casts) == Sent(bs) <==> AllAlike(table, bs, casts)
  {
    SentShort(bs);
    if Coerced(table, bs, casts) == Sent(bs) {
      forall k | 0 <= k < |bs| ensures Alike(table, bs[k], casts) {
        assert Coerced(table, bs, casts)[k] == Fitted(table, bs[k], casts);
      }
    }
  }

  /** An integer given for a float column is bound as a float by one twin and sent as it is by the other. */
  lemma IntegerForFloat(table: Table, col: string, i: I64, casts: Casts)
    requires TypeOf(table, col) == Some(FloatCol)
    ensures var w := Where([CondEntry(col, Bare(JInt(i)))], NoGroups, NoGroups, NoGroups);
            Coerced(table, Bindings(w), casts) == [FloatValue(casts.toFloat(i))] && Params(w) == [IntValue(i)]
  {
    var c := CondEntry(col, Bare(JInt(i)));
    OneCond(c);
    assert CondBindings(c) == [Binding(col, IntValue(i), true)];
    assert Coerced(table, CondBindings(c), casts) == [FloatValue(casts.toFloat(i))];
  }

  lemma OneCond(c: CondEntry)
    ensures Bindings(Where([c], NoGroups, NoGroups, NoGroups)) == CondBindings(c)
    ensures Params(Where([c], NoGroups, NoGroups, NoGroups)) == CondParams(c.cond)
  {
    assert [c][..0] == [] && [] + [c] == [c];
    CondsParamsSnoc([], c);
    assert CondsBindings([c]) == [] + CondBindings(c) && CondsParams([c]) == [] + CondParams(c.cond);
  }
}
