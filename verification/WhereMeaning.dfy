/** The rendered fragment says of a row exactly what the where tree says. */
module WhereMeaning {
  import opened Bytes
  import opened SqlExpr
  import opened WhereFrag
  import opened WhereTree
  import WhereParse

  // ---- pieces of a fragment ----

  lemma {:induction false} PartsConcat(a: seq<Part>, b: seq<Part>, q: string, n: nat, env: Env)
    ensures PartsCount(a + b) == PartsCount(a) + PartsCount(b)
    ensures GoodParts(a + b, q) == (GoodParts(a, q) && GoodParts(b, q))
    ensures PartsTruths(a + b, q, n, env) == PartsTruths(a, q, n, env) + PartsTruths(b, q, n + PartsCount(a), env)
  {
    if a == [] {
      assert a + b == b;
    } else {
      assert (a + b)[1..] == a[1..] + b;
      PartsConcat(a[1..], b, q, n + PartCount(a[0]), env);
    }
  }

  /** The parameters of a piece sit at `n`. */
  ghost predicate Slot(params: seq<Value>, n: nat, piece: seq<Value>) {
    n + |piece| <= |params| && params[n..n + |piece|] == piece
  }

  ghost predicate TruthsAt(parts: seq<Part>, q: string, n: nat, env: Env, ts: seq<Truth>) {
    PartsTruths(parts, q, n, env) == ts
  }

  /** Wherever its parameters sit, the piece is well-formed, takes them all, and says `ts`. */
  ghost predicate Says(r: Rendered, q: string, env: Env, ts: seq<Truth>) {
    && GoodParts(r.parts, q)
    && PartsCount(r.parts) == |r.params|
    && |r.parts| == |ts|
    && forall n: nat :: Slot(env.params, n, r.params) ==> TruthsAt(r.parts, q, n, env, ts)
  }

  lemma SaysAdd(a: Rendered, b: Rendered, q: string, env: Env, ta: seq<Truth>, tb: seq<Truth>)
    requires Says(a, q, env, ta) && Says(b, q, env, tb)
    ensures Says(Add(a, b), q, env, ta + tb)
  {
    PartsConcat(a.parts, b.parts, q, 0, env);
    forall n: nat | Slot(env.params, n, a.params + b.params) ensures TruthsAt(a.parts + b.parts, q, n, env, ta + tb) {
      SaysBoth(a, b, q, env, ta, tb, n);
    }
  }

  lemma SaysBoth(a: Rendered, b: Rendered, q: string, env: Env, ta: seq<Truth>, tb: seq<Truth>, n: nat)
    requires Says(a, q, env, ta) && Says(b, q, env, tb) && Slot(env.params, n, a.params + b.params)
    ensures TruthsAt(a.parts + b.parts, q, n, env, ta + tb)
  {
    SlotSplits(env.params, n, a.params, b.params);
    assert TruthsAt(a.parts, q, n, env, ta) && TruthsAt(b.parts, q, n + |a.params|, env, tb);
    PartsConcat(a.parts, b.parts, q, n, env);
  }

  lemma SlotSplits(params: seq<Value>, n: nat, a: seq<Value>, b: seq<Value>)
    requires Slot(params, n, a + b)
    ensures Slot(params, n, a) && Slot(params, n + |a|, b)
  {
    assert params[n..n + |a|] == params[n..n + |a + b|][..|a|];
    assert params[n + |a|..n + |a| + |b|] == params[n..n + |a + b|][|a|..];
  }

  lemma SaysNothing(q: string, env: Env)
    ensures Says(Rendered([], []), q, env, [])
  {
  }

  /** One predicate. */
  lemma SaysOne(p: Pred, params: seq<Value>, q: string, env: Env, t: Truth)
    requires GoodPred(p, q) && PredCount(p) == |params|
    requires forall n: nat :: Slot(env.params, n, params) ==> PredTruth(p, q, n, env) == t
    ensures Says(Rendered([One(p)], params), q, env, [t])
  {
    forall n: nat | Slot(env.params, n, params) ensures TruthsAt([One(p)], q, n, env, [t]) {
      assert PredTruth(p, q, n, env) == t;
    }
  }

  /** A group, its negation, or its alternatives. */
  lemma SaysGroup(part: Part, g: Rendered, q: string, env: Env, ts: seq<Truth>, t: Truth)
    requires Says(g, q, env, ts) && g.parts != []
    requires match part
             case One(_) => false
             case Group(ps) => ps == g.parts && t == AndAll(ts)
             case AnyOf(ps) => ps == g.parts && t == OrAll(ts)
             case NotGroup(ps) => ps == g.parts && t == Not3(AndAll(ts))
    ensures Says(Rendered([part], g.params), q, env, [t])
  {
    forall n: nat | Slot(env.params, n, g.params) ensures TruthsAt([part], q, n, env, [t]) {
      assert TruthsAt(g.parts, q, n, env, ts);
    }
  }

  // ---- conditions ----

  ghost predicate GoodNames(table: Table, q: string) {
    forall col :: TypeOf(table, col).Some? ==> GoodName(q + col)
  }

  lemma OpSays(table: Table, col: string, op: Op, v: Json, q: string, casts: Casts, env: Env)
    requires GoodName(q + col) && OpParts(table, col, op, v, casts).Ok?
    ensures Says(OpParts(table, col, op, v, casts).value, q, env, OpTruths(table, col, op, v, q, casts, env))
  {
    match op
    case InList =>
      var truths := seq(|v.items|, k requires 0 <= k < |v.items| =>
        env.cmp(Eq, env.row(q + col), Bound(table, col, v.items[k], casts)));
      if v.items == [] {
        SaysOne(Never, [], q, env, False);
      } else {
        var ps := ListParams(table, col, v.items, |v.items|, casts).value;
        forall n: nat | Slot(env.params, n, ps) ensures PredTruth(Among(col, |ps|), q, n, env) == OrAll(truths) {
          ListTruths(env.row(q + col), ps, n, env, truths);
        }
        SaysOne(Among(col, |ps|), ps, q, env, OrAll(truths));
      }
    case CmpWith(c) =>
      if c == Ne && v == JNull {
        SaysOne(NullTest(col, true), [], q, env, TruthOf(env.row(q + col) != NullValue));
      } else if c == Eq && v == JNull {
        SaysOne(NullTest(col, false), [], q, env, TruthOf(env.row(q + col) == NullValue));
      } else {
        BoundSays(table, col, c, v, q, casts, env);
      }
  }

  lemma ListTruths(x: Value, ps: seq<Value>, n: nat, env: Env, truths: seq<Truth>)
    requires Slot(env.params, n, ps) && |truths| == |ps|
    requires forall k :: 0 <= k < |ps| ==> truths[k] == env.cmp(Eq, x, ps[k])
    ensures InTruths(x, Placeholders(n, |ps|), env) == truths
  {
    forall k | 0 <= k < |ps| ensures InTruths(x, Placeholders(n, |ps|), env)[k] == truths[k] {
      assert env.params[n + k] == env.params[n..n + |ps|][k] == ps[k];
      assert Placeholders(n, |ps|)[k] == Placeholder(n + k);
    }
  }

  lemma BoundSays(table: Table, col: string, c: CmpOp, v: Json, q: string, casts: Casts, env: Env)
    requires GoodName(q + col) && ToParamAs(table, col, v, casts).Ok?
    ensures Says(Rendered([One(Comparing(col, c))], [Bound(table, col, v, casts)]), q, env,
                 [env.cmp(c, env.row(q + col), Bound(table, col, v, casts))])
  {
    var p := Bound(table, col, v, casts);
    forall n: nat | Slot(env.params, n, [p])
      ensures PredTruth(Comparing(col, c), q, n, env) == env.cmp(c, env.row(q + col), p)
    {
      assert env.params[n..n + 1][0] == p;
    }
    SaysOne(Comparing(col, c), [p], q, env, env.cmp(c, env.row(q + col), p));
  }

  lemma {:induction false} OpsSay(table: Table, col: string, ops: seq<Field>, k: nat, q: string, casts: Casts, env: Env)
    requires k <= |ops| && GoodName(q + col) && OpsParts(table, col, ops, k, casts).Ok?
    ensures Says(OpsParts(table, col, ops, k, casts).value, q, env, OpsTruths(table, col, ops, k, q, casts, env))
  {
    if k == 0 {
      SaysNothing(q, env);
    } else {
      OpsSay(table, col, ops, k - 1, q, casts, env);
      match SqlOp(ops[k - 1].key)
      case None =>
        assert OpsTruths(table, col, ops, k, q, casts, env) == OpsTruths(table, col, ops, k - 1, q, casts, env);
      case Some(op) =>
        OpSays(table, col, op, ops[k - 1].value, q, casts, env);
        SaysAdd(OpsParts(table, col, ops, k - 1, casts).value, OpParts(table, col, op, ops[k - 1].value, casts).value, q, env,
                OpsTruths(table, col, ops, k - 1, q, casts, env), OpTruths(table, col, op, ops[k - 1].value, q, casts, env));
    }
  }

  lemma CondSays(table: Table, col: string, cond: Json, q: string, casts: Casts, env: Env)
    requires GoodNames(table, q) && CondParts(table, col, cond, casts).Ok?
    ensures Says(CondParts(table, col, cond, casts).value, q, env, CondTruths(table, col, cond, q, casts, env))
  {
    assert GoodName(q + col);
    match cond
    case JNull => SaysOne(NullTest(col, false), [], q, env, TruthOf(env.row(q + col) == NullValue));
    case JObject(ops) => OpsSay(table, col, ops, |ops|, q, casts, env);
    case _ => BoundSays(table, col, Eq, cond, q, casts, env);
  }

  lemma {:induction false} CondsSay(table: Table, w: Json, k: nat, q: string, casts: Casts, env: Env)
    requires w.JObject? && k <= |w.fields| && GoodNames(table, q) && CondsParts(table, w, k, casts).Ok?
    ensures Says(CondsParts(table, w, k, casts).value, q, env, CondsTruths(table, w, k, q, casts, env))
  {
    if k == 0 {
      SaysNothing(q, env);
    } else {
      CondsSay(table, w, k - 1, q, casts, env);
      var f := w.fields[k - 1];
      if Logical(f.key) {
        assert CondsTruths(table, w, k, q, casts, env) == CondsTruths(table, w, k - 1, q, casts, env);
      } else {
        CondSays(table, f.key, f.value, q, casts, env);
        SaysAdd(CondsParts(table, w, k - 1, casts).value, CondParts(table, f.key, f.value, casts).value, q, env,
                CondsTruths(table, w, k - 1, q, casts, env), CondTruths(table, f.key, f.value, q, casts, env));
      }
    }
  }

  // ---- groups ----

  function WrapAll(wrap: Wrap, ts: seq<Truth>): seq<Truth> { if wrap == Plain then ts else NegateAll(ts) }

  lemma NegateConcat(a: seq<Truth>, b: seq<Truth>)
    ensures NegateAll(a + b) == NegateAll(a) + NegateAll(b)
  {
  }

  /** One group, wrapped, or nothing when it says nothing. */
  lemma GroupSays(wrap: Wrap, r: Rendered, q: string, env: Env, ts: seq<Truth>)
    requires Says(r, q, env, ts)
    ensures Says(Rendered(if r.parts == [] then [] else [Wrapped(wrap, r.parts)], r.params), q, env,
                 WrapAll(wrap, if ts == [] then [] else [AndAll(ts)]))
  {
    if r.parts == [] {
      assert r.params == [];
      SaysNothing(q, env);
      assert WrapAll(wrap, []) == [];
    } else {
      var t := if wrap == Plain then AndAll(ts) else Not3(AndAll(ts));
      SaysGroup(Wrapped(wrap, r.parts), r, q, env, ts, t);
      assert WrapAll(wrap, [AndAll(ts)]) == [t];
    }
  }

  lemma SaysGroupMore(wrap: Wrap, before: Rendered, r: Rendered, q: string, env: Env, t0: seq<Truth>, ts: seq<Truth>)
    requires Says(before, q, env, WrapAll(wrap, t0)) && Says(r, q, env, ts)
    ensures Says(Add(before, Rendered(if r.parts == [] then [] else [Wrapped(wrap, r.parts)], r.params)), q, env,
                 WrapAll(wrap, t0 + if ts == [] then [] else [AndAll(ts)]))
  {
    var more := if ts == [] then [] else [AndAll(ts)];
    var wrapped := Rendered(if r.parts == [] then [] else [Wrapped(wrap, r.parts)], r.params);
    GroupSays(wrap, r, q, env, ts);
    SaysAdd(before, wrapped, q, env, WrapAll(wrap, t0), WrapAll(wrap, more));
    NegateConcat(t0, more);
  }

  /** The groups of a list, each wrapped. */
  lemma {:induction false} GroupsSay(table: Table, v: Json, k: nat, wrap: Wrap, q: string, casts: Casts, env: Env)
    requires k <= |Items(v)| && GoodNames(table, q) && GroupParts(table, v, k, wrap, casts).Ok?
    ensures Says(GroupParts(table, v, k, wrap, casts).value, q, env, WrapAll(wrap, GroupTruths(table, v, k, q, casts, env)))
    decreases v, 1, k
  {
    if k == 0 {
      SaysNothing(q, env);
    } else {
      GroupsSay(table, v, k - 1, wrap, q, casts, env);
      var g := Items(v)[k - 1];
      FragSays(table, g, q, casts, env);
      SaysGroupMore(wrap, GroupParts(table, v, k - 1, wrap, casts).value, FragOf(table, g, casts).value, q, env,
                    GroupTruths(table, v, k - 1, q, casts, env), Truths(table, g, q, casts, env));
    }
  }

  lemma {:induction false} AndNotSays(table: Table, w: Json, key: string, wrap: Wrap, q: string, casts: Casts, env: Env)
    requires w.JObject? && GoodNames(table, q) && AndNotParts(table, w, key, wrap, casts).Ok?
    ensures var v := Get(w, key);
            Says(AndNotParts(table, w, key, wrap, casts).value, q, env,
                 if v.None? then [] else WrapAll(wrap, GroupTruths(table, v.value, |Items(v.value)|, q, casts, env)))
    decreases w, 0, 1
  {
    match Get(w, key)
    case None => SaysNothing(q, env);
    case Some(v) => GroupsSay(table, v, |Items(v)|, wrap, q, casts, env);
  }

  function OrTruths(table: Table, w: Json, q: string, casts: Casts, env: Env): seq<Truth>
    requires w.JObject?
  {
    match Get(w, "OR") case None => []
    case Some(v) =>
      if v == JArray([]) then [False] else
        var ts := GroupTruths(table, v, |Items(v)|, q, casts, env);
        if ts == [] then [] else [OrAll(ts)]
  }

  lemma {:induction false} OrSays(table: Table, w: Json, q: string, casts: Casts, env: Env)
    requires w.JObject? && GoodNames(table, q) && OrParts(table, w, casts).Ok?
    ensures Says(OrParts(table, w, casts).value, q, env, OrTruths(table, w, q, casts, env))
    decreases w, 0, 1
  {
    match Get(w, "OR")
    case None => SaysNothing(q, env);
    case Some(v) =>
      if v.items == [] {
        SaysOne(Never, [], q, env, False);
      } else {
        GroupsSay(table, v, |v.items|, Plain, q, casts, env);
        var subs := GroupParts(table, v, |v.items|, Plain, casts).value;
        var ts := GroupTruths(table, v, |v.items|, q, casts, env);
        if subs.parts == [] {
          assert subs.params == [];
          SaysNothing(q, env);
        } else {
          SaysGroup(AnyOf(subs.parts), subs, q, env, ts, OrAll(ts));
        }
      }
  }

  /** The fragment of a tree says what the tree says, conjunct by conjunct. */
  lemma {:induction false} FragSays(table: Table, w: Json, q: string, casts: Casts, env: Env)
    requires w.JObject? && GoodNames(table, q) && FragOf(table, w, casts).Ok?
    ensures Says(FragOf(table, w, casts).value, q, env, Truths(table, w, q, casts, env))
    decreases w, 0, 2
  {
    var conds := CondsParts(table, w, |w.fields|, casts);
    var ands := AndNotParts(table, w, "AND", Plain, casts);
    var ors := OrParts(table, w, casts);
    var nots := AndNotParts(table, w, "NOT", Negated, casts);
    CondsSay(table, w, |w.fields|, q, casts, env);
    AndNotSays(table, w, "AND", Plain, q, casts, env);
    OrSays(table, w, q, casts, env);
    AndNotSays(table, w, "NOT", Negated, q, casts, env);
    var tc := CondsTruths(table, w, |w.fields|, q, casts, env);
    var ta := if Get(w, "AND").None? then [] else
                GroupTruths(table, Get(w, "AND").value, |Items(Get(w, "AND").value)|, q, casts, env);
    var to := OrTruths(table, w, q, casts, env);
    var tn := if Get(w, "NOT").None? then [] else
                NegateAll(GroupTruths(table, Get(w, "NOT").value, |Items(Get(w, "NOT").value)|, q, casts, env));
    SaysAdd(conds.value, ands.value, q, env, tc, ta);
    SaysAdd(Add(conds.value, ands.value), ors.value, q, env, tc + ta, to);
    SaysAdd(Add(Add(conds.value, ands.value), ors.value), nots.value, q, env, tc + ta + to, tn);
  }

  // ---- the main theorem ----

  /** For every where tree that renders: the text is empty exactly when the tree says nothing; otherwise it parses, its
      placeholders are as many as its parameters, and with the n-th placeholder bound to the n-th parameter it has the
      tree's three-valued meaning. */
  lemma TextMeansTree(table: Table, w: Json, q: string, casts: Casts, env: Env)
    requires w.JObject? && GoodNames(table, q) && FragOf(table, w, casts).Ok? && Lawful(env.cmp)
    requires env.params == FragOf(table, w, casts).value.params
    ensures var r := FragOf(table, w, casts).value;
            var text := FragText(r.parts, q);
            && (text == "") == (Truths(table, w, q, casts, env) == [])
            && (text != "" ==>
                  && ParseCondition(text).Some?
                  && ParseOr(Lex(text), 0).n == |r.params|
                  && Eval(ParseCondition(text).value, env) == AndAll(Truths(table, w, q, casts, env)))
  {
    var r := FragOf(table, w, casts).value;
    FragSays(table, w, q, casts, env);
    assert env.params[0..|r.params|] == r.params;
    assert Slot(env.params, 0, r.params);
    assert TruthsAt(r.parts, q, 0, env, Truths(table, w, q, casts, env));
    if r.parts != [] {
      WhereParse.FragMeans(r.parts, q, env);
      assert ParseCondition("").None?;
    }
  }
}
