/** When equal cache keys mean equal SQL: exactly when the table's runs are written uniquely (orm.ts). */
module ShapeKeys {
  import opened Bytes
  import opened SqlExpr
  import opened WhereFrag
  import opened WhereTree
  import opened TsWhere
  import Decimal

  // ---- a sufficient condition on names ----

  lemma FirstNull(x: string, rest: string, p: nat)
    requires !ContainsNull(x) && p < |x|
    ensures !NullAt(x + "null" + rest, p)
  {
    var s := x + "null" + rest;
    if p + 4 <= |x| {
      assert s[p..p + 4] == x[p..p + 4] && !NullAt(x, p);
    } else {
      var k := |x| - p;
      assert p + 4 <= |s| ==> s[p..p + 4][k] == s[|x|] == 'n';
      assert "null"[k] != 'n';
    }
  }

  lemma NullMarks(x: string, rest: string)
    ensures NullAt(x + "null" + rest, |x|)
  {
    assert (x + "null" + rest)[|x|..|x| + 4] == "null";
  }

  /** A name without the marker, followed by the marker, ends where the marker is first seen. */
  lemma SameHead(x: string, r: string, y: string, t: string)
    requires !ContainsNull(x) && !ContainsNull(y) && x + "null" + r == y + "null" + t
    ensures x == y && r == t
  {
    NullMarks(x, r);
    NullMarks(y, t);
    if |x| < |y| {
      FirstNull(y, t, |x|);
    } else if |y| < |x| {
      FirstNull(x, r, |y|);
    }
    assert x == (x + "null" + r)[..|x|] == y;
    assert r == (x + "null" + r)[|x| + 4..] == t;
  }

  lemma {:induction false} RunsDecode(xs: seq<string>, c: string, ys: seq<string>, d: string)
    requires NullsText(xs) + c == NullsText(ys) + d && !ContainsNull(c) && !ContainsNull(d)
    requires forall k :: 0 <= k < |xs| ==> !ContainsNull(xs[k])
    requires forall k :: 0 <= k < |ys| ==> !ContainsNull(ys[k])
    ensures xs == ys && c == d
  {
    if xs == [] && ys == [] {
      assert "" + c == c && "" + d == d;
    } else if xs == [] {
      assert NullsText(ys) + d == c;
      Marked(ys, d);
    } else if ys == [] {
      assert NullsText(xs) + c == d;
      Marked(xs, c);
    } else {
      Regroup(xs, c);
      Regroup(ys, d);
      SameHead(xs[0], NullsText(xs[1..]) + c, ys[0], NullsText(ys[1..]) + d);
      RunsDecode(xs[1..], c, ys[1..], d);
      assert xs == [xs[0]] + xs[1..] && ys == [ys[0]] + ys[1..];
    }
  }

  lemma Regroup(xs: seq<string>, c: string)
    requires xs != []
    ensures NullsText(xs) + c == xs[0] + "null" + (NullsText(xs[1..]) + c)
  {
  }

  lemma Marked(xs: seq<string>, c: string)
    requires xs != []
    ensures ContainsNull(NullsText(xs) + c)
  {
    Regroup(xs, c);
    NullMarks(xs[0], NullsText(xs[1..]) + c);
  }

  /** No column name contains the marker: every run reads back. */
  lemma NoMarkerUnique(cols: seq<string>)
    requires forall k :: 0 <= k < |cols| ==> !ContainsNull(cols[k])
    ensures RunsUnique(cols)
  {
    forall a: Run, b: Run | IsRun(a, cols) && IsRun(b, cols) && a.last.Some? == b.last.Some? && RunText(a) == RunText(b)
      ensures a == b
    {
      var c, d := if a.last.Some? then a.last.value else "", if b.last.Some? then b.last.value else "";
      forall k | 0 <= k < |a.nulls| ensures !ContainsNull(a.nulls[k]) {
        assert RunCols(a)[k] == a.nulls[k];
      }
      forall k | 0 <= k < |b.nulls| ensures !ContainsNull(b.nulls[k]) {
        assert RunCols(b)[k] == b.nulls[k];
      }
      if a.last.Some? {
        assert RunCols(a)[|a.nulls|] == c && RunCols(b)[|b.nulls|] == d;
      }
      RunsDecode(a.nulls, c, b.nulls, d);
    }
  }

  /** A column named like two others around the marker reads two ways. */
  lemma MarkerAmbiguous(cols: seq<string>, a: string, b: string)
    requires a in cols && b in cols && a + "null" + b in cols && a != b
    ensures !RunsUnique(cols)
  {
    var x, y := Run([a], Some(b)), Run([], Some(a + "null" + b));
    assert RunCols(x) == [a, b] && RunCols(y) == [a + "null" + b];
    assert NullsText([a]) == a + "null" + NullsText([]);
    assert RunText(x) == RunText(y);
  }

  // ---- splitting at the first character that is not part of a name ----

  predicate AllIdent(s: string) { forall k :: 0 <= k < |s| ==> IdentChar(s[k]) }

  predicate Delimited(s: string) { s == "" || !IdentChar(s[0]) }

  function IdentEnd(s: string): nat { if s == "" || !IdentChar(s[0]) then 0 else 1 + IdentEnd(s[1..]) }

  lemma {:induction false} IdentEndIs(a: string, x: string)
    requires AllIdent(a) && Delimited(x)
    ensures IdentEnd(a + x) == |a|
  {
    if a == "" {
      assert a + x == x;
    } else {
      assert (a + x)[1..] == a[1..] + x;
      IdentEndIs(a[1..], x);
    }
  }

  lemma IdentSplit(a: string, x: string, b: string, y: string)
    requires AllIdent(a) && AllIdent(b) && Delimited(x) && Delimited(y) && a + x == b + y
    ensures a == b && x == y
  {
    IdentEndIs(a, x);
    IdentEndIs(b, y);
    SameCut(a, x, b, y);
  }

  predicate AllDigits(s: string) { forall k :: 0 <= k < |s| ==> '0' <= s[k] <= '9' }

  /** Where the trailing number starts. */
  function DigitStart(s: string): nat {
    if s == "" || !('0' <= s[|s| - 1] <= '9') then |s| else DigitStart(s[..|s| - 1])
  }

  lemma {:induction false} DigitStartIs(a: string, x: string)
    requires a != "" && !('0' <= a[|a| - 1] <= '9') && AllDigits(x)
    ensures DigitStart(a + x) == |a|
  {
    if x == "" {
      assert a + x == a;
    } else {
      assert (a + x)[..|a + x| - 1] == a + x[..|x| - 1];
      DigitStartIs(a, x[..|x| - 1]);
    }
  }

  /** Splitting off a trailing number. */
  lemma DigitSplit(a: string, x: string, b: string, y: string)
    requires a != "" && b != "" && !('0' <= a[|a| - 1] <= '9') && !('0' <= b[|b| - 1] <= '9')
    requires AllDigits(x) && AllDigits(y) && a + x == b + y
    ensures a == b && x == y
  {
    DigitStartIs(a, x);
    DigitStartIs(b, y);
    SameCut(a, x, b, y);
  }

  lemma {:induction false} NullsIdent(xs: seq<string>)
    requires GoodColumns(xs)
    ensures AllIdent(NullsText(xs))
    ensures xs != [] ==> NullsText(xs) != "" && NullsText(xs)[|NullsText(xs)| - 1] == 'l'
  {
    if xs != [] {
      NullsIdent(xs[1..]);
      assert IsIdent(xs[0]);
    }
  }

  // ---- operators read back ----

  /** What follows an operator's name. */
  function OpRest(o: OpShape): string {
    match o case NullOp(_) => ":null," case PlainOp(_) => "," case InOp(n) => ":" + Decimal.Text(n) + ","
  }

  function OpWord(o: OpShape): string { if o.InOp? then "in" else OpName(o.op) }

  lemma OpWordIdent(o: OpShape)
    ensures AllIdent(OpWord(o))
  {
  }

  lemma OpRestDelimited(o: OpShape, rest: string)
    ensures Delimited(OpRest(o) + rest)
  {
    assert (OpRest(o) + rest)[0] == OpRest(o)[0];
  }

  lemma InText(digits: string)
    ensures "in:" + digits + "," == "in" + (":" + digits + ",")
  {
  }

  lemma OpKeyIs(o: OpShape, rest: string)
    ensures OpKey(o) + rest == OpWord(o) + (OpRest(o) + rest) && AllIdent(OpWord(o)) && Delimited(OpRest(o) + rest)
  {
    OpWordIdent(o);
    OpRestDelimited(o, rest);
    assert OpKey(o) == OpWord(o) + OpRest(o) by {
      match o case InOp(n) => InText(Decimal.Text(n)); case _ =>
    }
    Assoc(OpWord(o), OpRest(o), rest);
  }

  lemma OpWordsDiffer(a: OpShape, b: OpShape)
    requires OpWord(a) == OpWord(b)
    ensures a.InOp? == b.InOp? && (!a.InOp? ==> a.op == b.op)
  {
    var w := OpWord(a);
    assert |w| == |OpWord(b)|;
  }

  lemma MarksDiffer(x: string, y: string)
    ensures ":null," + x != "," + y
  {
    assert (":null," + x)[0] == ':' && ("," + y)[0] == ',';
  }

  lemma CountReads(m: nat, x: string, n: nat, y: string)
    requires ":" + Decimal.Text(m) + "," + x == ":" + Decimal.Text(n) + "," + y
    ensures m == n && x == y
  {
    var u, v := Decimal.Text(m), Decimal.Text(n);
    CountText(u, x);
    CountText(v, y);
    SameCut(":", u + ("," + x), ":", v + ("," + y));
    IdentSplit(u, "," + x, v, "," + y);
    SameCut(",", x, ",", y);
    Decimal.TextInjective(m, n);
  }

  lemma CountText(u: string, x: string)
    ensures ":" + u + "," + x == ":" + (u + ("," + x))
  {
  }

  lemma OpReads(a: OpShape, x: string, b: OpShape, y: string)
    requires OpKey(a) + x == OpKey(b) + y
    ensures a == b && x == y
  {
    OpKeyIs(a, x);
    OpKeyIs(b, y);
    IdentSplit(OpWord(a), OpRest(a) + x, OpWord(b), OpRest(b) + y);
    OpWordsDiffer(a, b);
    match (a, b)
    case (InOp(m), InOp(n)) => CountReads(m, x, n, y);
    case (NullOp(_), NullOp(_)) => SameCut(":null,", x, ":null,", y);
    case (PlainOp(_), PlainOp(_)) => SameCut(",", x, ",", y);
    case (NullOp(_), PlainOp(_)) => MarksDiffer(x, y);
    case (PlainOp(_), NullOp(_)) => MarksDiffer(y, x);
  }

  lemma OpsKeyIs(ops: seq<OpShape>, t: string)
    requires ops != []
    ensures OpsKey(ops) + t == OpKey(ops[0]) + (OpsKey(ops[1..]) + t)
    ensures OpsKey(ops) + t != "" && IdentChar((OpsKey(ops) + t)[0])
  {
    var head, rest := OpKey(ops[0]), OpsKey(ops[1..]);
    assert OpsKey(ops) + t == head + (rest + t) by { Assoc(head, rest, t); }
    OpKeyHead(ops[0]);
    SameFirst(head, rest + t);
  }

  lemma OpKeyHead(o: OpShape)
    ensures OpKey(o) != "" && IdentChar(OpKey(o)[0])
  {
  }

  lemma SameFirst(a: string, b: string)
    requires a != ""
    ensures a + b != "" && (a + b)[0] == a[0]
  {
  }

  lemma BraceHead(x: string)
    ensures "}" + x != "" && !IdentChar(("}" + x)[0]) && "" + ("}" + x) == "}" + x
  {
  }

  lemma {:induction false} OpsRead(a: seq<OpShape>, x: string, b: seq<OpShape>, y: string)
    requires OpsKey(a) + ("}" + x) == OpsKey(b) + ("}" + y)
    ensures a == b && x == y
  {
    BraceHead(x);
    BraceHead(y);
    if a == [] && b == [] {
      SameCut("}", x, "}", y);
    } else if a == [] {
      OpsKeyIs(b, "}" + y);
    } else if b == [] {
      OpsKeyIs(a, "}" + x);
    } else {
      OpsKeyIs(a, "}" + x);
      OpsKeyIs(b, "}" + y);
      OpReads(a[0], OpsKey(a[1..]) + ("}" + x), b[0], OpsKey(b[1..]) + ("}" + y));
      OpsRead(a[1..], x, b[1..], y);
      assert a == [a[0]] + a[1..] && b == [b[0]] + b[1..];
    }
  }
}
