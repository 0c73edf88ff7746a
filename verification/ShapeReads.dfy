/** Cache keys read back to the shapes they were made from (orm.ts). */
module ShapeReads {
  import opened Bytes
  import opened SqlExpr
  import opened WhereFrag
  import opened WhereTree
  import opened TsWhere
  import opened ShapeKeys
  import Decimal

  // ---- what may follow the conditions of a group ----

  datatype Mark = NoMark | AndMark | OrCount(n: nat) | NotMark

  function MarkText(m: Mark): string {
    match m case NoMark => "" case AndMark => "AND" case OrCount(n) => "OR" + Decimal.Text(n) case NotMark => "NOT"
  }

  /** A logical key and its bracket, or the end of the group. */
  predicate Follows(m: Mark, v: string) {
    if m == NoMark then v == "" || v[0] == ';' || v[0] == ']' else v != "" && v[0] == '['
  }

  lemma MarkIdent(m: Mark)
    ensures AllIdent(MarkText(m))
  {
  }

  lemma MarkInjective(a: Mark, b: Mark)
    requires MarkText(a) == MarkText(b)
    ensures a == b
  {
    MarkHead(a);
    MarkHead(b);
    if a.OrCount? {
      SameCut("OR", Decimal.Text(a.n), "OR", Decimal.Text(b.n));
      Decimal.TextInjective(a.n, b.n);
    }
  }

  lemma MarkHead(m: Mark)
    ensures (m == NoMark) == (MarkText(m) == "")
    ensures m != NoMark ==> MarkText(m)[0] == if m.OrCount? then 'O' else if m.AndMark? then 'A' else 'N'
  {
  }

  // ---- the leading run of a list of conditions ----

  predicate GoodConds(conds: seq<CondShape>, cols: seq<string>) {
    && (forall k :: 0 <= k < |conds| ==> conds[k].col in cols)
    && (forall i, j :: 0 <= i < j < |conds| ==> conds[i].col != conds[j].col)
  }

  function LeadRun(conds: seq<CondShape>): Run {
    if conds == [] then Run([], None)
    else if conds[0].NullShape? then
      var r := LeadRun(conds[1..]);
      Run([conds[0].col] + r.nulls, r.last)
    else Run([], Some(conds[0].col))
  }

  /** The condition that ends the run, and those after it. */
  function Ending(conds: seq<CondShape>): Option<CondShape> {
    if conds == [] then None else if conds[0].NullShape? then Ending(conds[1..]) else Some(conds[0])
  }

  function Later(conds: seq<CondShape>): (r: seq<CondShape>)
    ensures |r| <= |conds| && (Ending(conds).Some? ==> |r| < |conds|)
  {
    if conds == [] then [] else if conds[0].NullShape? then Later(conds[1..]) else conds[1..]
  }

  function EndingText(c: CondShape, rest: string): string {
    match c
    case NullShape(_) => rest
    case EqShape(_) => "=" + rest
    case OpsShape(_, ops) => "{" + (OpsKey(ops) + ("}" + rest))
  }

  /** What follows the run. */
  function After(conds: seq<CondShape>, u: string): string {
    match Ending(conds)
    case None => u
    case Some(c) => EndingText(c, CondsKey(Later(conds)) + u)
  }

  lemma OpsEndText(col: string, ops: seq<OpShape>, rest: string, u: string)
    ensures col + "{" + OpsKey(ops) + "}" + rest + u == col + ("{" + (OpsKey(ops) + ("}" + (rest + u))))
  {
  }

  lemma EqEndText(col: string, rest: string, u: string)
    ensures col + "=" + rest + u == col + ("=" + (rest + u))
  {
  }

  lemma NullEndText(col: string, rest: string, run: string, after: string, u: string)
    requires rest + u == run + after
    ensures col + "null" + rest + u == (col + "null" + run) + after
  {
    assert col + "null" + rest + u == col + "null" + (rest + u);
  }

  lemma {:induction false} CondsKeyIs(conds: seq<CondShape>, u: string)
    ensures CondsKey(conds) + u == RunText(LeadRun(conds)) + After(conds, u)
  {
    if conds == [] {
      assert "" + u == u;
    } else {
      var c, rest := conds[0], CondsKey(conds[1..]);
      match c
      case NullShape(col) =>
        CondsKeyIs(conds[1..], u);
        var r := LeadRun(conds[1..]);
        NullEndText(col, rest, RunText(r), After(conds[1..], u), u);
        RunTextCons(col, r);
      case EqShape(col) =>
        EqEndText(col, rest, u);
        assert RunText(LeadRun(conds)) == "" + col == col;
      case OpsShape(col, ops) =>
        OpsEndText(col, ops, rest, u);
        assert RunText(LeadRun(conds)) == "" + col == col;
    }
  }

  lemma RunTextCons(col: string, r: Run)
    ensures RunText(Run([col] + r.nulls, r.last)) == col + "null" + RunText(r)
  {
    assert ([col] + r.nulls)[1..] == r.nulls;
  }

  lemma RunColsCons(col: string, r: Run)
    ensures RunCols(Run([col] + r.nulls, r.last)) == [col] + RunCols(r)
  {
  }

  lemma {:induction false} LeadIsRun(conds: seq<CondShape>, cols: seq<string>)
    requires GoodConds(conds, cols)
    ensures IsRun(LeadRun(conds), cols)
    ensures |RunCols(LeadRun(conds))| <= |conds|
    ensures forall k :: 0 <= k < |RunCols(LeadRun(conds))| ==> RunCols(LeadRun(conds))[k] == conds[k].col
    ensures LeadRun(conds).last.Some? == Ending(conds).Some?
    ensures Ending(conds).Some? ==> !Ending(conds).value.NullShape? && LeadRun(conds).last == Some(Ending(conds).value.col)
    ensures GoodConds(Later(conds), cols)
  {
    if conds != [] && conds[0].NullShape? {
      LeadIsRun(conds[1..], cols);
      RunColsCons(conds[0].col, LeadRun(conds[1..]));
    } else if conds != [] {
      assert RunCols(LeadRun(conds)) == [conds[0].col];
    }
  }

  /** A list is its leading run, the condition that ends it, and the rest. */
  lemma {:induction false} LeadDetermines(a: seq<CondShape>, b: seq<CondShape>)
    requires LeadRun(a) == LeadRun(b) && Ending(a) == Ending(b) && Later(a) == Later(b)
    ensures a == b
  {
    if a != [] && a[0].NullShape? {
      assert LeadRun(a).nulls != [];
      assert b != [] && b[0].NullShape?;
      var x, y := LeadRun(a[1..]), LeadRun(b[1..]);
      assert LeadRun(a).nulls[1..] == x.nulls && LeadRun(b).nulls[1..] == y.nulls;
      assert LeadRun(a).nulls[0] == a[0].col && LeadRun(b).nulls[0] == b[0].col;
      LeadDetermines(a[1..], b[1..]);
      assert a == [a[0]] + a[1..] && b == [b[0]] + b[1..];
    } else if a != [] {
      assert b != [] && !b[0].NullShape?;
      assert a == [a[0]] + a[1..] && b == [b[0]] + b[1..];
    }
  }

  lemma RunIdent(r: Run, cols: seq<string>)
    requires IsRun(r, cols) && GoodColumns(cols)
    ensures AllIdent(RunText(r))
    ensures r.last.None? && r.nulls != [] ==> RunText(r) != "" && RunText(r)[|RunText(r)| - 1] == 'l'
  {
    forall k | 0 <= k < |r.nulls| ensures IsIdent(r.nulls[k]) {
      assert RunCols(r)[k] == r.nulls[k];
    }
    NullsIdent(r.nulls);
    if r.last.Some? {
      assert RunCols(r)[|r.nulls|] == r.last.value;
      assert IsIdent(r.last.value);
    } else {
      assert RunText(r) == NullsText(r.nulls);
    }
  }

  // ---- marks read back behind nulls ----

  predicate EndsLikeNulls(n: string) { n == "" || n[|n| - 1] == 'l' }

  lemma MarkEnds(n: string, m: Mark)
    requires m != NoMark
    ensures n + MarkText(m) != ""
    ensures var c := (n + MarkText(m))[|n + MarkText(m)| - 1];
            (m == AndMark ==> c == 'D') && (m == NotMark ==> c == 'T') && (m.OrCount? ==> '0' <= c <= '9')
  {
  }

  lemma OrMarkText(n: string, count: nat)
    ensures n + MarkText(OrCount(count)) == (n + "OR") + Decimal.Text(count)
    ensures n + "OR" != "" && (n + "OR")[|n + "OR"| - 1] == 'R'
  {
    Assoc(n, "OR", Decimal.Text(count));
    assert "OR"[1] == 'R';
  }

  lemma MarkReads(x: string, a: Mark, y: string, b: Mark)
    requires a != NoMark && b != NoMark && x + MarkText(a) == y + MarkText(b)
    ensures x == y && a == b
  {
    MarkEnds(x, a);
    MarkEnds(y, b);
    if a.OrCount? {
      OrMarkText(x, a.n);
      OrMarkText(y, b.n);
      DigitSplit(x + "OR", Decimal.Text(a.n), y + "OR", Decimal.Text(b.n));
      Decimal.TextInjective(a.n, b.n);
      SameCut(x, "OR", y, "OR");
    } else {
      SameCut(x, MarkText(a), y, MarkText(b));
    }
  }

  // ---- conditions read back ----

  /** The first delimiter tells how the run ended. */
  lemma EndingHead(c: CondShape, rest: string)
    requires !c.NullShape?
    ensures var v := EndingText(c, rest); v != "" && v[0] == (if c.EqShape? then '=' else '{') && Delimited(v)
  {
  }

  lemma EndingReads(a: CondShape, x: string, b: CondShape, y: string)
    requires !a.NullShape? && !b.NullShape? && a.col == b.col && EndingText(a, x) == EndingText(b, y)
    ensures a == b && x == y
  {
    EndingHead(a, x);
    EndingHead(b, y);
    if a.EqShape? {
      SameCut("=", x, "=", y);
    } else {
      SameCut("{", OpsKey(a.ops) + ("}" + x), "{", OpsKey(b.ops) + ("}" + y));
      OpsRead(a.ops, x, b.ops, y);
    }
  }

  lemma CondsHead(conds: seq<CondShape>, m: Mark, v: string, cols: seq<string>)
    requires GoodConds(conds, cols) && GoodColumns(cols) && Follows(m, v)
    ensures var run := RunText(LeadRun(conds));
            var tail := if Ending(conds).Some? then After(conds, MarkText(m) + v) else v;
            var word := if Ending(conds).Some? then run else run + MarkText(m);
            && CondsKey(conds) + (MarkText(m) + v) == word + tail
            && AllIdent(word) && Delimited(tail)
            && (Ending(conds).Some? ==> tail != "" && tail[0] in "={")
            && (Ending(conds).None? ==> EndsLikeNulls(run))
  {
    var run := LeadRun(conds);
    assert AllIdent(RunText(run)) && (Ending(conds).None? ==> EndsLikeNulls(RunText(run))) by {
      LeadIsRun(conds, cols);
      RunIdent(run, cols);
    }
    CondsKeyIs(conds, MarkText(m) + v);
    if Ending(conds).Some? {
      EndingShown(conds, cols);
      EndingHead(Ending(conds).value, CondsKey(Later(conds)) + (MarkText(m) + v));
    } else {
      MarkIdent(m);
      Assoc(RunText(run), MarkText(m), v);
    }
  }

  lemma EndingShown(conds: seq<CondShape>, cols: seq<string>)
    requires GoodConds(conds, cols) && Ending(conds).Some?
    ensures !Ending(conds).value.NullShape?
  {
    LeadIsRun(conds, cols);
  }

  lemma SameLead(a: seq<CondShape>, b: seq<CondShape>, cols: seq<string>)
    requires GoodConds(a, cols) && GoodConds(b, cols) && RunsUnique(cols)
    requires Ending(a).Some? == Ending(b).Some? && RunText(LeadRun(a)) == RunText(LeadRun(b))
    ensures LeadRun(a) == LeadRun(b)
  {
    LeadIsRun(a, cols);
    LeadIsRun(b, cols);
  }

  lemma SameEnding(a: seq<CondShape>, x: string, b: seq<CondShape>, y: string, cols: seq<string>)
    requires GoodConds(a, cols) && GoodConds(b, cols) && LeadRun(a) == LeadRun(b)
    requires Ending(a).Some? && Ending(b).Some? && After(a, x) == After(b, y)
    ensures Ending(a) == Ending(b) && CondsKey(Later(a)) + x == CondsKey(Later(b)) + y
    ensures GoodConds(Later(a), cols) && GoodConds(Later(b), cols)
  {
    LeadIsRun(a, cols);
    LeadIsRun(b, cols);
    EndingReads(Ending(a).value, CondsKey(Later(a)) + x, Ending(b).value, CondsKey(Later(b)) + y);
  }

  /** The conditions and the mark behind them. */
  lemma {:induction false} CondsRead(a: seq<CondShape>, m: Mark, v: string, b: seq<CondShape>, n: Mark, w: string, cols: seq<string>)
    requires GoodConds(a, cols) && GoodConds(b, cols) && GoodColumns(cols) && RunsUnique(cols)
    requires Follows(m, v) && Follows(n, w)
    requires CondsKey(a) + (MarkText(m) + v) == CondsKey(b) + (MarkText(n) + w)
    ensures a == b && m == n && v == w
    decreases |a|
  {
    HeadsAgree(a, m, v, b, n, w, cols);
    if Ending(a).Some? {
      SameLead(a, b, cols);
      SameEnding(a, MarkText(m) + v, b, MarkText(n) + w, cols);
      CondsRead(Later(a), m, v, Later(b), n, w, cols);
    } else {
      MarksRead(RunText(LeadRun(a)), m, v, RunText(LeadRun(b)), n, w);
      SameLead(a, b, cols);
      NoEnding(a);
      NoEnding(b);
    }
    LeadDetermines(a, b);
  }

  function HeadWord(conds: seq<CondShape>, m: Mark): string {
    RunText(LeadRun(conds)) + if Ending(conds).Some? then "" else MarkText(m)
  }

  function HeadTail(conds: seq<CondShape>, m: Mark, v: string): string {
    if Ending(conds).Some? then After(conds, MarkText(m) + v) else v
  }

  /** Both keys end their first run the same way. */
  lemma HeadsAgree(a: seq<CondShape>, m: Mark, v: string, b: seq<CondShape>, n: Mark, w: string, cols: seq<string>)
    requires GoodConds(a, cols) && GoodConds(b, cols) && GoodColumns(cols) && Follows(m, v) && Follows(n, w)
    requires CondsKey(a) + (MarkText(m) + v) == CondsKey(b) + (MarkText(n) + w)
    ensures Ending(a).Some? == Ending(b).Some?
    ensures Ending(a).Some? ==> RunText(LeadRun(a)) == RunText(LeadRun(b)) && After(a, MarkText(m) + v) == After(b, MarkText(n) + w)
    ensures Ending(a).None? ==> RunText(LeadRun(a)) + MarkText(m) == RunText(LeadRun(b)) + MarkText(n) && v == w
  {
    HeadIs(a, m, v, cols);
    HeadIs(b, n, w, cols);
    IdentSplit(HeadWord(a, m), HeadTail(a, m, v), HeadWord(b, n), HeadTail(b, n, w));
    assert RunText(LeadRun(a)) + "" == RunText(LeadRun(a)) && RunText(LeadRun(b)) + "" == RunText(LeadRun(b));
  }

  lemma HeadIs(conds: seq<CondShape>, m: Mark, v: string, cols: seq<string>)
    requires GoodConds(conds, cols) && GoodColumns(cols) && Follows(m, v)
    ensures CondsKey(conds) + (MarkText(m) + v) == HeadWord(conds, m) + HeadTail(conds, m, v)
    ensures AllIdent(HeadWord(conds, m)) && Delimited(HeadTail(conds, m, v))
    ensures Ending(conds).Some? == (HeadTail(conds, m, v) != "" && HeadTail(conds, m, v)[0] in "={")
  {
    CondsHead(conds, m, v, cols);
    assert RunText(LeadRun(conds)) + "" == RunText(LeadRun(conds));
  }

  lemma MarksRead(x: string, m: Mark, v: string, y: string, n: Mark, w: string)
    requires Follows(m, v) && Follows(n, w) && v == w && x + MarkText(m) == y + MarkText(n)
    ensures x == y && m == n
  {
    if m != NoMark {
      MarkReads(x, m, y, n);
    } else {
      assert x + "" == x && y + "" == y;
    }
  }

  lemma {:induction false} NoEnding(a: seq<CondShape>)
    requires Ending(a).None?
    ensures Later(a) == []
  {
    if a != [] {
      NoEnding(a[1..]);
    }
  }

  // ---- logical groups read back ----

  ghost predicate Tailed(u: string, m: Mark, v: string) {
    u == MarkText(m) + v && Follows(m, v)
  }

  /** A logical key that may be there, and what follows it. */
  function Optional(m: Mark, gs: Shapes, q: string, u: string): string {
    LogicKey(MarkText(m), gs, q) + u
  }

  /** What follows a mark: its bracketed groups. */
  function Bracket(gs: seq<Shape>, q: string, u: string): string {
    "[" + (GroupsKey(gs, q) + ("]" + u))
  }

  lemma OptionalTailed(m: Mark, gs: Shapes, q: string, u: string, n: Mark, v: string)
    requires m != NoMark && Tailed(u, n, v)
    ensures gs.NoShapes? ==> Tailed(Optional(m, gs, q, u), n, v)
    ensures gs.Shapes? ==> Tailed(Optional(m, gs, q, u), m, Bracket(gs.list, q, u))
  {
    if gs.NoShapes? {
      assert "" + u == u;
    } else {
      BracketText(MarkText(m), GroupsKey(gs.list, q), u);
    }
  }

  lemma BracketText(m: string, g: string, u: string)
    ensures m + "[" + g + "]" + u == m + ("[" + (g + ("]" + u)))
  {
  }

  lemma TailedSame(m: Mark, v: string, n: Mark, w: string)
    requires MarkText(m) + v == MarkText(n) + w && Follows(m, v) && Follows(n, w)
    ensures m == n && v == w
  {
    MarkIdent(m);
    MarkIdent(n);
    IdentSplit(MarkText(m), v, MarkText(n), w);
    MarkInjective(m, n);
  }

  /** The logical keys of a group and what follows, as one tail. */
  function Logic(s: Shape, q: string, t: string): string {
    LogicKey("AND", s.ands, q) + (LogicKey(OrMark(s.ors), s.ors, q) + (LogicKey("NOT", s.nots, q) + t))
  }

  function OrCountOf(gs: Shapes): Mark { if gs.Shapes? then OrCount(|gs.list|) else OrCount(0) }

  /** The part after AND, and the part after OR. */
  function AfterAnd(s: Shape, q: string, t: string): string { Optional(OrCountOf(s.ors), s.ors, q, AfterOr(s, q, t)) }

  function AfterOr(s: Shape, q: string, t: string): string { Optional(NotMark, s.nots, q, t) }

  lemma LogicIs(s: Shape, q: string, t: string)
    ensures Logic(s, q, t) == Optional(AndMark, s.ands, q, AfterAnd(s, q, t))
  {
  }

  predicate GroupEnd(t: string) { t == "" || t[0] == ';' || t[0] == ']' }

  lemma NotTailed(s: Shape, q: string, t: string) returns (m: Mark, v: string)
    requires GroupEnd(t)
    ensures Tailed(AfterOr(s, q, t), m, v) && (m == NoMark || m == NotMark)
    ensures if s.nots.Shapes? then m == NotMark && v == Bracket(s.nots.list, q, t) else m == NoMark && v == t
  {
    assert "" + t == t;
    assert Tailed(t, NoMark, t);
    OptionalTailed(NotMark, s.nots, q, t, NoMark, t);
    if s.nots.Shapes? {
      m, v := NotMark, Bracket(s.nots.list, q, t);
    } else {
      m, v := NoMark, t;
    }
  }

  lemma OrTailed(s: Shape, q: string, t: string) returns (m: Mark, v: string)
    requires GroupEnd(t)
    ensures Tailed(AfterAnd(s, q, t), m, v) && m != AndMark && m.OrCount? == s.ors.Shapes?
    ensures s.ors.Shapes? ==> m == OrCount(|s.ors.list|) && v == Bracket(s.ors.list, q, AfterOr(s, q, t))
    ensures s.ors.NoShapes? ==> AfterAnd(s, q, t) == AfterOr(s, q, t)
  {
    var n, w := NotTailed(s, q, t);
    OptionalTailed(OrCountOf(s.ors), s.ors, q, AfterOr(s, q, t), n, w);
    if s.ors.Shapes? {
      m, v := OrCountOf(s.ors), Bracket(s.ors.list, q, AfterOr(s, q, t));
    } else {
      m, v := n, w;
      assert "" + AfterOr(s, q, t) == AfterOr(s, q, t);
    }
  }

  lemma AndTailed(s: Shape, q: string, t: string) returns (m: Mark, v: string)
    requires GroupEnd(t)
    ensures Tailed(Logic(s, q, t), m, v) && (m == AndMark) == s.ands.Shapes?
    ensures s.ands.Shapes? ==> v == Bracket(s.ands.list, q, AfterAnd(s, q, t))
    ensures s.ands.NoShapes? ==> Logic(s, q, t) == AfterAnd(s, q, t)
  {
    var n, w := OrTailed(s, q, t);
    LogicIs(s, q, t);
    OptionalTailed(AndMark, s.ands, q, AfterAnd(s, q, t), n, w);
    if s.ands.Shapes? {
      m, v := AndMark, Bracket(s.ands.list, q, AfterAnd(s, q, t));
    } else {
      m, v := n, w;
      assert "" + AfterAnd(s, q, t) == AfterAnd(s, q, t);
    }
  }

  lemma KeyText(s: Shape, q: string, t: string)
    ensures ShapeKey(s, q) + t == q + (CondsKey(s.conds) + Logic(s, q, t))
  {
    var a, b, c := LogicKey("AND", s.ands, q), LogicKey(OrMark(s.ors), s.ors, q), LogicKey("NOT", s.nots, q);
    FiveTexts(q, CondsKey(s.conds), a, b, c, t);
  }

  lemma FiveTexts(q: string, k: string, a: string, b: string, c: string, t: string)
    ensures q + (k + (a + (b + c))) + t == q + (k + (a + (b + (c + t))))
  {
    Assoc(b, c, t);
    Assoc(a, b + c, t);
    Assoc(k, a + (b + c), t);
    Assoc(q, k + (a + (b + c)), t);
  }

  /** A group's key never starts like the end of the list. */
  lemma KeyHead(s: Shape, q: string, u: string, cols: seq<string>)
    requires GoodShape(s, cols) && GoodColumns(cols) && GoodQualifier(q)
    ensures ShapeKey(s, q) + (";" + u) != "" && (ShapeKey(s, q) + (";" + u))[0] != ']'
  {
    KeyText(s, q, ";" + u);
    var m, v := AndTailed(s, q, ";" + u);
    if q != "" {
      assert IsIdent(q[..|q| - 1]) && q[0] == q[..|q| - 1][0];
    } else if s.conds != [] {
      assert IsIdent(s.conds[0].col);
    } else {
      assert "" + ("" + Logic(s, q, ";" + u)) == Logic(s, q, ";" + u);
      MarkHead(m);
    }
  }

  lemma GroupsText(gs: seq<Shape>, q: string, u: string)
    requires gs != []
    ensures GroupsKey(gs, q) + ("]" + u) == ShapeKey(gs[0], q) + (";" + (GroupsKey(gs[1..], q) + ("]" + u)))
  {
    var k, r := ShapeKey(gs[0], q), GroupsKey(gs[1..], q);
    assert k + ";" + r == k + (";" + r);
    Assoc(k, ";" + r, "]" + u);
    Assoc(";", r, "]" + u);
  }

  /** A list has ended exactly when the bracket comes. */
  lemma ListHead(gs: seq<Shape>, q: string, u: string, cols: seq<string>)
    requires (gs != [] ==> GoodShape(gs[0], cols)) && GoodColumns(cols) && GoodQualifier(q)
    ensures var t := GroupsKey(gs, q) + ("]" + u); t != "" && (t[0] == ']' <==> gs == [])
    ensures gs == [] ==> GroupsKey(gs, q) + ("]" + u) == "]" + u
  {
    if gs == [] {
      assert "" + ("]" + u) == "]" + u && ("]" + u)[0] == ']';
    } else {
      GroupsText(gs, q, u);
      KeyHead(gs[0], q, GroupsKey(gs[1..], q) + ("]" + u), cols);
    }
  }

  lemma ConsShapes(a: seq<Shape>, b: seq<Shape>)
    requires a != [] && b != [] && a[0] == b[0] && a[1..] == b[1..]
    ensures a == b
  {
    assert a == [a[0]] + a[1..] && b == [b[0]] + b[1..];
  }

  lemma {:induction false} GroupsRead(a: seq<Shape>, x: string, b: seq<Shape>, y: string, q: string, cols: seq<string>)
    requires forall k :: 0 <= k < |a| ==> GoodShape(a[k], cols)
    requires forall k :: 0 <= k < |b| ==> GoodShape(b[k], cols)
    requires GoodColumns(cols) && RunsUnique(cols) && GoodQualifier(q)
    requires GroupsKey(a, q) + ("]" + x) == GroupsKey(b, q) + ("]" + y)
    ensures a == b && x == y
    decreases a
  {
    ListHead(a, q, x, cols);
    ListHead(b, q, y, cols);
    if a == [] {
      SameCut("]", x, "]", y);
    } else {
      GroupsText(a, q, x);
      GroupsText(b, q, y);
      var u, v := GroupsKey(a[1..], q) + ("]" + x), GroupsKey(b[1..], q) + ("]" + y);
      ShapeReads(a[0], ";" + u, b[0], ";" + v, q, cols);
      SameCut(";", u, ";", v);
      GroupsRead(a[1..], x, b[1..], y, q, cols);
      ConsShapes(a, b);
    }
  }

  lemma BracketReads(a: Shapes, x: string, b: Shapes, y: string, q: string, cols: seq<string>)
    requires a.Shapes? && b.Shapes? && GoodGroups(a, cols) && GoodGroups(b, cols)
    requires GoodColumns(cols) && RunsUnique(cols) && GoodQualifier(q)
    requires Bracket(a.list, q, x) == Bracket(b.list, q, y)
    ensures a == b && x == y
    decreases a
  {
    SameCut("[", GroupsKey(a.list, q) + ("]" + x), "[", GroupsKey(b.list, q) + ("]" + y));
    GroupsRead(a.list, x, b.list, y, q, cols);
  }

  lemma AndsRead(a: Shape, x: string, b: Shape, y: string, q: string, cols: seq<string>)
    requires GoodShape(a, cols) && GoodShape(b, cols) && GoodColumns(cols) && RunsUnique(cols) && GoodQualifier(q)
    requires GroupEnd(x) && GroupEnd(y) && a.ands.Shapes? == b.ands.Shapes?
    requires if a.ands.Shapes? then Bracket(a.ands.list, q, AfterAnd(a, q, x)) == Bracket(b.ands.list, q, AfterAnd(b, q, y))
             else AfterAnd(a, q, x) == AfterAnd(b, q, y)
    ensures a.ands == b.ands && AfterAnd(a, q, x) == AfterAnd(b, q, y)
    decreases a, 0
  {
    if a.ands.Shapes? {
      BracketReads(a.ands, AfterAnd(a, q, x), b.ands, AfterAnd(b, q, y), q, cols);
    }
  }

  lemma OrsRead(a: Shape, x: string, b: Shape, y: string, q: string, cols: seq<string>)
    requires GoodShape(a, cols) && GoodShape(b, cols) && GoodColumns(cols) && RunsUnique(cols) && GoodQualifier(q)
    requires GroupEnd(x) && GroupEnd(y) && AfterAnd(a, q, x) == AfterAnd(b, q, y)
    ensures a.ors == b.ors && AfterOr(a, q, x) == AfterOr(b, q, y)
    decreases a, 0
  {
    var m, v := OrTailed(a, q, x);
    var n, w := OrTailed(b, q, y);
    TailedSame(m, v, n, w);
    if a.ors.Shapes? {
      BracketReads(a.ors, AfterOr(a, q, x), b.ors, AfterOr(b, q, y), q, cols);
    }
  }

  lemma NotsRead(a: Shape, x: string, b: Shape, y: string, q: string, cols: seq<string>)
    requires GoodShape(a, cols) && GoodShape(b, cols) && GoodColumns(cols) && RunsUnique(cols) && GoodQualifier(q)
    requires GroupEnd(x) && GroupEnd(y) && AfterOr(a, q, x) == AfterOr(b, q, y)
    ensures a.nots == b.nots && x == y
    decreases a, 0
  {
    var m, v := NotTailed(a, q, x);
    var n, w := NotTailed(b, q, y);
    TailedSame(m, v, n, w);
    if a.nots.Shapes? {
      BracketReads(a.nots, x, b.nots, y, q, cols);
    }
  }

  /** A key and what follows it read back. */
  lemma {:induction false} ShapeReads(a: Shape, x: string, b: Shape, y: string, q: string, cols: seq<string>)
    requires GoodShape(a, cols) && GoodShape(b, cols) && GoodColumns(cols) && RunsUnique(cols) && GoodQualifier(q)
    requires GroupEnd(x) && GroupEnd(y) && ShapeKey(a, q) + x == ShapeKey(b, q) + y
    ensures a == b && x == y
    decreases a, 1
  {
    KeyText(a, q, x);
    KeyText(b, q, y);
    SameCut(q, CondsKey(a.conds) + Logic(a, q, x), q, CondsKey(b.conds) + Logic(b, q, y));
    var m, v := AndTailed(a, q, x);
    var n, w := AndTailed(b, q, y);
    CondsRead(a.conds, m, v, b.conds, n, w, cols);
    AndsRead(a, x, b, y, q, cols);
    OrsRead(a, x, b, y, q, cols);
    NotsRead(a, x, b, y, q, cols);
  }

  // ---- qualifiers ----

  /** No key body starts with a qualifier. */
  lemma BodyHead(s: Shape, cols: seq<string>) returns (word: string, tail: string)
    requires GoodShape(s, cols) && GoodColumns(cols)
    ensures ShapeKey(s, "") == word + tail && AllIdent(word) && Delimited(tail) && (tail == "" || tail[0] != '.')
  {
    BareText(s);
    var m, v := AndTailed(s, "", "");
    HeadIs(s.conds, m, v, cols);
    word, tail := HeadWord(s.conds, m), HeadTail(s.conds, m, v);
    FollowsHead(s.conds, m, v);
  }

  lemma BareText(s: Shape)
    ensures ShapeKey(s, "") == CondsKey(s.conds) + Logic(s, "", "")
  {
    KeyText(s, "", "");
    assert ShapeKey(s, "") + "" == ShapeKey(s, "");
    assert "" + (CondsKey(s.conds) + Logic(s, "", "")) == CondsKey(s.conds) + Logic(s, "", "");
  }

  lemma FollowsHead(conds: seq<CondShape>, m: Mark, v: string)
    requires Follows(m, v)
    ensures Ending(conds).None? ==> HeadTail(conds, m, v) == "" || HeadTail(conds, m, v)[0] != '.'
  {
  }

  lemma QualifiedHead(s: Shape, q: string)
    requires GoodQualifier(q) && q != ""
    ensures var body := ShapeKey(s, q)[|q|..];
            ShapeKey(s, q) == q[..|q| - 1] + ("." + body) && AllIdent(q[..|q| - 1]) && Delimited("." + body)
  {
    assert q == q[..|q| - 1] + ".";
  }

  /** Equal keys come from the same qualifier and the same shape. */
  lemma KeyInjective(a: Shape, p: string, b: Shape, q: string, cols: seq<string>)
    requires GoodShape(a, cols) && GoodShape(b, cols) && GoodColumns(cols) && RunsUnique(cols)
    requires GoodQualifier(p) && GoodQualifier(q) && ShapeKey(a, p) == ShapeKey(b, q)
    ensures a == b && p == q
  {
    QualifierReads(a, p, b, q, cols);
    assert ShapeKey(a, p) + "" == ShapeKey(a, p) && ShapeKey(b, q) + "" == ShapeKey(b, q);
    ShapeReads(a, "", b, "", q, cols);
  }

  lemma QualifierReads(a: Shape, p: string, b: Shape, q: string, cols: seq<string>)
    requires GoodShape(a, cols) && GoodShape(b, cols) && GoodColumns(cols)
    requires GoodQualifier(p) && GoodQualifier(q) && ShapeKey(a, p) == ShapeKey(b, q)
    ensures p == q
  {
    if p == "" && q != "" {
      var w, t := BodyHead(a, cols);
      QualifiedHead(b, q);
      IdentSplit(w, t, q[..|q| - 1], "." + ShapeKey(b, q)[|q|..]);
    } else if q == "" && p != "" {
      var w, t := BodyHead(b, cols);
      QualifiedHead(a, p);
      IdentSplit(w, t, p[..|p| - 1], "." + ShapeKey(a, p)[|p|..]);
    } else if p != "" {
      QualifiedHead(a, p);
      QualifiedHead(b, q);
      IdentSplit(p[..|p| - 1], "." + ShapeKey(a, p)[|p|..], q[..|q| - 1], "." + ShapeKey(b, q)[|q|..]);
      assert p == p[..|p| - 1] + "." && q == q[..|q| - 1] + ".";
    }
  }
}
