/** Parsing a where fragment gives its meaning back. */
module WhereParse {
  import opened Bytes
  import opened SqlExpr
  import opened WhereFrag

  // ---- the expression a fragment parses to, placeholders numbered from `n` ----

  function PredExpr(p: Pred, q: string, n: nat): Expr {
    match p
    case NullTest(col, negated) => IsNull(Column(q + col), negated)
    case Comparing(col, op) => Compare(Column(q + col), op, Placeholder(n))
    case Among(col, k) => In(Column(q + col), Placeholders(n, k))
    case Never => Compare(Literal("1"), Eq, Literal("0"))
  }

  function PartExpr(part: Part, q: string, n: nat): Expr
    requires GoodPart(part, q)
    decreases part
  {
    match part
    case One(p) => PredExpr(p, q, n)
    case Group(g) => PartsExpr(true, g, q, n)
    case AnyOf(gs) => PartsExpr(false, gs, q, n)
    case NotGroup(g) => Not(PartsExpr(true, g, q, n))
  }

  /** A left-leaning chain of conjuncts, or of alternatives. */
  function PartsExpr(conj: bool, parts: seq<Part>, q: string, n: nat): Expr
    requires parts != [] && GoodParts(parts, q)
    decreases parts, 1
  {
    Chain(conj, PartExpr(parts[0], q, n), parts[1..], q, n + PartCount(parts[0]))
  }

  function Chain(conj: bool, left: Expr, parts: seq<Part>, q: string, n: nat): Expr
    requires GoodParts(parts, q)
    decreases parts, 0
  {
    if parts == [] then left else
      var e := PartExpr(parts[0], q, n);
      Chain(conj, if conj then And(left, e) else Or(left, e), parts[1..], q, n + PartCount(parts[0]))
  }

  // ---- predicates parse ----

  lemma UpperWords()
    ensures Upper("AND") == "AND" && Upper("OR") == "OR" && Upper("NOT") == "NOT" && Upper("IS") == "IS"
    ensures Upper("NULL") == "NULL" && Upper("IN") == "IN" && Upper("LIKE") == "LIKE"
  {
  }

  lemma NameOperand(name: string, rest: seq<Token>, n: nat)
    requires GoodName(name)
    ensures ParseOperand([Word(name)] + rest, n) == Good(Column(name), rest, n)
  {
    assert ([Word(name)] + rest)[1..] == rest;
  }

  lemma DigitOperand(digit: string, rest: seq<Token>, n: nat)
    requires |digit| == 1 && '0' <= digit[0] <= '9'
    ensures ParseOperand([Word(digit)] + rest, n) == Good(Literal(digit), rest, n)
  {
    assert |Upper(digit)| == 1 && forall w :: w in RESERVED ==> |w| > 1;
    assert ([Word(digit)] + rest)[1..] == rest;
  }

  lemma MarkOperand(rest: seq<Token>, n: nat)
    ensures ParseOperand([Sign("?")] + rest, n) == Good(Placeholder(n), rest, n + 1)
  {
    assert ([Sign("?")] + rest)[1..] == rest;
  }

  lemma {:induction false} MarksParse(k: nat, n: nat, rest: seq<Token>)
    requires k > 0
    ensures ParseList(MarkTokens(k) + ([Sign(")")] + rest), n) == Good(Placeholders(n, k), rest, n + k)
  {
    var close := [Sign(")")] + rest;
    assert close[1..] == rest;
    if k == 1 {
      MarkOperand(close, n);
      assert Placeholders(n, 1) == [Placeholder(n)];
    } else {
      var more := MarkTokens(k - 1) + close;
      MarkOperand([Sign(",")] + more, n);
      assert MarkTokens(k) + close == [Sign("?")] + ([Sign(",")] + more);
      assert ([Sign(",")] + more)[1..] == more;
      MarksParse(k - 1, n + 1, rest);
      PlaceholdersCons(n, k);
    }
  }

  lemma PlaceholdersCons(n: nat, k: nat)
    requires k > 0
    ensures Placeholders(n, k) == [Placeholder(n)] + Placeholders(n + 1, k - 1)
  {
  }

  lemma NullTestParses(name: string, negated: bool, n: nat, rest: seq<Token>)
    requires GoodName(name)
    ensures ParsePredicate([Word(name), Word("IS")] + (if negated then [Word("NOT")] else []) + [Word("NULL")] + rest, n)
         == Good(IsNull(Column(name), negated), rest, n)
  {
    UpperWords();
    var after := [Word("IS")] + (if negated then [Word("NOT")] else []) + [Word("NULL")] + rest;
    NameOperand(name, after, n);
    assert [Word(name), Word("IS")] + (if negated then [Word("NOT")] else []) + [Word("NULL")] + rest == [Word(name)] + after;
    assert if negated then after[3..] == rest else after[2..] == rest;
  }

  lemma OpParses(op: CmpOp)
    ensures SignOp(OpToken(op)) == Some(op) && !Keyword(OpToken(op), "IS") && !Keyword(OpToken(op), "IN")
  {
    UpperWords();
  }

  lemma CompareParses(x: Token, value: Operand, op: CmpOp, y: Token, other: Operand, n: nat, m: nat, rest: seq<Token>)
    requires ParseOperand([x] + ([OpToken(op), y] + rest), n) == Good(value, [OpToken(op), y] + rest, n)
    requires ParseOperand([y] + rest, n) == Good(other, rest, m)
    ensures ParsePredicate([x, OpToken(op), y] + rest, n) == Good(Compare(value, op, other), rest, m)
  {
    OpParses(op);
    assert [x, OpToken(op), y] + rest == [x] + ([OpToken(op), y] + rest);
    assert ([OpToken(op), y] + rest)[1..] == [y] + rest;
  }

  lemma AmongParses(name: string, k: nat, n: nat, rest: seq<Token>)
    requires GoodName(name) && k > 0
    ensures ParsePredicate([Word(name), Word("IN")] + Parens(MarkTokens(k)) + rest, n)
         == Good(In(Column(name), Placeholders(n, k)), rest, n + k)
  {
    UpperWords();
    var inner := MarkTokens(k) + ([Sign(")")] + rest);
    var after := [Word("IN"), Sign("(")] + inner;
    NameOperand(name, after, n);
    assert [Word(name), Word("IN")] + Parens(MarkTokens(k)) + rest == [Word(name)] + after;
    assert after[2..] == inner;
    MarksParse(k, n, rest);
  }

  lemma PredParses(p: Pred, q: string, n: nat, rest: seq<Token>)
    requires GoodPred(p, q)
    ensures ParsePredicate(PredTokens(p, q) + rest, n) == Good(PredExpr(p, q, n), rest, n + PredCount(p))
    ensures PredTokens(p, q)[0].Word? && !Reserved(PredTokens(p, q)[0])
  {
    match p
    case NullTest(col, negated) => NullTestParses(q + col, negated, n, rest);
    case Comparing(col, op) =>
      NameOperand(q + col, [OpToken(op), Sign("?")] + rest, n);
      MarkOperand(rest, n);
      CompareParses(Word(q + col), Column(q + col), op, Sign("?"), Placeholder(n), n, n + 1, rest);
    case Among(col, k) => AmongParses(q + col, k, n, rest);
    case Never =>
      DigitOperand("1", [Sign("="), Word("0")] + rest, n);
      DigitOperand("0", rest, n);
      CompareParses(Word("1"), Literal("1"), Eq, Word("0"), Literal("0"), n, n, rest);
      assert |Upper("1")| == 1 && forall w :: w in RESERVED ==> |w| > 1;
  }

  // ---- groups parse ----

  predicate EndsAnd(rest: seq<Token>) { rest == [] || !Keyword(rest[0], "AND") }

  predicate EndsOr(rest: seq<Token>) { EndsAnd(rest) && (rest == [] || !Keyword(rest[0], "OR")) }

  lemma CloseEnds(rest: seq<Token>)
    ensures EndsOr([Sign(")")] + rest)
  {
  }

  /** A parenthesised condition is a primary. */
  lemma ParensParse(ts: seq<Token>, e: Expr, n: nat, m: nat, rest: seq<Token>)
    requires ParseOr(ts + ([Sign(")")] + rest), n) == Good(e, [Sign(")")] + rest, m)
    ensures ParseNot(Parens(ts) + rest, n) == Good(e, rest, m)
  {
    var all := Parens(ts) + rest;
    assert all[0] == Sign("(") && all[1..] == ts + ([Sign(")")] + rest);
    assert ([Sign(")")] + rest)[1..] == rest;
  }

  lemma NotParses(ts: seq<Token>, e: Expr, n: nat, m: nat, rest: seq<Token>)
    requires ParseNot(ts + rest, n) == Good(e, rest, m)
    ensures ParseNot([Word("NOT")] + ts + rest, n) == Good(Not(e), rest, m)
  {
    UpperWords();
    var all := [Word("NOT")] + ts + rest;
    assert all[0] == Word("NOT") && all[1..] == ts + rest;
  }

  lemma {:induction false} PartParses(part: Part, q: string, n: nat, rest: seq<Token>)
    requires GoodPart(part, q)
    ensures ParseNot(PartTokens(part, q) + rest, n) == Good(PartExpr(part, q, n), rest, n + PartCount(part))
    decreases part
  {
    match part
    case One(p) =>
      PredParses(p, q, n, rest);
      PlainParses(PredTokens(p, q), n, rest);
    case Group(g) =>
      GroupParses(true, g, q, n, rest);
    case AnyOf(gs) =>
      GroupParses(false, gs, q, n, rest);
    case NotGroup(g) =>
      GroupParses(true, g, q, n, rest);
      NotParses(Parens(PartsTokens(g, "AND", q)), PartsExpr(true, g, q, n), n, n + PartsCount(g), rest);
  }

  /** What starts with an ordinary word is a predicate. */
  lemma PlainParses(ts: seq<Token>, n: nat, rest: seq<Token>)
    requires ts != [] && ts[0].Word? && !Reserved(ts[0])
    ensures ParseNot(ts + rest, n) == ParsePredicate(ts + rest, n)
  {
    assert (ts + rest)[0] == ts[0];
    assert "NOT" in RESERVED;
  }

  lemma {:induction false} GroupParses(conj: bool, g: seq<Part>, q: string, n: nat, rest: seq<Token>)
    requires g != [] && GoodParts(g, q)
    ensures ParseNot(Parens(PartsTokens(g, if conj then "AND" else "OR", q)) + rest, n)
         == Good(PartsExpr(conj, g, q, n), rest, n + PartsCount(g))
    decreases g, 4
  {
    CloseEnds(rest);
    FragParses(conj, g, q, n, [Sign(")")] + rest);
    ParensParse(PartsTokens(g, if conj then "AND" else "OR", q), PartsExpr(conj, g, q, n), n, n + PartsCount(g), rest);
  }

  lemma {:induction false} FragParses(conj: bool, parts: seq<Part>, q: string, n: nat, rest: seq<Token>)
    requires parts != [] && GoodParts(parts, q) && EndsOr(rest)
    ensures ParseOr(PartsTokens(parts, if conj then "AND" else "OR", q) + rest, n)
         == Good(PartsExpr(conj, parts, q, n), rest, n + PartsCount(parts))
    decreases parts, 3
  {
    var e, m := PartExpr(parts[0], q, n), n + PartCount(parts[0]);
    if conj {
      Unfolded(parts, "AND", q, rest);
      PartParses(parts[0], q, n, Follow(parts[1..], "AND", q) + rest);
      AndTailParses(e, parts[1..], q, m, rest);
    } else {
      Unfolded(parts, "OR", q, rest);
      PartParses(parts[0], q, n, Follow(parts[1..], "OR", q) + rest);
      OrEndsAnd(e, parts[1..], q, m, rest);
      OrTailParses(e, parts[1..], q, m, rest);
    }
  }

  /** The tokens after a first conjunct. */
  function Follow(parts: seq<Part>, kw: string, q: string): seq<Token> {
    if parts == [] then [] else [Word(kw)] + PartsTokens(parts, kw, q)
  }

  lemma Unfolded(parts: seq<Part>, kw: string, q: string, rest: seq<Token>)
    requires parts != []
    ensures PartsTokens(parts, kw, q) + rest == PartTokens(parts[0], q) + (Follow(parts[1..], kw, q) + rest)
  {
    Assoc(PartTokens(parts[0], q), Follow(parts[1..], kw, q), rest);
  }

  lemma FollowStarts(parts: seq<Part>, kw: string, q: string, rest: seq<Token>)
    requires parts != []
    ensures var ts := Follow(parts, kw, q) + rest;
            ts != [] && ts[0] == Word(kw) && ts[1..] == PartTokens(parts[0], q) + (Follow(parts[1..], kw, q) + rest)
  {
    Unfolded(parts, kw, q, rest);
    HeadAndRest(Word(kw), PartsTokens(parts, kw, q), rest);
  }

  lemma HeadAndRest(t: Token, ts: seq<Token>, rest: seq<Token>)
    ensures ([t] + ts + rest)[0] == t && ([t] + ts + rest)[1..] == ts + rest
  {
  }

  /** After a first conjunct the parser takes every further one. */
  lemma {:induction false} AndTailParses(left: Expr, parts: seq<Part>, q: string, n: nat, rest: seq<Token>)
    requires GoodParts(parts, q) && EndsOr(rest)
    ensures ParseAndTail(left, Follow(parts, "AND", q) + rest, n)
         == Good(Chain(true, left, parts, q, n), rest, n + PartsCount(parts))
    decreases parts, 2
  {
    UpperWords();
    if parts == [] {
      assert Follow(parts, "AND", q) + rest == rest;
    } else {
      FollowStarts(parts, "AND", q, rest);
      PartParses(parts[0], q, n, Follow(parts[1..], "AND", q) + rest);
      AndTailParses(And(left, PartExpr(parts[0], q, n)), parts[1..], q, n + PartCount(parts[0]), rest);
    }
  }

  /** An OR ends a conjunction. */
  lemma OrEndsAnd(left: Expr, parts: seq<Part>, q: string, n: nat, rest: seq<Token>)
    requires EndsOr(rest)
    ensures ParseAndTail(left, Follow(parts, "OR", q) + rest, n) == Good(left, Follow(parts, "OR", q) + rest, n)
  {
    UpperWords();
    if parts == [] {
      assert Follow(parts, "OR", q) + rest == rest;
    } else {
      FollowStarts(parts, "OR", q, rest);
    }
  }

  /** After a first alternative the parser takes every further one. */
  lemma {:induction false} OrTailParses(left: Expr, parts: seq<Part>, q: string, n: nat, rest: seq<Token>)
    requires GoodParts(parts, q) && EndsOr(rest)
    ensures ParseOrTail(left, Follow(parts, "OR", q) + rest, n)
         == Good(Chain(false, left, parts, q, n), rest, n + PartsCount(parts))
    decreases parts, 2
  {
    UpperWords();
    if parts == [] {
      assert Follow(parts, "OR", q) + rest == rest;
    } else {
      var e, m := PartExpr(parts[0], q, n), n + PartCount(parts[0]);
      FollowStarts(parts, "OR", q, rest);
      PartParses(parts[0], q, n, Follow(parts[1..], "OR", q) + rest);
      OrEndsAnd(e, parts[1..], q, m, rest);
      OrTailParses(Or(left, e), parts[1..], q, m, rest);
    }
  }

  // ---- and the expression means what the fragment means ----

  lemma {:induction false} PartMeans(part: Part, q: string, n: nat, env: Env)
    requires GoodPart(part, q) && Lawful(env.cmp)
    ensures Eval(PartExpr(part, q, n), env) == PartTruth(part, q, n, env)
    decreases part
  {
    match part
    case One(p) =>
      if p == Never {
        assert DigitsOf("1") == 1 && DigitsOf("0") == 0 by {
          assert "1"[..0] == "" && "0"[..0] == "";
        }
      }
    case Group(g) => PartsMean(true, g, q, n, env);
    case AnyOf(gs) => PartsMean(false, gs, q, n, env);
    case NotGroup(g) => PartsMean(true, g, q, n, env);
  }

  lemma {:induction false} PartsMean(conj: bool, parts: seq<Part>, q: string, n: nat, env: Env)
    requires parts != [] && GoodParts(parts, q) && Lawful(env.cmp)
    ensures Eval(PartsExpr(conj, parts, q, n), env)
         == if conj then AndAll(PartsTruths(parts, q, n, env)) else OrAll(PartsTruths(parts, q, n, env))
    decreases parts, 1
  {
    PartMeans(parts[0], q, n, env);
    ChainMeans(conj, PartExpr(parts[0], q, n), parts[1..], q, n + PartCount(parts[0]), env);
  }

  lemma {:induction false} ChainMeans(conj: bool, left: Expr, parts: seq<Part>, q: string, n: nat, env: Env)
    requires GoodParts(parts, q) && Lawful(env.cmp)
    ensures Eval(Chain(conj, left, parts, q, n), env)
         == if conj then And3(Eval(left, env), AndAll(PartsTruths(parts, q, n, env)))
            else Or3(Eval(left, env), OrAll(PartsTruths(parts, q, n, env)))
    decreases parts, 0
  {
    if parts != [] {
      PartMeans(parts[0], q, n, env);
      var e := PartExpr(parts[0], q, n);
      ChainMeans(conj, if conj then And(left, e) else Or(left, e), parts[1..], q, n + PartCount(parts[0]), env);
    }
  }

  /** The text of a non-empty fragment parses, and evaluates to the fragment's three-valued meaning with its
      placeholders bound in order. */
  lemma FragMeans(parts: seq<Part>, q: string, env: Env)
    requires parts != [] && GoodParts(parts, q) && Lawful(env.cmp)
    ensures ParseOr(Lex(FragText(parts, q)), 0) == Good(PartsExpr(true, parts, q, 0), [], PartsCount(parts))
    ensures ParseCondition(FragText(parts, q)).Some?
    ensures Eval(ParseCondition(FragText(parts, q)).value, env) == AndAll(PartsTruths(parts, q, 0, env))
  {
    LexParts(parts, " AND ", "AND", q);
    FragParses(true, parts, q, 0, []);
    assert PartsTokens(parts, "AND", q) + [] == PartsTokens(parts, "AND", q);
    PartsMean(true, parts, q, 0, env);
  }
}
