/** SQL search conditions: lexing, parsing with OR weaker than AND weaker than NOT, and three-valued evaluation
    (section 8.12 of ISO/IEC 9075:1992). */
module SqlExpr {
  import opened Bytes

  // ---- truth values ----

  datatype Truth = True | False | Unknown

  function Not3(a: Truth): Truth {
    match a case True => False case False => True case Unknown => Unknown
  }

  function And3(a: Truth, b: Truth): Truth {
    if a == False || b == False then False else if a == Unknown || b == Unknown then Unknown else True
  }

  function Or3(a: Truth, b: Truth): Truth {
    if a == True || b == True then True else if a == Unknown || b == Unknown then Unknown else False
  }

  function AndAll(ts: seq<Truth>): Truth {
    if ts == [] then True else And3(ts[0], AndAll(ts[1..]))
  }

  function OrAll(ts: seq<Truth>): Truth {
    if ts == [] then False else Or3(ts[0], OrAll(ts[1..]))
  }

  // ---- values and expressions ----

  function Rank(t: Truth): int { match t case False => 0 case Unknown => 1 case True => 2 }

  /** AND is the less true of two, OR the more true, NOT turns the order round (section 8.12 of ISO/IEC 9075:1992). */
  lemma TruthTables(a: Truth, b: Truth)
    ensures Rank(And3(a, b)) == if Rank(a) < Rank(b) then Rank(a) else Rank(b)
    ensures Rank(Or3(a, b)) == if Rank(a) < Rank(b) then Rank(b) else Rank(a)
    ensures Rank(Not3(a)) == 2 - Rank(a)
  {
  }

  /** All are true, or some is false; some is true, or all are false. */
  lemma {:induction false} AllTruths(ts: seq<Truth>)
    ensures AndAll(ts) == True <==> forall k :: 0 <= k < |ts| ==> ts[k] == True
    ensures AndAll(ts) == False <==> exists k :: 0 <= k < |ts| && ts[k] == False
    ensures OrAll(ts) == True <==> exists k :: 0 <= k < |ts| && ts[k] == True
    ensures OrAll(ts) == False <==> forall k :: 0 <= k < |ts| ==> ts[k] == False
  {
    if ts != [] {
      AllTruths(ts[1..]);
      assert forall k :: 0 < k < |ts| ==> ts[k] == ts[1..][k - 1];
      assert forall k :: 0 <= k < |ts| - 1 ==> ts[1..][k] == ts[k + 1];
    }
  }

  datatype Value = NullValue | BoolValue(b: bool) | IntValue(i: I64) | FloatValue(f: F64) | TextValue(text: string)

  datatype CmpOp = Eq | Ne | Gt | Ge | Lt | Le | Like

  datatype Operand = Column(name: string) | Placeholder(n: nat) | Literal(text: string)

  datatype Expr =
    | And(l: Expr, r: Expr)
    | Or(l: Expr, r: Expr)
    | Not(e: Expr)
    | IsNull(x: Operand, negated: bool)
    | Compare(x: Operand, op: CmpOp, y: Operand)
    | In(x: Operand, list: seq<Operand>)

  /** How the database compares two values; a NULL on either side is Unknown. */
  type Comparison = (CmpOp, Value, Value) -> Truth

  ghost predicate Lawful(cmp: Comparison) {
    && (forall op, v :: cmp(op, NullValue, v) == Unknown && cmp(op, v, NullValue) == Unknown)
    && forall i, j :: cmp(Eq, IntValue(i), IntValue(j)) == if i == j then True else False
  }

  /** A row gives every (qualified) column name a value; placeholders read the parameter list. */
  datatype Env = Env(row: string -> Value, params: seq<Value>, cmp: Comparison)

  function DigitsOf(text: string): nat {
    if text == "" then 0 else
      var c := text[|text| - 1];
      10 * DigitsOf(text[..|text| - 1]) + if '0' <= c <= '9' then c as nat - '0' as nat else 0
  }

  function ValueOf(x: Operand, env: Env): Value {
    match x
    case Column(name) => env.row(name)
    case Placeholder(n) => if n < |env.params| then env.params[n] else NullValue
    case Literal(text) => IntValue(if DigitsOf(text) < TWO_TO_63 then DigitsOf(text) else 0)
  }

  function InTruths(v: Value, list: seq<Operand>, env: Env): (ts: seq<Truth>)
    ensures |ts| == |list| && forall k :: 0 <= k < |list| ==> ts[k] == env.cmp(Eq, v, ValueOf(list[k], env))
  {
    seq(|list|, k requires 0 <= k < |list| => env.cmp(Eq, v, ValueOf(list[k], env)))
  }

  function Eval(e: Expr, env: Env): Truth {
    match e
    case And(l, r) => And3(Eval(l, env), Eval(r, env))
    case Or(l, r) => Or3(Eval(l, env), Eval(r, env))
    case Not(a) => Not3(Eval(a, env))
    case IsNull(x, negated) => if (ValueOf(x, env) == NullValue) != negated then True else False
    case Compare(x, op, y) => env.cmp(op, ValueOf(x, env), ValueOf(y, env))
    case In(x, list) => OrAll(InTruths(ValueOf(x, env), list, env))
  }

  /** A test for NULL is never unknown, and true of exactly the NULLs or exactly the others. */
  lemma NullTests(x: Operand, env: Env)
    ensures Eval(IsNull(x, false), env) == True <==> ValueOf(x, env).NullValue?
    ensures Eval(IsNull(x, true), env) == True <==> !ValueOf(x, env).NullValue?
    ensures Eval(IsNull(x, false), env) != Unknown && Eval(IsNull(x, true), env) != Unknown
  {
  }

  // ---- lexing ----

  /** A word (identifier, number or keyword) or a punctuation sign. */
  datatype Token = Word(text: string) | Sign(text: string)

  predicate WordChar(c: char) {
    'a' <= c <= 'z' || 'A' <= c <= 'Z' || '0' <= c <= '9' || c == '_' || c == '.'
  }

  predicate Space(c: char) { c == ' ' || c == '\t' || c == '\n' || c == '\r' }

  /** Two characters that lex as one sign: <> <= >= */
  predicate Paired(a: char, b: char) {
    (a == '<' && (b == '>' || b == '=')) || (a == '>' && b == '=')
  }

  /** Where the word starting at `i` ends. */
  function WordEnd(s: string, i: nat): (n: nat)
    requires i <= |s|
    ensures i <= n <= |s|
    decreases |s| - i
  {
    if i == |s| || !WordChar(s[i]) then i else WordEnd(s, i + 1)
  }

  /** Where one lexing step from `i` ends: past a space, a word or a sign. */
  function StepEnd(s: string, i: nat): (n: nat)
    requires i < |s|
    ensures i < n <= |s|
  {
    if WordChar(s[i]) then WordEnd(s, i) else if i + 1 < |s| && Paired(s[i], s[i + 1]) then i + 2 else i + 1
  }

  function StepTokens(s: string, i: nat): seq<Token>
    requires i < |s|
  {
    if Space(s[i]) then [] else if WordChar(s[i]) then [Word(s[i..StepEnd(s, i)])] else [Sign(s[i..StepEnd(s, i)])]
  }

  function LexFrom(s: string, i: nat): seq<Token>
    requires i <= |s|
    decreases |s| - i
  {
    if i == |s| then [] else StepTokens(s, i) + LexFrom(s, StepEnd(s, i))
  }

  function Lex(s: string): seq<Token> { LexFrom(s, 0) }

  /** Would the lexer read across this boundary? */
  predicate Glues(a: char, b: char) {
    (WordChar(a) && WordChar(b)) || Paired(a, b)
  }

  predicate Apart(a: string, b: string) {
    a == "" || b == "" || !Glues(a[|a| - 1], b[0])
  }

  lemma {:induction false} WordEndTail(a: string, b: string, i: nat)
    requires i <= |b|
    ensures WordEnd(a + b, |a| + i) == |a| + WordEnd(b, i)
    decreases |b| - i
  {
    if i < |b| && WordChar(b[i]) {
      WordEndTail(a, b, i + 1);
    }
  }

  lemma {:induction false} WordEndHead(a: string, b: string, i: nat)
    requires i < |a| && WordChar(a[i]) && Apart(a, b)
    ensures WordEnd(a + b, i) == WordEnd(a, i)
    decreases |a| - i
  {
    if i + 1 < |a| && WordChar(a[i + 1]) {
      WordEndHead(a, b, i + 1);
    }
  }

  lemma StepTail(a: string, b: string, i: nat)
    requires i < |b|
    ensures StepEnd(a + b, |a| + i) == |a| + StepEnd(b, i) && StepTokens(a + b, |a| + i) == StepTokens(b, i)
  {
    WordEndTail(a, b, i);
    assert (a + b)[|a| + i..|a| + StepEnd(b, i)] == b[i..StepEnd(b, i)];
  }

  /** Past `a`, the lexer reads `b` as if it stood alone. */
  lemma {:induction false} LexTail(a: string, b: string, i: nat)
    requires i <= |b|
    ensures LexFrom(a + b, |a| + i) == LexFrom(b, i)
    decreases |b| - i
  {
    if i < |b| {
      StepTail(a, b, i);
      LexTail(a, b, StepEnd(b, i));
    }
  }

  lemma StepHead(a: string, b: string, i: nat)
    requires i < |a| && Apart(a, b)
    ensures StepEnd(a + b, i) == StepEnd(a, i) && StepTokens(a + b, i) == StepTokens(a, i)
  {
    if WordChar(a[i]) {
      WordEndHead(a, b, i);
    }
    assert (a + b)[i..StepEnd(a, i)] == a[i..StepEnd(a, i)];
  }

  lemma {:induction false} LexHead(a: string, b: string, i: nat)
    requires i <= |a| && Apart(a, b)
    ensures LexFrom(a + b, i) == LexFrom(a, i) + LexFrom(b, 0)
    decreases |a| - i
  {
    if i == |a| {
      LexTail(a, b, 0);
    } else {
      StepHead(a, b, i);
      LexHead(a, b, StepEnd(a, i));
      Assoc(StepTokens(a, i), LexFrom(a, StepEnd(a, i)), LexFrom(b, 0));
    }
  }

  lemma LexConcat(a: string, b: string)
    requires Apart(a, b)
    ensures Lex(a + b) == Lex(a) + Lex(b)
  {
    LexHead(a, b, 0);
  }

  predicate AllWordChars(w: string) { forall k :: 0 <= k < |w| ==> WordChar(w[k]) }

  lemma {:induction false} WordEndAll(w: string, i: nat)
    requires i <= |w| && AllWordChars(w)
    ensures WordEnd(w, i) == |w|
    decreases |w| - i
  {
    if i < |w| {
      WordEndAll(w, i + 1);
    }
  }

  /** A run of word characters is one word. */
  lemma LexWord(w: string)
    requires w != "" && AllWordChars(w)
    ensures Lex(w) == [Word(w)]
  {
    WordEndAll(w, 0);
    assert w[0..|w|] == w && LexFrom(w, |w|) == [];
  }

  /** A text that is a single sign. */
  lemma LexSign(s: string)
    requires s != "" && !Space(s[0]) && !WordChar(s[0]) && StepEnd(s, 0) == |s|
    ensures Lex(s) == [Sign(s)]
  {
    assert s[0..|s|] == s && LexFrom(s, |s|) == [];
  }

  // ---- parsing ----

  predicate Keyword(t: Token, kw: string) { t.Word? && Upper(t.text) == kw }

  const RESERVED: seq<string> := ["AND", "OR", "NOT", "IS", "NULL", "IN", "LIKE"]

  predicate Reserved(t: Token) { t.Word? && Upper(t.text) in RESERVED }

  /** `n` counts the placeholders read so far. */
  datatype Parsed<T> = Good(value: T, rest: seq<Token>, n: nat) | Bad

  function ParseOperand(ts: seq<Token>, n: nat): (r: Parsed<Operand>)
    ensures r.Good? ==> |r.rest| < |ts|
  {
    if ts == [] then Bad
    else if ts[0] == Sign("?") then Good(Placeholder(n), ts[1..], n + 1)
    else if ts[0].Word? && ts[0].text != "" && !Reserved(ts[0]) then
      Good(if '0' <= ts[0].text[0] <= '9' then Literal(ts[0].text) else Column(ts[0].text), ts[1..], n)
    else Bad
  }

  function SignOp(t: Token): Option<CmpOp> {
    if t == Sign("=") then Some(Eq) else if t == Sign("<>") then Some(Ne)
    else if t == Sign(">") then Some(Gt) else if t == Sign(">=") then Some(Ge)
    else if t == Sign("<") then Some(Lt) else if t == Sign("<=") then Some(Le)
    else if Keyword(t, "LIKE") then Some(Like) else None
  }

  /** Operands separated by commas, up to the closing parenthesis. */
  function ParseList(ts: seq<Token>, n: nat): (r: Parsed<seq<Operand>>)
    ensures r.Good? ==> |r.rest| < |ts|
    decreases |ts|
  {
    match ParseOperand(ts, n)
    case Bad => Bad
    case Good(x, rest, m) =>
      if rest == [] then Bad
      else if rest[0] == Sign(")") then Good([x], rest[1..], m)
      else if rest[0] == Sign(",") then
        match ParseList(rest[1..], m)
        case Bad => Bad
        case Good(xs, rest', m') => Good([x] + xs, rest', m')
      else Bad
  }

  function ParsePredicate(ts: seq<Token>, n: nat): (r: Parsed<Expr>)
    ensures r.Good? ==> |r.rest| < |ts|
  {
    match ParseOperand(ts, n)
    case Bad => Bad
    case Good(x, rest, m) =>
      if rest == [] then Bad
      else if Keyword(rest[0], "IS") then
        if |rest| >= 2 && Keyword(rest[1], "NULL") then Good(IsNull(x, false), rest[2..], m)
        else if |rest| >= 3 && Keyword(rest[1], "NOT") && Keyword(rest[2], "NULL") then Good(IsNull(x, true), rest[3..], m)
        else Bad
      else if Keyword(rest[0], "IN") then
        if |rest| < 2 || rest[1] != Sign("(") then Bad else
          match ParseList(rest[2..], m)
          case Bad => Bad
          case Good(xs, rest', m') => Good(In(x, xs), rest', m')
      else
        match SignOp(rest[0])
        case None => Bad
        case Some(op) =>
          match ParseOperand(rest[1..], m)
          case Bad => Bad
          case Good(y, rest', m') => Good(Compare(x, op, y), rest', m')
  }

  function ParseOr(ts: seq<Token>, n: nat): (r: Parsed<Expr>)
    ensures r.Good? ==> |r.rest| < |ts|
    decreases |ts|, 6
  {
    match ParseAnd(ts, n)
    case Bad => Bad
    case Good(e, rest, m) => ParseOrTail(e, rest, m)
  }

  function ParseOrTail(left: Expr, ts: seq<Token>, n: nat): (r: Parsed<Expr>)
    ensures r.Good? ==> |r.rest| <= |ts|
    decreases |ts|, 5
  {
    if ts != [] && Keyword(ts[0], "OR") then
      match ParseAnd(ts[1..], n)
      case Bad => Bad
      case Good(e, rest, m) => ParseOrTail(Or(left, e), rest, m)
    else Good(left, ts, n)
  }

  function ParseAnd(ts: seq<Token>, n: nat): (r: Parsed<Expr>)
    ensures r.Good? ==> |r.rest| < |ts|
    decreases |ts|, 4
  {
    match ParseNot(ts, n)
    case Bad => Bad
    case Good(e, rest, m) => ParseAndTail(e, rest, m)
  }

  function ParseAndTail(left: Expr, ts: seq<Token>, n: nat): (r: Parsed<Expr>)
    ensures r.Good? ==> |r.rest| <= |ts|
    decreases |ts|, 3
  {
    if ts != [] && Keyword(ts[0], "AND") then
      match ParseNot(ts[1..], n)
      case Bad => Bad
      case Good(e, rest, m) => ParseAndTail(And(left, e), rest, m)
    else Good(left, ts, n)
  }

  function ParseNot(ts: seq<Token>, n: nat): (r: Parsed<Expr>)
    ensures r.Good? ==> |r.rest| < |ts|
    decreases |ts|, 2
  {
    if ts != [] && Keyword(ts[0], "NOT") then
      match ParseNot(ts[1..], n)
      case Bad => Bad
      case Good(e, rest, m) => Good(Not(e), rest, m)
    else ParsePrimary(ts, n)
  }

  function ParsePrimary(ts: seq<Token>, n: nat): (r: Parsed<Expr>)
    ensures r.Good? ==> |r.rest| < |ts|
    decreases |ts|, 1
  {
    if ts != [] && ts[0] == Sign("(") then
      match ParseOr(ts[1..], n)
      case Bad => Bad
      case Good(e, rest, m) => if rest != [] && rest[0] == Sign(")") then Good(e, rest[1..], m) else Bad
    else ParsePredicate(ts, n)
  }

  /** A whole condition, all tokens used. */
  function ParseCondition(s: string): Option<Expr> {
    match ParseOr(Lex(s), 0)
    case Good(e, rest, _) => if rest == [] then Some(e) else None
    case Bad => None
  }
}
