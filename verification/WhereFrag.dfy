/** The SQL fragment of a where group: its text, and what that text means once parsed. */
module WhereFrag {
  import opened Bytes
  import opened SqlExpr

  datatype Pred =
    | NullTest(col: string, negated: bool)
    | Comparing(col: string, op: CmpOp)
    | Among(col: string, count: nat)
    | Never

  /** One conjunct of a group, or one alternative of an OR. */
  datatype Part =
    | One(pred: Pred)
    | Group(parts: seq<Part>)
    | AnyOf(groups: seq<Part>)
    | NotGroup(parts: seq<Part>)

  // ---- text ----

  function Join(ss: seq<string>, sep: string): string {
    if ss == [] then "" else if |ss| == 1 then ss[0] else ss[0] + sep + Join(ss[1..], sep)
  }

  function OpText(op: CmpOp): string {
    match op
    case Eq => "=" case Ne => "<>" case Gt => ">" case Ge => ">=" case Lt => "<" case Le => "<=" case Like => "LIKE"
  }

  function Marks(n: nat): string { Join(seq(n, _ => "?"), ", ") }

  function PredText(p: Pred, q: string): string {
    match p
    case NullTest(col, negated) => q + col + if negated then " IS NOT NULL" else " IS NULL"
    case Comparing(col, op) => q + col + " " + OpText(op) + " ?"
    case Among(col, n) => q + col + " IN (" + Marks(n) + ")"
    case Never => "1 = 0"
  }

  function PartText(part: Part, q: string): string {
    match part
    case One(p) => PredText(p, q)
    case Group(g) => "(" + PartsText(g, " AND ", q) + ")"
    case AnyOf(gs) => "(" + PartsText(gs, " OR ", q) + ")"
    case NotGroup(g) => "NOT (" + PartsText(g, " AND ", q) + ")"
  }

  function PartsText(parts: seq<Part>, sep: string, q: string): string {
    if parts == [] then ""
    else if |parts| == 1 then PartText(parts[0], q)
    else PartText(parts[0], q) + sep + PartsText(parts[1..], sep, q)
  }

  /** A whole group: its conjuncts joined by AND. */
  function FragText(parts: seq<Part>, q: string): string { PartsText(parts, " AND ", q) }

  // ---- placeholders ----

  function PredCount(p: Pred): nat {
    match p
    case NullTest(_, _) => 0
    case Comparing(_, _) => 1
    case Among(_, n) => n
    case Never => 0
  }

  function PartCount(part: Part): nat {
    match part
    case One(p) => PredCount(p)
    case Group(g) => PartsCount(g)
    case AnyOf(gs) => PartsCount(gs)
    case NotGroup(g) => PartsCount(g)
  }

  function PartsCount(parts: seq<Part>): nat {
    if parts == [] then 0 else PartCount(parts[0]) + PartsCount(parts[1..])
  }

  // ---- meaning, placeholders counted from `n` ----

  function PredTruth(p: Pred, q: string, n: nat, env: Env): Truth {
    match p
    case NullTest(col, negated) => if (env.row(q + col) == NullValue) != negated then True else False
    case Comparing(col, op) => env.cmp(op, env.row(q + col), ValueOf(Placeholder(n), env))
    case Among(col, k) => OrAll(InTruths(env.row(q + col), Placeholders(n, k), env))
    case Never => False
  }

  function Placeholders(n: nat, k: nat): (xs: seq<Operand>)
    ensures |xs| == k
  {
    seq(k, i requires 0 <= i < k => Placeholder(n + i))
  }

  function PartTruth(part: Part, q: string, n: nat, env: Env): Truth {
    match part
    case One(p) => PredTruth(p, q, n, env)
    case Group(g) => AndAll(PartsTruths(g, q, n, env))
    case AnyOf(gs) => OrAll(PartsTruths(gs, q, n, env))
    case NotGroup(g) => Not3(AndAll(PartsTruths(g, q, n, env)))
  }

  function PartsTruths(parts: seq<Part>, q: string, n: nat, env: Env): (ts: seq<Truth>)
    ensures |ts| == |parts|
  {
    if parts == [] then [] else
      [PartTruth(parts[0], q, n, env)] + PartsTruths(parts[1..], q, n + PartCount(parts[0]), env)
  }

  // ---- well-formed fragments ----

  /** A name that lexes as one word and reads as a column. */
  predicate GoodName(s: string) {
    && s != "" && (forall k :: 0 <= k < |s| ==> WordChar(s[k]))
    && !('0' <= s[0] <= '9') && !Reserved(Word(s))
  }

  predicate GoodPred(p: Pred, q: string) {
    match p
    case NullTest(col, _) => GoodName(q + col)
    case Comparing(col, _) => GoodName(q + col)
    case Among(col, n) => GoodName(q + col) && n > 0
    case Never => true
  }

  predicate GoodPart(part: Part, q: string) {
    match part
    case One(p) => GoodPred(p, q)
    case Group(g) => g != [] && GoodParts(g, q)
    case AnyOf(gs) => gs != [] && GoodParts(gs, q)
    case NotGroup(g) => g != [] && GoodParts(g, q)
  }

  predicate GoodParts(parts: seq<Part>, q: string) {
    parts == [] || (GoodPart(parts[0], q) && GoodParts(parts[1..], q))
  }

  // ---- tokens ----

  function MarkTokens(n: nat): seq<Token> {
    if n == 0 then [] else if n == 1 then [Sign("?")] else [Sign("?"), Sign(",")] + MarkTokens(n - 1)
  }

  function OpToken(op: CmpOp): Token { if op == Like then Word("LIKE") else Sign(OpText(op)) }

  function PredTokens(p: Pred, q: string): seq<Token> {
    match p
    case NullTest(col, negated) =>
      [Word(q + col), Word("IS")] + (if negated then [Word("NOT")] else []) + [Word("NULL")]
    case Comparing(col, op) => [Word(q + col), OpToken(op), Sign("?")]
    case Among(col, n) => [Word(q + col), Word("IN")] + Parens(MarkTokens(n))
    case Never => [Word("1"), Sign("="), Word("0")]
  }

  function PartTokens(part: Part, q: string): seq<Token> {
    match part
    case One(p) => PredTokens(p, q)
    case Group(g) => Parens(PartsTokens(g, "AND", q))
    case AnyOf(gs) => Parens(PartsTokens(gs, "OR", q))
    case NotGroup(g) => [Word("NOT")] + Parens(PartsTokens(g, "AND", q))
  }

  function Parens(ts: seq<Token>): seq<Token> { [Sign("(")] + (ts + [Sign(")")]) }

  function PartsTokens(parts: seq<Part>, kw: string, q: string): seq<Token> {
    if parts == [] then []
    else if |parts| == 1 then PartTokens(parts[0], q)
    else PartTokens(parts[0], q) + ([Word(kw)] + PartsTokens(parts[1..], kw, q))
  }

  // ---- the text lexes to the tokens ----

  lemma LexSpace()
    ensures Lex(" ") == []
  {
  }

  lemma LexSpaced(w: string)
    requires w != "" && AllWordChars(w)
    ensures Lex(" " + w) == [Word(w)] && Lex(" " + w + " ") == [Word(w)]
  {
    LexWord(w);
    LexSpace();
    LexConcat(" ", w);
    LexConcat(" " + w, " ");
  }

  /** A spaced keyword between two texts. */
  lemma LexJoined(a: string, sep: string, kw: string, b: string)
    requires sep == " " + kw + " " && kw != "" && AllWordChars(kw)
    ensures Lex(a + sep + b) == Lex(a) + ([Word(kw)] + Lex(b))
  {
    LexSpaced(kw);
    LexConcat(a, sep);
    LexConcat(a + sep, b);
    Assoc(Lex(a), [Word(kw)], Lex(b));
  }

  lemma LexSigns()
    ensures Lex("(") == [Sign("(")] && Lex(")") == [Sign(")")] && Lex("?") == [Sign("?")] && Lex(",") == [Sign(",")]
  {
    LexSign("(");
    LexSign(")");
    LexSign("?");
    LexSign(",");
  }

  lemma LexOpSigns(op: CmpOp)
    ensures Lex(OpText(op)) == [OpToken(op)]
  {
    if op == Like {
      LexWord("LIKE");
    } else {
      LexSign(OpText(op));
    }
  }

  lemma LexParens(s: string)
    ensures Lex("(" + s + ")") == Parens(Lex(s))
  {
    LexSigns();
    LexConcat(s, ")");
    LexConcat("(", s + ")");
    assert "(" + s + ")" == "(" + (s + ")");
  }

  lemma {:induction false} LexMarks(n: nat)
    ensures Lex(Marks(n)) == MarkTokens(n)
  {
    LexSigns();
    if n == 1 {
      assert Marks(1) == "?";
    } else if n > 1 {
      LexMarks(n - 1);
      assert seq(n, _ => "?")[1..] == seq(n - 1, _ => "?");
      MoreMarks(Marks(n - 1));
    }
  }

  lemma MoreMarks(rest: string)
    ensures Lex("?" + ", " + rest) == [Sign("?"), Sign(",")] + Lex(rest)
  {
    LexSigns();
    LexSpace();
    assert ", " == "," + " ";
    LexConcat(",", " ");
    LexConcat("?", ", ");
    LexConcat("?" + ", ", rest);
  }

  /** Two texts whose boundary the lexer does not read across. */
  lemma LexAppend(a: string, ta: seq<Token>, b: string, tb: seq<Token>)
    requires Lex(a) == ta && Lex(b) == tb && Apart(a, b)
    ensures Lex(a + b) == ta + tb
  {
    LexConcat(a, b);
  }

  lemma LexSpacedAs(s: string, w: string)
    requires s == " " + w && w != "" && AllWordChars(w)
    ensures Lex(s) == [Word(w)] && s != "" && !Glues(s[|s| - 1], ' ')
  {
    LexSpaced(w);
  }

  lemma LexTwoWords(s: string, a: string, b: string, v: string, w: string)
    requires s == a + b && a == " " + v && b == " " + w
    requires v != "" && AllWordChars(v) && w != "" && AllWordChars(w)
    ensures Lex(s) == [Word(v), Word(w)]
  {
    LexSpacedAs(a, v);
    LexSpacedAs(b, w);
    LexAppend(a, [Word(v)], b, [Word(w)]);
  }

  lemma LexIsNull()
    ensures Lex(" IS NULL") == [Word("IS"), Word("NULL")]
  {
    LexTwoWords(" IS NULL", " IS", " NULL", "IS", "NULL");
  }

  lemma LexThreeWords(s: string, a: string, b: string, u: string, v: string, w: string)
    requires s == a + b && a == " " + u && b == " " + v + (" " + w)
    requires u != "" && AllWordChars(u) && v != "" && AllWordChars(v) && w != "" && AllWordChars(w)
    ensures Lex(s) == [Word(u), Word(v), Word(w)]
  {
    LexSpacedAs(a, u);
    LexTwoWords(b, " " + v, " " + w, v, w);
    LexAppend(a, [Word(u)], b, [Word(v), Word(w)]);
  }

  lemma LexIsNotNull()
    ensures Lex(" IS NOT NULL") == [Word("IS"), Word("NOT"), Word("NULL")]
  {
    LexThreeWords(" IS NOT NULL", " IS", " NOT NULL", "IS", "NOT", "NULL");
  }

  /** A name with a spaced suffix. */
  lemma LexSuffixed(name: string, s: string, ts: seq<Token>)
    requires GoodName(name) && Lex(s) == ts && s != "" && s[0] == ' '
    ensures Lex(name + s) == [Word(name)] + ts
  {
    LexWord(name);
    LexAppend(name, [Word(name)], s, ts);
  }

  lemma LexNullTest(name: string, negated: bool)
    requires GoodName(name)
    ensures Lex(name + if negated then " IS NOT NULL" else " IS NULL")
         == [Word(name), Word("IS")] + (if negated then [Word("NOT")] else []) + [Word("NULL")]
  {
    if negated {
      LexIsNotNull();
      LexSuffixed(name, " IS NOT NULL", [Word("IS"), Word("NOT"), Word("NULL")]);
    } else {
      LexIsNull();
      LexSuffixed(name, " IS NULL", [Word("IS"), Word("NULL")]);
    }
  }

  lemma LexMark()
    ensures Lex(" ?") == [Sign("?")]
  {
    LexSigns();
    LexSpace();
    LexAppend(" ", [], "?", [Sign("?")]);
    assert " " + "?" == " ?";
  }

  lemma LexSpacedOp(text: string, token: Token)
    requires Lex(text) == [token] && text != "" && !Space(text[0])
    ensures Lex(" " + text + " ?") == [token, Sign("?")]
  {
    LexSpace();
    LexMark();
    LexAppend(" ", [], text, [token]);
    LexAppend(" " + text, [token], " ?", [Sign("?")]);
  }

  lemma LexComparing(name: string, op: CmpOp)
    requires GoodName(name)
    ensures Lex(name + " " + OpText(op) + " ?") == [Word(name), OpToken(op), Sign("?")]
  {
    LexWord(name);
    LexOpSigns(op);
    LexSpacedOp(OpText(op), OpToken(op));
    LexAppend(name, [Word(name)], " " + OpText(op) + " ?", [OpToken(op), Sign("?")]);
    assert name + " " + OpText(op) + " ?" == name + (" " + OpText(op) + " ?");
  }

  lemma LexList(name: string, open: string, sep: string, kw: string, marks: string, close: string, ts: seq<Token>)
    requires GoodName(name) && open == sep + "(" && close == ")" && Lex(marks) == ts
    requires sep == " " + kw + " " && kw != "" && AllWordChars(kw)
    ensures Lex(name + open + marks + close) == [Word(name), Word(kw)] + Parens(ts)
  {
    LexWord(name);
    LexParens(marks);
    LexJoined(name, sep, kw, "(" + marks + ")");
    Regroup(name, sep, "(", marks, ")");
  }

  lemma LexAmong(name: string, n: nat)
    requires GoodName(name)
    ensures Lex(name + " IN (" + Marks(n) + ")") == [Word(name), Word("IN")] + Parens(MarkTokens(n))
  {
    LexMarks(n);
    LexList(name, " IN (", " IN ", "IN", Marks(n), ")", MarkTokens(n));
  }

  lemma Regroup(a: string, b: string, c: string, d: string, e: string)
    ensures a + (b + c) + d + e == a + b + (c + d + e)
  {
  }

  lemma LexNever()
    ensures Lex("1 = 0") == [Word("1"), Sign("="), Word("0")]
  {
    LexWord("1");
    LexSpacedAs(" 0", "0");
    LexSign("=");
    LexSpace();
    LexAppend(" ", [], "=", [Sign("=")]);
    LexAppend(" " + "=", [Sign("=")], " 0", [Word("0")]);
    LexAppend("1", [Word("1")], " " + "=" + " 0", [Sign("="), Word("0")]);
    assert "1" + (" " + "=" + " 0") == "1 = 0";
  }

  lemma LexPred(p: Pred, q: string)
    requires GoodPred(p, q)
    ensures Lex(PredText(p, q)) == PredTokens(p, q)
  {
    match p
    case NullTest(col, negated) => LexNullTest(q + col, negated);
    case Comparing(col, op) => LexComparing(q + col, op);
    case Among(col, n) => LexAmong(q + col, n);
    case Never => LexNever();
  }

  lemma LexNot(s: string)
    ensures Lex("NOT (" + s + ")") == [Word("NOT")] + Parens(Lex(s))
  {
    LexParens(s);
    LexNotSpace();
    LexAppend("NOT ", [Word("NOT")], "(" + s + ")", Parens(Lex(s)));
    assert "NOT (" + s + ")" == "NOT " + ("(" + s + ")");
  }

  lemma LexNotSpace()
    ensures Lex("NOT ") == [Word("NOT")]
  {
    LexWord("NOT");
    LexSpace();
    LexAppend("NOT", [Word("NOT")], " ", []);
    assert "NOT" + " " == "NOT ";
  }

  lemma {:induction false} LexPart(part: Part, q: string)
    requires GoodPart(part, q)
    ensures Lex(PartText(part, q)) == PartTokens(part, q)
    decreases part
  {
    match part
    case One(p) => LexPred(p, q);
    case Group(g) =>
      LexParts(g, " AND ", "AND", q);
      LexParens(PartsText(g, " AND ", q));
    case AnyOf(gs) =>
      LexParts(gs, " OR ", "OR", q);
      LexParens(PartsText(gs, " OR ", q));
    case NotGroup(g) =>
      LexParts(g, " AND ", "AND", q);
      LexNot(PartsText(g, " AND ", q));
  }

  lemma {:induction false} LexParts(parts: seq<Part>, sep: string, kw: string, q: string)
    requires GoodParts(parts, q) && sep == " " + kw + " " && kw != "" && AllWordChars(kw)
    ensures Lex(PartsText(parts, sep, q)) == PartsTokens(parts, kw, q)
    decreases parts
  {
    if parts != [] {
      LexPart(parts[0], q);
      if |parts| > 1 {
        LexParts(parts[1..], sep, kw, q);
        LexJoined(PartText(parts[0], q), sep, kw, PartsText(parts[1..], sep, q));
      }
    }
  }
}
