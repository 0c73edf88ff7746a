/** How SQL text falls into literals, comments and single characters: the scanner of pg.rs, ms.rs and guard.rs, and the
    grammar it decides. */
module SqlTokens {
  import opened Bytes

  datatype Token = Quoted(text: string) | Comment(text: string) | Single(c: char)

  /** Which characters quote: placeholders are rewritten in the first, statements counted in the second. */
  datatype Dialect = Portable | Wide

  function Closing(d: Dialect, c: char): Option<char> {
    if c == '\'' || c == '\"' then Some(c)
    else if d == Wide && c == '`' then Some('`')
    else if d == Wide && c == '[' then Some(']')
    else None
  }

  function TextOf(t: Token): string {
    match t case Quoted(s) => s case Comment(s) => s case Single(c) => [c]
  }

  function Texts(ts: seq<Token>): string { if ts == [] then [] else TextOf(ts[0]) + Texts(ts[1..]) }

  // ---- the grammar ----

  function Doubled(content: string, q: char): string {
    if content == [] then [] else (if content[0] == q then [q, q] else [content[0]]) + Doubled(content[1..], q)
  }

  predicate Starts(s: string, a: char, b: char) { |s| >= 2 && s[0] == a && s[1] == b }

  /** No `*` `/` anywhere. */
  predicate NoClose(s: string) { forall k :: 0 <= k < |s| - 1 ==> !(s[k] == '*' && s[k + 1] == '/') }

  /** A literal doubles its closing quote inside; it ends before anything but that quote, or is cut off by the end. */
  ghost predicate IsQuoted(d: Dialect, text: string, rest: string) {
    && text != [] && Closing(d, text[0]).Some?
    && var q := Closing(d, text[0]).value;
       exists content ::
         || (text[1..] == Doubled(content, q) + [q] && (rest == [] || rest[0] != q))
         || (text[1..] == Doubled(content, q) && rest == [])
  }

  predicate IsLine(text: string, rest: string) {
    Starts(text, '-', '-') && '\n' !in text && (rest == [] || rest[0] == '\n')
  }

  /** A block comment runs to the first closing mark, or to the end. */
  ghost predicate IsBlock(text: string, rest: string) {
    && Starts(text, '/', '*')
    && ((exists body :: text[2..] == body + ['*', '/'] && NoClose(body + ['*'])) || (NoClose(text[2..]) && rest == []))
  }

  ghost predicate Legal(d: Dialect, t: Token, rest: string) {
    match t
    case Quoted(text) => IsQuoted(d, text, rest)
    case Comment(text) => IsLine(text, rest) || IsBlock(text, rest)
    case Single(c) => Closing(d, c).None? && !Starts([c] + rest, '-', '-') && !Starts([c] + rest, '/', '*')
  }

  /** `ts` is a reading of `s`. */
  ghost predicate Reads(d: Dialect, ts: seq<Token>, s: string) {
    if ts == [] then s == []
    else Legal(d, ts[0], Texts(ts[1..])) && s == TextOf(ts[0]) + Texts(ts[1..]) && Reads(d, ts[1..], Texts(ts[1..]))
  }

  // ---- the scanner ----

  /** How far a literal runs from just after its opening quote. */
  function QuoteLen(s: string, q: char): (n: nat)
    ensures n <= |s|
  {
    if s == [] then 0
    else if s[0] != q then 1 + QuoteLen(s[1..], q)
    else if |s| >= 2 && s[1] == q then 2 + QuoteLen(s[2..], q)
    else 1
  }

  lemma QuoteStep(sql: string, i: nat, q: char)
    requires i < |sql|
    ensures QuoteLen(sql[i..], q) ==
            if sql[i] != q then 1 + QuoteLen(sql[i + 1..], q)
            else if i + 1 < |sql| && sql[i + 1] == q then 2 + QuoteLen(sql[i + 2..], q)
            else 1
  {
    var s := sql[i..];
    assert s[1..] == sql[i + 1..] && |s| == |sql| - i;
    if |s| >= 2 { assert s[2..] == sql[i + 2..]; }
  }

  function LineLen(s: string): (n: nat)
    ensures n <= |s|
  {
    if s == [] || s[0] == '\n' then 0 else 1 + LineLen(s[1..])
  }

  function BlockLen(s: string): (n: nat)
    ensures n <= |s|
  {
    if s == [] then 0 else if Starts(s, '*', '/') then 2 else 1 + BlockLen(s[1..])
  }

  function TokenLen(d: Dialect, s: string): (n: nat)
    requires s != []
    ensures 0 < n <= |s|
  {
    if Closing(d, s[0]).Some? then 1 + QuoteLen(s[1..], Closing(d, s[0]).value)
    else if Starts(s, '-', '-') then (assert s[0] != '\n'; LineLen(s))
    else if Starts(s, '/', '*') then 2 + BlockLen(s[2..])
    else 1
  }

  function FirstToken(d: Dialect, s: string): (t: Token)
    requires s != []
    ensures TextOf(t) == s[..TokenLen(d, s)]
  {
    var text := s[..TokenLen(d, s)];
    if Closing(d, s[0]).Some? then Quoted(text)
    else if Starts(s, '-', '-') || Starts(s, '/', '*') then Comment(text)
    else Single(s[0])
  }

  function Lex(d: Dialect, s: string): seq<Token> {
    if s == [] then [] else [FirstToken(d, s)] + Lex(d, s[TokenLen(d, s)..])
  }

  lemma TextsCons(t: Token, ts: seq<Token>)
    ensures Texts([t] + ts) == TextOf(t) + Texts(ts)
  {
    assert ([t] + ts)[1..] == ts;
  }

  lemma Cut(s: string, n: nat)
    requires n <= |s|
    ensures s == s[..n] + s[n..]
  {
  }

  lemma {:induction false} LexTexts(d: Dialect, s: string)
    ensures Texts(Lex(d, s)) == s
  {
    if s != [] {
      var n := TokenLen(d, s);
      LexTexts(d, s[n..]);
      TextsCons(FirstToken(d, s), Lex(d, s[n..]));
      Cut(s, n);
    }
  }

  // ---- the scanner decides the grammar: what it finds is legal ----

  /** The content of a scanned literal. */
  lemma {:induction false} QuoteFound(s: string, q: char) returns (content: string)
    ensures var n := QuoteLen(s, q);
            || (s[..n] == Doubled(content, q) + [q] && (s[n..] == [] || s[n] != q))
            || (s[..n] == Doubled(content, q) && s[n..] == [])
  {
    var n := QuoteLen(s, q);
    if s == [] {
      content := [];
    } else if s[0] != q {
      content := QuoteFound(s[1..], q);
      ConsDoubled(s[0], content, q);
      assert s[..n] == [s[0]] + s[1..][..n - 1] && s[n..] == s[1..][n - 1..];
      content := [s[0]] + content;
    } else if |s| >= 2 && s[1] == q {
      content := QuoteFound(s[2..], q);
      ConsDoubled(q, content, q);
      assert s[..n] == [q, q] + s[2..][..n - 2] && s[n..] == s[2..][n - 2..];
      content := [q] + content;
    } else {
      content := [];
      assert s[..1] == [] + [q];
    }
  }

  lemma ConsDoubled(c: char, content: string, q: char)
    ensures Doubled([c] + content, q) == (if c == q then [q, q] else [c]) + Doubled(content, q)
  {
    assert ([c] + content)[1..] == content;
  }

  lemma {:induction false} LineFound(s: string)
    ensures var n := LineLen(s); '\n' !in s[..n] && (s[n..] == [] || s[n] == '\n')
  {
    if s != [] && s[0] != '\n' {
      LineFound(s[1..]);
      var n := LineLen(s);
      assert s[..n] == [s[0]] + s[1..][..n - 1] && s[n..] == s[1..][n - 1..];
    }
  }

  lemma {:induction false} BlockFound(s: string)
    ensures var n := BlockLen(s);
            || (n >= 2 && s[n - 2] == '*' && s[n - 1] == '/' && NoClose(s[..n - 1]))
            || (NoClose(s) && n == |s|)
  {
    if s != [] && !Starts(s, '*', '/') {
      BlockFound(s[1..]);
      var n := BlockLen(s);
      if n >= 3 && s[n - 2] == '*' && s[n - 1] == '/' && NoClose(s[1..][..n - 2]) {
        forall k | 0 <= k < n - 2 ensures !(s[k] == '*' && s[k + 1] == '/') {
          if k > 0 { assert s[1..][..n - 2][k - 1] == s[k] && s[1..][..n - 2][k] == s[k + 1]; }
        }
      } else {
        forall k | 0 <= k < |s| - 1 ensures !(s[k] == '*' && s[k + 1] == '/') {
          if k > 0 { assert s[1..][k - 1] == s[k] && s[1..][k] == s[k + 1]; }
        }
      }
    }
  }

  lemma QuotedLegal(d: Dialect, s: string, q: char)
    requires s != [] && Closing(d, s[0]) == Some(q)
    ensures IsQuoted(d, s[..1 + QuoteLen(s[1..], q)], s[1 + QuoteLen(s[1..], q)..])
  {
    var n := 1 + QuoteLen(s[1..], q);
    var content := QuoteFound(s[1..], q);
    assert s[..n][1..] == s[1..][..n - 1] && s[n..] == s[1..][n - 1..];
  }

  lemma BlockLegal(s: string)
    requires Starts(s, '/', '*')
    ensures IsBlock(s[..2 + BlockLen(s[2..])], s[2 + BlockLen(s[2..])..])
  {
    var u := s[2..];
    var n := BlockLen(u);
    BlockFound(u);
    assert s[..2 + n][2..] == u[..n];
    if n >= 2 && u[n - 2] == '*' && u[n - 1] == '/' && NoClose(u[..n - 1]) {
      assert u[..n] == u[..n - 2] + ['*', '/'] && u[..n - 2] + ['*'] == u[..n - 1];
    } else {
      assert u[..n] == u;
    }
  }

  lemma FirstLegal(d: Dialect, s: string)
    requires s != []
    ensures Legal(d, FirstToken(d, s), s[TokenLen(d, s)..])
  {
    if Closing(d, s[0]).Some? {
      QuotedLegal(d, s, Closing(d, s[0]).value);
    } else if Starts(s, '-', '-') {
      LineFound(s);
      assert s[1..][0] == '-';
    } else if Starts(s, '/', '*') {
      BlockLegal(s);
    } else {
      assert [s[0]] + s[1..] == s;
    }
  }

  lemma ReadsStep(d: Dialect, t: Token, ts: seq<Token>, text: string, rest: string)
    requires Legal(d, t, rest) && TextOf(t) == text && Texts(ts) == rest && Reads(d, ts, rest)
    ensures Reads(d, [t] + ts, text + rest)
  {
    assert ([t] + ts)[1..] == ts;
  }

  lemma {:induction false} LexReads(d: Dialect, s: string)
    ensures Reads(d, Lex(d, s), s)
  {
    if s != [] {
      var n := TokenLen(d, s);
      LexReads(d, s[n..]);
      LexTexts(d, s[n..]);
      FirstLegal(d, s);
      ReadsStep(d, FirstToken(d, s), Lex(d, s[n..]), s[..n], s[n..]);
      Cut(s, n);
    }
  }

  // ---- and there is no other reading ----

  lemma {:induction false} QuoteEnds(content: string, q: char, rest: string)
    ensures QuoteLen(Doubled(content, q), q) == |Doubled(content, q)|
    ensures rest == [] || rest[0] != q ==> QuoteLen(Doubled(content, q) + ([q] + rest), q) == |Doubled(content, q)| + 1
  {
    if content == [] {
      assert Doubled(content, q) + ([q] + rest) == [q] + rest;
    } else {
      var head := if content[0] == q then [q, q] else [content[0]];
      var more := Doubled(content[1..], q);
      QuoteEnds(content[1..], q, rest);
      assert (head + more)[|head|..] == more;
      assert (head + more) + ([q] + rest) == head + (more + ([q] + rest));
      assert (head + (more + ([q] + rest)))[|head|..] == more + ([q] + rest);
    }
  }

  lemma {:induction false} LineEnds(text: string, rest: string)
    requires '\n' !in text && (rest == [] || rest[0] == '\n')
    ensures LineLen(text + rest) == |text|
  {
    if text == [] {
      assert text + rest == rest;
    } else {
      LineEnds(text[1..], rest);
      assert (text + rest)[1..] == text[1..] + rest;
    }
  }

  lemma {:induction false} BlockEnds(body: string, rest: string)
    ensures NoClose(body + ['*']) ==> BlockLen((body + ['*', '/']) + rest) == |body| + 2
    ensures NoClose(body) ==> BlockLen(body) == |body|
  {
    if body == [] {
      assert (body + ['*', '/']) + rest == ['*', '/'] + rest;
    } else {
      var s := (body + ['*', '/']) + rest;
      BlockEnds(body[1..], rest);
      assert s[1..] == (body[1..] + ['*', '/']) + rest;
      if NoClose(body + ['*']) {
        assert !((body + ['*'])[0] == '*' && (body + ['*'])[1] == '/');
        forall k | 0 <= k < |body| - 1 ensures !((body[1..] + ['*'])[k] == '*' && (body[1..] + ['*'])[k + 1] == '/') {
          assert (body + ['*'])[k + 1] == (body[1..] + ['*'])[k] && (body + ['*'])[k + 2] == (body[1..] + ['*'])[k + 1];
        }
        assert !Starts(s, '*', '/') by { assert s[0] == (body + ['*'])[0] && s[1] == (body + ['*'])[1]; }
      }
      if NoClose(body) {
        forall k | 0 <= k < |body[1..]| - 1 ensures !(body[1..][k] == '*' && body[1..][k + 1] == '/') {
          assert body[k + 1] == body[1..][k] && body[k + 2] == body[1..][k + 1];
        }
      }
    }
  }

  lemma QuotedFirst(d: Dialect, text: string, rest: string)
    requires IsQuoted(d, text, rest)
    ensures TokenLen(d, text + rest) == |text|
  {
    var s, q := text + rest, Closing(d, text[0]).value;
    assert s[0] == text[0] && s[1..] == text[1..] + rest;
    var content :|
      || (text[1..] == Doubled(content, q) + [q] && (rest == [] || rest[0] != q))
      || (text[1..] == Doubled(content, q) && rest == []);
    QuoteEnds(content, q, rest);
    assert (Doubled(content, q) + [q]) + rest == Doubled(content, q) + ([q] + rest);
    assert Doubled(content, q) + [] == Doubled(content, q);
  }

  lemma BlockFirst(d: Dialect, text: string, rest: string)
    requires IsBlock(text, rest)
    ensures TokenLen(d, text + rest) == |text|
  {
    assert (text + rest)[2..] == text[2..] + rest;
    if NoClose(text[2..]) && rest == [] {
      BlockEnds(text[2..], []);
      assert text[2..] + [] == text[2..];
    } else {
      var body :| text[2..] == body + ['*', '/'] && NoClose(body + ['*']);
      BlockEnds(body, rest);
    }
  }

  lemma LegalFirst(d: Dialect, t: Token, rest: string)
    requires Legal(d, t, rest)
    ensures TextOf(t) + rest != [] && TokenLen(d, TextOf(t) + rest) == |TextOf(t)| && FirstToken(d, TextOf(t) + rest) == t
  {
    var s := TextOf(t) + rest;
    match t
    case Single(c) =>
    case Quoted(text) =>
      QuotedFirst(d, text, rest);
      assert s[..|text|] == text;
    case Comment(text) =>
      assert s[0] == text[0] && s[1] == text[1] && s[..|text|] == text;
      if IsLine(text, rest) {
        LineEnds(text, rest);
      } else {
        BlockFirst(d, text, rest);
      }
  }

  /** The scanner's reading is the only one the grammar allows. */
  lemma {:induction false} LexUnique(d: Dialect, ts: seq<Token>, s: string)
    requires Reads(d, ts, s)
    ensures ts == Lex(d, s)
  {
    if ts != [] {
      var rest := Texts(ts[1..]);
      LexUnique(d, ts[1..], rest);
      LegalFirst(d, ts[0], rest);
      assert s[|TextOf(ts[0])|..] == rest;
      assert ts == [ts[0]] + ts[1..];
    }
  }

  // ---- which characters open what ----

  /** Single and double quotes open a literal everywhere and end it themselves. For the guard backticks do too, and an
      opening bracket is ended by a closing one. Nothing else opens one. */
  lemma LiteralsOpen(d: Dialect, c: char, rest: string)
    ensures FirstToken(d, [c] + rest).Quoted? <==> c == '\'' || c == '\"' || (d == Wide && (c == '`' || c == '['))
    ensures c != '[' && FirstToken(d, [c] + rest).Quoted? ==> Closing(d, c) == Some(c)
    ensures d == Wide ==> Closing(d, '[') == Some(']')
  {
  }

  /** Two dashes start a comment that runs to the end of the line, a slash and a star one that runs to the next star and
      slash, a quote a literal that runs to the next quote that is not doubled. */
  lemma CommentsRun(d: Dialect, body: string, rest: string)
    ensures '\n' !in body ==>
              Lex(d, ("--" + body) + ("\n" + rest)) == [Comment("--" + body)] + Lex(d, "\n" + rest)
    ensures NoClose(body + ['*']) ==>
              Lex(d, ("/*" + (body + "*/")) + rest) == [Comment("/*" + (body + "*/"))] + Lex(d, rest)
  {
    if '\n' !in body {
      LineRuns(d, body, rest);
    }
    if NoClose(body + ['*']) {
      BlockRuns(d, body, rest);
    }
  }

  lemma LineRuns(d: Dialect, body: string, rest: string)
    requires '\n' !in body
    ensures Lex(d, ("--" + body) + ("\n" + rest)) == [Comment("--" + body)] + Lex(d, "\n" + rest)
  {
    var t, u := "--" + body, "\n" + rest;
    assert Starts(t, '-', '-') && u[0] == '\n' && IsLine(t, u);
    LegalFirst(d, Comment(t), u);
    assert (t + u)[|t|..] == u;
  }

  lemma BlockRuns(d: Dialect, body: string, rest: string)
    requires NoClose(body + ['*'])
    ensures Lex(d, ("/*" + (body + "*/")) + rest) == [Comment("/*" + (body + "*/"))] + Lex(d, rest)
  {
    var t := "/*" + (body + "*/");
    assert Starts(t, '/', '*') && t[2..] == body + ['*', '/'];
    assert IsBlock(t, rest);
    LegalFirst(d, Comment(t), rest);
    assert (t + rest)[|t|..] == rest;
  }
}
