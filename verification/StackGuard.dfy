/** `has_stacked_statements`: is there a second statement? (guard.rs) */
module StackGuard {
  import opened Bytes
  import opened SqlTokens

  predicate Space(c: char) { c == ' ' || c == '\t' || c == '\n' || c == 12 as char || c == '\r' }

  predicate Trivia(t: Token) { t.Comment? || (t.Single? && Space(t.c)) }

  /** Some `;` in the code comes before a token that is neither space nor comment. */
  ghost predicate Stacked(ts: seq<Token>) {
    exists i, j :: 0 <= i < j < |ts| && ts[i] == Single(';') && !Trivia(ts[j])
  }

  /** A semicolon in the code, and after it something other than comments, blanks, tabs, line feeds, form feeds and
      carriage returns. */
  ghost predicate SecondStatement(ts: seq<Token>) {
    exists i, j :: 0 <= i < j < |ts| && ts[i] == Single(';') && !ts[j].Comment? &&
                   forall b :: b in [9, 10, 12, 13, 32] ==> ts[j] != Single(b as char)
  }

  /** That is what is looked for. */
  lemma StackedIs(ts: seq<Token>)
    ensures Stacked(ts) <==> SecondStatement(ts)
  {
    forall t: Token ensures Trivia(t) <==> t.Comment? || exists b :: b in [9, 10, 12, 13, 32] && t == Single(b as char) {
      if t.Single? && Space(t.c) {
        var b := t.c as int;
        assert b in [9, 10, 12, 13, 32] && t == Single(b as char);
      }
    }
  }

  // ---- as the scanner sees it ----

  /** The scan of the remaining tokens. */
  predicate Scan(ts: seq<Token>, seen: bool) {
    if ts == [] then false
    else if Trivia(ts[0]) then Scan(ts[1..], seen)
    else seen || Scan(ts[1..], ts[0] == Single(';'))
  }

  ghost predicate HasCode(ts: seq<Token>) { exists j :: 0 <= j < |ts| && !Trivia(ts[j]) }

  lemma {:induction false} ScanIs(ts: seq<Token>)
    ensures Scan(ts, true) <==> HasCode(ts)
    ensures Scan(ts, false) <==> Stacked(ts)
  {
    if ts != [] {
      var rest := ts[1..];
      ScanIs(rest);
      if HasCode(rest) {
        var j :| 0 <= j < |rest| && !Trivia(rest[j]);
        assert !Trivia(ts[j + 1]);
        if ts[0] == Single(';') { assert Stacked(ts); }
      }
      if HasCode(ts) && Trivia(ts[0]) {
        var j :| 0 <= j < |ts| && !Trivia(ts[j]);
        assert rest[j - 1] == ts[j];
      }
      if Stacked(rest) {
        var i, j :| 0 <= i < j < |rest| && rest[i] == Single(';') && !Trivia(rest[j]);
        assert ts[i + 1] == Single(';') && !Trivia(ts[j + 1]);
      }
      if Stacked(ts) {
        var i, j :| 0 <= i < j < |ts| && ts[i] == Single(';') && !Trivia(ts[j]);
        assert rest[j - 1] == ts[j];
        if i > 0 { assert rest[i - 1] == ts[i] && Stacked(rest); }
      }
    }
  }

  // ---- the loops ----

  method SkipQuoted(sql: string, start: nat, quote: char) returns (i: nat)
    requires start <= |sql|
    ensures i == start + QuoteLen(sql[start..], quote) && i <= |sql|
  {
    i := start;
    while i < |sql|
      invariant start <= i <= |sql|
      invariant i + QuoteLen(sql[i..], quote) == start + QuoteLen(sql[start..], quote)
    {
      QuoteStep(sql, i, quote);
      if sql[i] == quote {
        if i + 1 < |sql| && sql[i + 1] == quote {
          i := i + 2;
          continue;
        }
        i := i + 1;
        return;
      }
      i := i + 1;
    }
  }

  method SkipLine(sql: string, start: nat) returns (i: nat)
    requires start <= |sql|
    ensures i == start + LineLen(sql[start..]) && i <= |sql|
  {
    i := start;
    while i < |sql| && sql[i] != '\n'
      invariant start <= i <= |sql| && i + LineLen(sql[i..]) == start + LineLen(sql[start..])
    {
      assert sql[i..][1..] == sql[i + 1..];
      i := i + 1;
    }
  }

  method SkipBlock(sql: string, start: nat) returns (i: nat)
    requires start <= |sql|
    ensures i == start + BlockLen(sql[start..]) && i <= |sql|
  {
    i := start;
    while i < |sql|
      invariant start <= i <= |sql| && i + BlockLen(sql[i..]) == start + BlockLen(sql[start..])
    {
      assert sql[i..][1..] == sql[i + 1..];
      if sql[i] == '*' && i + 1 < |sql| && sql[i + 1] == '/' {
        i := i + 2;
        return;
      }
      i := i + 1;
    }
  }

  lemma LexStep(sql: string, i: nat)
    requires i < |sql|
    ensures i + TokenLen(Wide, sql[i..]) <= |sql|
    ensures Lex(Wide, sql[i..]) == [FirstToken(Wide, sql[i..])] + Lex(Wide, sql[i + TokenLen(Wide, sql[i..])..])
  {
    assert sql[i..][TokenLen(Wide, sql[i..])..] == sql[i + TokenLen(Wide, sql[i..])..];
  }

  lemma ScanStep(t: Token, ts: seq<Token>, seen: bool)
    ensures Scan([t] + ts, seen) == if Trivia(t) then Scan(ts, seen) else seen || Scan(ts, t == Single(';'))
  {
    assert ([t] + ts)[1..] == ts;
  }

  /** Skips a comment or a space. */
  method SkipTrivia(sql: string, i: nat) returns (j: nat, trivia: bool)
    requires i < |sql|
    ensures trivia <==> Trivia(FirstToken(Wide, sql[i..]))
    ensures j == if trivia then i + TokenLen(Wide, sql[i..]) else i
  {
    var c := sql[i];
    ghost var s := sql[i..];
    if c == '-' && i + 1 < |sql| && sql[i + 1] == '-' {
      assert Starts(s, '-', '-');
      j := SkipLine(sql, i);
      return j, true;
    }
    if c == '/' && i + 1 < |sql| && sql[i + 1] == '*' {
      assert Starts(s, '/', '*') && s[2..] == sql[i + 2..];
      j := SkipBlock(sql, i + 2);
      return j, true;
    }
    if Space(c) {
      return i + 1, true;
    }
    return i, false;
  }

  method SkipCode(sql: string, i: nat) returns (j: nat)
    requires i < |sql| && !Trivia(FirstToken(Wide, sql[i..]))
    ensures j == i + TokenLen(Wide, sql[i..])
  {
    var c := sql[i];
    assert sql[i..][1..] == sql[i + 1..];
    if c == '\'' || c == '\"' || c == '`' {
      j := SkipQuoted(sql, i + 1, c);
    } else if c == '[' {
      j := SkipQuoted(sql, i + 1, ']');
    } else {
      j := i + 1;
    }
  }

  ghost predicate Scanned(sql: string, i: nat, seen: bool) {
    i <= |sql| && Scan(Lex(Wide, sql[i..]), seen) == Scan(Lex(Wide, sql), false)
  }

  lemma Advance(sql: string, i: nat, seen: bool)
    requires Scanned(sql, i, seen) && i < |sql|
    ensures var t, j := FirstToken(Wide, sql[i..]), i + TokenLen(Wide, sql[i..]);
            && (Trivia(t) ==> Scanned(sql, j, seen))
            && (!Trivia(t) && seen ==> Scan(Lex(Wide, sql), false))
            && (!Trivia(t) && !seen ==> Scanned(sql, j, t == Single(';')))
  {
    LexStep(sql, i);
    ScanStep(FirstToken(Wide, sql[i..]), Lex(Wide, sql[i + TokenLen(Wide, sql[i..])..]), seen);
  }

  lemma ScannedAll(sql: string, seen: bool)
    requires Scanned(sql, |sql|, seen)
    ensures !Scan(Lex(Wide, sql), false)
  {
    assert sql[|sql|..] == [];
  }

  /** The body of the loop: one token from `i`, or the verdict. */
  method ScanToken(sql: string, i: nat, seen: bool) returns (j: nat, seen': bool, second: bool)
    requires Scanned(sql, i, seen) && i < |sql|
    ensures if second then Scan(Lex(Wide, sql), false) else i < j && Scanned(sql, j, seen')
  {
    Advance(sql, i, seen);
    var trivia;
    j, trivia := SkipTrivia(sql, i);
    seen', second := seen, false;
    if trivia {
      return;
    }
    if seen {
      return j, seen, true;
    }
    Semicolon(sql, i);
    if sql[i] == ';' {
      seen' := true;
      j := i + 1;
    } else {
      j := SkipCode(sql, i);
    }
  }

  lemma Semicolon(sql: string, i: nat)
    requires i < |sql|
    ensures FirstToken(Wide, sql[i..]) == Single(';') <==> sql[i] == ';'
    ensures sql[i] == ';' ==> TokenLen(Wide, sql[i..]) == 1
  {
  }

  method HasStackedStatements(sql: string) returns (r: bool)
    ensures r <==> Stacked(Lex(Wide, sql))
  {
    assert Scan(Lex(Wide, sql), false) <==> Stacked(Lex(Wide, sql)) by { ScanIs(Lex(Wide, sql)); }
    var i, seen := 0, false;
    assert Scanned(sql, 0, false) by { assert sql[0..] == sql; }
    while i < |sql|
      invariant Scanned(sql, i, seen)
      decreases |sql| - i
    {
      var second;
      i, seen, second := ScanToken(sql, i, seen);
      if second {
        return true;
      }
    }
    ScannedAll(sql, seen);
    r := false;
  }

  // ---- quoting hides whatever is quoted ----

  lemma {:induction false} QuoteLocal(s: string, v: string, q: char)
    requires QuoteLen(s, q) < |s|
    ensures QuoteLen(s + v, q) == QuoteLen(s, q)
  {
    assert (s + v)[1..] == s[1..] + v;
    if s[0] != q {
      QuoteLocal(s[1..], v, q);
    } else if |s| >= 2 && s[1] == q {
      assert (s + v)[2..] == s[2..] + v;
      QuoteLocal(s[2..], v, q);
    }
  }

  lemma {:induction false} LineLocal(s: string, v: string)
    requires LineLen(s) < |s|
    ensures LineLen(s + v) == LineLen(s)
  {
    assert (s + v)[1..] == s[1..] + v;
    if s[0] != '\n' {
      LineLocal(s[1..], v);
    }
  }

  lemma {:induction false} BlockLocal(s: string, v: string)
    requires BlockLen(s) < |s|
    ensures BlockLen(s + v) == BlockLen(s)
  {
    assert (s + v)[1..] == s[1..] + v;
    if !Starts(s, '*', '/') {
      BlockLocal(s[1..], v);
    }
  }

  /** A token that ends before the end of the text does not depend on what is added. */
  lemma FirstLocal(d: Dialect, s: string, v: string)
    requires s != [] && TokenLen(d, s) < |s|
    ensures TokenLen(d, s + v) == TokenLen(d, s) && FirstToken(d, s + v) == FirstToken(d, s)
  {
    var n := TokenLen(d, s);
    assert (s + v)[0] == s[0] && (s + v)[1] == s[1] && (s + v)[1..] == s[1..] + v && (s + v)[2..] == s[2..] + v;
    if Closing(d, s[0]).Some? {
      QuoteLocal(s[1..], v, Closing(d, s[0]).value);
    } else if Starts(s, '-', '-') {
      LineLocal(s, v);
    } else if Starts(s, '/', '*') {
      BlockLocal(s[2..], v);
    }
    assert (s + v)[..n] == s[..n];
  }

  /** Writing `open` after `before` starts a literal. */
  predicate OpensAfter(d: Dialect, before: string, open: char) {
    Lex(d, before + [open]) == Lex(d, before) + [Quoted([open])]
  }

  lemma OpensStep(d: Dialect, before: string, open: char)
    requires OpensAfter(d, before, open) && before != []
    ensures var n := TokenLen(d, before);
            && TokenLen(d, before + [open]) == n && FirstToken(d, before + [open]) == FirstToken(d, before)
            && OpensAfter(d, before[n..], open)
  {
    var u, n, last := before + [open], TokenLen(d, before), [Quoted([open])];
    var m := TokenLen(d, u);
    Assoc([FirstToken(d, before)], Lex(d, before[n..]), last);
    assert Lex(d, u) == [FirstToken(d, u)] + Lex(d, u[m..]) && Lex(d, before) == [FirstToken(d, before)] + Lex(d, before[n..]);
    SameCut([FirstToken(d, u)], Lex(d, u[m..]), [FirstToken(d, before)], Lex(d, before[n..]) + last);
    assert [FirstToken(d, u)][0] == [FirstToken(d, before)][0];
    assert |TextOf(FirstToken(d, u))| == m && |TextOf(FirstToken(d, before))| == n;
    assert u[n..] == before[n..] + [open];
  }

  lemma {:induction false} LexAfter(d: Dialect, before: string, open: char, text: string)
    requires OpensAfter(d, before, open) && text != [] && text[0] == open
    ensures Lex(d, before + text) == Lex(d, before) + Lex(d, text)
    decreases |before|
  {
    if before == [] {
      assert before + text == text;
    } else {
      var n := TokenLen(d, before);
      var t, rest := FirstToken(d, before), before[n..];
      OpensStep(d, before, open);
      LexAfter(d, rest, open, text);
      FirstAfter(d, before, open, text, n);
      LexCons(d, before + text, n, t, rest + text);
      LexCons(d, before, n, t, rest);
      Grown(t, Lex(d, rest), Lex(d, text), Lex(d, before + text), Lex(d, before));
    }
  }

  lemma FirstAfter(d: Dialect, before: string, open: char, text: string, n: nat)
    requires before != [] && text != [] && text[0] == open && n == TokenLen(d, before)
    requires TokenLen(d, before + [open]) == n && FirstToken(d, before + [open]) == FirstToken(d, before)
    ensures TokenLen(d, before + text) == n && FirstToken(d, before + text) == FirstToken(d, before)
    ensures (before + text)[n..] == before[n..] + text
  {
    FirstLocal(d, before + [open], text[1..]);
    OpenText(before, open, text);
  }

  lemma Grown(t: Token, a: seq<Token>, b: seq<Token>, whole: seq<Token>, part: seq<Token>)
    requires whole == [t] + (a + b) && part == [t] + a
    ensures whole == part + b
  {
  }

  lemma OpenText(before: string, open: char, text: string)
    requires text != [] && text[0] == open
    ensures before + text == (before + [open]) + text[1..]
  {
  }

  lemma LexCons(d: Dialect, s: string, n: nat, t: Token, rest: string)
    requires s != [] && TokenLen(d, s) == n && FirstToken(d, s) == t && s[n..] == rest
    ensures Lex(d, s) == [t] + Lex(d, rest)
  {
  }

  function Literal(open: char, close: char, content: string): string { [open] + (Doubled(content, close) + [close]) }

  /** A value quoted by doubling is one token, whatever it contains. */
  lemma QuotedIsOne(d: Dialect, before: string, open: char, close: char, content: string, after: string)
    requires Closing(d, open) == Some(close) && OpensAfter(d, before, open) && (after == [] || after[0] != close)
    ensures Lex(d, before + (Literal(open, close, content) + after)) ==
            Lex(d, before) + ([Quoted(Literal(open, close, content))] + Lex(d, after))
  {
    var text := Literal(open, close, content);
    LexAfter(d, before, open, text + after);
    assert text[1..] == Doubled(content, close) + [close];
    assert Legal(d, Quoted(text), after);
    LegalFirst(d, Quoted(text), after);
    assert (text + after)[|text|..] == after;
  }

  lemma {:induction false} ScanThrough(a: seq<Token>, x: Token, y: Token, b: seq<Token>, seen: bool)
    requires x.Quoted? && y.Quoted?
    ensures Scan(a + ([x] + b), seen) == Scan(a + ([y] + b), seen)
  {
    if a == [] {
      assert a + ([x] + b) == [x] + b && a + ([y] + b) == [y] + b;
      ScanStep(x, b, seen);
      ScanStep(y, b, seen);
    } else {
      ScanThrough(a[1..], x, y, b, seen);
      ScanThrough(a[1..], x, y, b, a[0] == Single(';'));
      assert a + ([x] + b) == [a[0]] + (a[1..] + ([x] + b)) && a + ([y] + b) == [a[0]] + (a[1..] + ([y] + b));
      ScanStep(a[0], a[1..] + ([x] + b), seen);
      ScanStep(a[0], a[1..] + ([y] + b), seen);
    }
  }

  /** So the guard's answer does not depend on the value. */
  lemma QuotingHides(before: string, open: char, close: char, one: string, other: string, after: string)
    requires Closing(Wide, open) == Some(close) && OpensAfter(Wide, before, open) && (after == [] || after[0] != close)
    ensures Stacked(Lex(Wide, before + (Literal(open, close, one) + after))) <==>
            Stacked(Lex(Wide, before + (Literal(open, close, other) + after)))
  {
    QuotedIsOne(Wide, before, open, close, one, after);
    QuotedIsOne(Wide, before, open, close, other, after);
    ScanThrough(Lex(Wide, before), Quoted(Literal(open, close, one)), Quoted(Literal(open, close, other)), Lex(Wide, after), false);
    ScanIs(Lex(Wide, before + (Literal(open, close, one) + after)));
    ScanIs(Lex(Wide, before + (Literal(open, close, other) + after)));
  }
}
