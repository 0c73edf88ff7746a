/** `translate_placeholders`: `?` to `$1..$n` (pg.rs) or `@P1..@Pn` (ms.rs). */
module Placeholders {
  import opened Bytes
  import opened SqlTokens
  import Decimal

  datatype Target = Postgres | SqlServer

  function Prefix(target: Target): (p: string)
    ensures |p| > 0
  {
    match target case Postgres => ['$'] case SqlServer => ['@', 'P']
  }

  /** The spelling of the `n`-th parameter. */
  function Parameter(target: Target, n: nat): string { Prefix(target) + Decimal.Text(n) }

  // ---- token by token ----

  const MARK := Single('?')

  function Marks(ts: seq<Token>): nat { if ts == [] then 0 else (if ts[0] == MARK then 1 else 0) + Marks(ts[1..]) }

  /** Every token as it is, the marks numbered from `n + 1`. */
  function Translated(target: Target, ts: seq<Token>, n: nat): string {
    if ts == [] then []
    else if ts[0] == MARK then Parameter(target, n + 1) + Translated(target, ts[1..], n + 1)
    else TextOf(ts[0]) + Translated(target, ts[1..], n)
  }

  lemma StepTranslated(target: Target, t: Token, ts: seq<Token>, n: nat)
    ensures Translated(target, [t] + ts, n) ==
            (if t == MARK then Parameter(target, n + 1) else TextOf(t)) + Translated(target, ts, if t == MARK then n + 1 else n)
  {
    assert ([t] + ts)[1..] == ts;
  }

  lemma {:induction false} MarksConcat(a: seq<Token>, b: seq<Token>)
    ensures Marks(a + b) == Marks(a) + Marks(b)
  {
    if a == [] {
      assert a + b == b;
    } else {
      MarksConcat(a[1..], b);
      assert (a + b)[1..] == a[1..] + b;
    }
  }

  lemma {:induction false} TranslatedConcat(target: Target, a: seq<Token>, b: seq<Token>, n: nat)
    ensures Translated(target, a + b, n) == Translated(target, a, n) + Translated(target, b, n + Marks(a))
  {
    if a == [] {
      assert a + b == b;
    } else {
      var t, rest := a[0], a[1..];
      TranslatedConcat(target, rest, b, if t == MARK then n + 1 else n);
      StepConcat(target, t, rest, b, n);
      HeadTail(a, b);
      MarksConcat([t], rest);
    }
  }

  lemma HeadTail(a: seq<Token>, b: seq<Token>)
    requires a != []
    ensures a == [a[0]] + a[1..] && a + b == [a[0]] + (a[1..] + b)
  {
  }

  lemma StepConcat(target: Target, t: Token, a: seq<Token>, b: seq<Token>, n: nat)
    requires var m := if t == MARK then n + 1 else n;
             Translated(target, a + b, m) == Translated(target, a, m) + Translated(target, b, m + Marks(a))
    ensures Translated(target, [t] + (a + b), n) ==
            Translated(target, [t] + a, n) + Translated(target, b, if t == MARK then n + 1 + Marks(a) else n + Marks(a))
  {
    var m := if t == MARK then n + 1 else n;
    var x := if t == MARK then Parameter(target, n + 1) else TextOf(t);
    var y, z := Translated(target, a, m), Translated(target, b, m + Marks(a));
    assert Translated(target, [t] + (a + b), n) == x + (y + z) by { StepTranslated(target, t, a + b, n); }
    assert Translated(target, [t] + a, n) == x + y by { StepTranslated(target, t, a, n); }
    Assoc(x, y, z);
  }

  /** A mark becomes the parameter whose number counts the marks up to it; everything around it stands. */
  lemma MarkNumbered(target: Target, a: seq<Token>, b: seq<Token>)
    ensures Translated(target, a + [MARK] + b, 0) ==
            Translated(target, a, 0) + Parameter(target, Marks(a) + 1) + Translated(target, b, Marks(a) + 1)
  {
    TranslatedConcat(target, a, [MARK] + b, 0);
    assert a + [MARK] + b == a + ([MARK] + b);
    assert ([MARK] + b)[1..] == b;
  }

  /** Postgres is sent `$` and SQL Server `@P`, each before the numeral of how many marks there are up to this one. */
  lemma MarkSpelled(a: seq<Token>, b: seq<Token>) returns (num: string)
    ensures Decimal.Numeral(num) && Decimal.NumeralValue(num) == Marks(a) + 1
    ensures Translated(Postgres, a + [MARK] + b, 0) ==
            Translated(Postgres, a, 0) + ("$" + num) + Translated(Postgres, b, Marks(a) + 1)
    ensures Translated(SqlServer, a + [MARK] + b, 0) ==
            Translated(SqlServer, a, 0) + ("@P" + num) + Translated(SqlServer, b, Marks(a) + 1)
  {
    num := Decimal.Text(Marks(a) + 1);
    Decimal.NumeralReads(Marks(a) + 1);
    MarkNumbered(Postgres, a, b);
    MarkNumbered(SqlServer, a, b);
  }

  lemma {:induction false} NoMarksStands(target: Target, ts: seq<Token>, n: nat)
    requires Marks(ts) == 0
    ensures Translated(target, ts, n) == Texts(ts)
  {
    if ts != [] {
      NoMarksStands(target, ts[1..], n);
    }
  }

  // ---- the loops ----

  lemma Onward(sql: string, out: string, i: nat, k: nat, j: nat)
    requires i <= k <= j <= |sql|
    ensures (out + sql[i..k]) + sql[k..j] == out + sql[i..j]
  {
    assert sql[i..k] + sql[k..j] == sql[i..j];
  }

  lemma OneMore(sql: string, out: string, start: nat, i: nat)
    requires start <= i < |sql|
    ensures (out + sql[start..i]) + [sql[i]] == out + sql[start..i + 1]
  {
  }

  /** Copies a literal, from just after its opening quote. */
  method CopyQuoted(sql: string, start: nat, quote: char, written: string) returns (i: nat, out: string)
    requires start <= |sql|
    ensures i == start + QuoteLen(sql[start..], quote) && i <= |sql|
    ensures out == written + sql[start..i]
  {
    i, out := start, written;
    while i < |sql|
      invariant start <= i <= |sql| && out == written + sql[start..i]
      invariant i + QuoteLen(sql[i..], quote) == start + QuoteLen(sql[start..], quote)
    {
      QuoteStep(sql, i, quote);
      OneMore(sql, written, start, i);
      out := out + [sql[i]];
      if sql[i] == quote {
        if i + 1 < |sql| && sql[i + 1] == quote {
          OneMore(sql, written, start, i + 1);
          out := out + [quote];
          i := i + 2;
          continue;
        }
        i := i + 1;
        return;
      }
      i := i + 1;
    }
  }

  method CopyLine(sql: string, start: nat, written: string) returns (i: nat, out: string)
    requires start <= |sql|
    ensures i == start + LineLen(sql[start..]) && i <= |sql| && out == written + sql[start..i]
  {
    i, out := start, written;
    while i < |sql| && sql[i] != '\n'
      invariant start <= i <= |sql| && out == written + sql[start..i]
      invariant i + LineLen(sql[i..]) == start + LineLen(sql[start..])
    {
      assert sql[i..][1..] == sql[i + 1..];
      OneMore(sql, written, start, i);
      out := out + [sql[i]];
      i := i + 1;
    }
  }

  method CopyBlock(sql: string, start: nat, written: string) returns (i: nat, out: string)
    requires start <= |sql|
    ensures i == start + BlockLen(sql[start..]) && i <= |sql| && out == written + sql[start..i]
  {
    i, out := start, written;
    while i < |sql|
      invariant start <= i <= |sql| && out == written + sql[start..i]
      invariant i + BlockLen(sql[i..]) == start + BlockLen(sql[start..])
    {
      assert sql[i..][1..] == sql[i + 1..];
      if sql[i] == '*' && i + 1 < |sql| && sql[i + 1] == '/' {
        assert ['*', '/'] == sql[i..i + 2];
        Onward(sql, written, start, i, i + 2);
        out := out + ['*', '/'];
        i := i + 2;
        return;
      }
      OneMore(sql, written, start, i);
      out := out + [sql[i]];
      i := i + 1;
    }
  }

  /** What is left to translate at `i` completes what has been written. */
  ghost predicate Progress(target: Target, sql: string, i: nat, n: nat, out: string) {
    && i <= |sql|
    && out + Translated(target, Lex(Portable, sql[i..]), n) == Translated(target, Lex(Portable, sql), 0)
  }

  lemma Advance(target: Target, sql: string, i: nat, n: nat, out: string, j: nat, out': string)
    requires Progress(target, sql, i, n, out) && i < |sql| && j == i + TokenLen(Portable, sql[i..])
    requires var t := FirstToken(Portable, sql[i..]);
             out' == out + if t == MARK then Parameter(target, n + 1) else sql[i..j]
    ensures j <= |sql|
    ensures Progress(target, sql, j, if FirstToken(Portable, sql[i..]) == MARK then n + 1 else n, out')
  {
    var s, t := sql[i..], FirstToken(Portable, sql[i..]);
    assert s[j - i..] == sql[j..] && s[..j - i] == sql[i..j];
    var n' := if t == MARK then n + 1 else n;
    var piece := if t == MARK then Parameter(target, n + 1) else sql[i..j];
    StepTranslated(target, t, Lex(Portable, sql[j..]), n);
    Assoc(out, piece, Translated(target, Lex(Portable, sql[j..]), n'));
  }

  /** The body of the scanner's loop: one token from `i`. */
  method TranslateToken(target: Target, sql: string, i: nat, n: nat, written: string) returns (j: nat, out: string)
    requires i < |sql|
    ensures j == i + TokenLen(Portable, sql[i..])
    ensures out == written + if FirstToken(Portable, sql[i..]) == MARK then Parameter(target, n + 1) else sql[i..j]
  {
    var c := sql[i];
    ghost var s := sql[i..];
    if c == '\'' || c == '\"' {
      assert s[1..] == sql[i + 1..] && [c] == sql[i..i + 1];
      j, out := CopyQuoted(sql, i + 1, c, written + [c]);
      Onward(sql, written, i, i + 1, j);
    } else if c == '-' && i + 1 < |sql| && sql[i + 1] == '-' {
      assert Starts(s, '-', '-');
      j, out := CopyLine(sql, i, written);
    } else if c == '/' && i + 1 < |sql| && sql[i + 1] == '*' {
      assert Starts(s, '/', '*') && s[2..] == sql[i + 2..] && ['/', '*'] == sql[i..i + 2];
      j, out := CopyBlock(sql, i + 2, written + ['/', '*']);
      Onward(sql, written, i, i + 2, j);
    } else if c == '?' {
      j, out := i + 1, written + (Prefix(target) + Decimal.Text(n + 1));
    } else {
      j, out := i + 1, written + [c];
      assert sql[i..j] == [c];
    }
  }

  method TranslatePlaceholders(target: Target, sql: string) returns (out: string)
    ensures out == Translated(target, Lex(Portable, sql), 0)
  {
    out := [];
    var n, i := 0, 0;
    assert sql[0..] == sql;
    while i < |sql|
      invariant Progress(target, sql, i, n, out)
      decreases |sql| - i
    {
      var j, more := TranslateToken(target, sql, i, n, out);
      Advance(target, sql, i, n, out, j, more);
      if sql[i] == '?' { n := n + 1; }
      i, out := j, more;
    }
    assert sql[i..] == [];
  }

  // ---- the output reads back ----

  function Singles(s: string): (ts: seq<Token>)
    ensures |ts| == |s|
  {
    seq(|s|, k requires 0 <= k < |s| => Single(s[k]))
  }

  /** The tokens of the output: those of the input, a parameter in place of each mark. */
  function Expanded(target: Target, ts: seq<Token>, n: nat): seq<Token> {
    if ts == [] then []
    else if ts[0] == MARK then Singles(Parameter(target, n + 1)) + Expanded(target, ts[1..], n + 1)
    else [ts[0]] + Expanded(target, ts[1..], n)
  }

  /** Characters that stand alone whatever follows. */
  predicate Alone(c: char) { c != '\'' && c != '\"' && c != '-' && c != '/' && c != '?' && c != '\n' && c != '*' }

  lemma ParameterAlone(target: Target, n: nat)
    ensures forall k :: 0 <= k < |Parameter(target, n)| ==> Alone(Parameter(target, n)[k])
  {
  }

  lemma SinglesCons(s: string, ts: seq<Token>)
    requires s != []
    ensures Singles(s) + ts == [Single(s[0])] + (Singles(s[1..]) + ts)
    ensures s + Texts(ts) == [s[0]] + (s[1..] + Texts(ts))
  {
  }

  lemma AloneReads(c: char, ts: seq<Token>, rest: string)
    requires Alone(c) && Reads(Portable, ts, rest) && Texts(ts) == rest
    ensures Reads(Portable, [Single(c)] + ts, [c] + rest) && Texts([Single(c)] + ts) == [c] + rest
    ensures Marks([Single(c)] + ts) == Marks(ts)
  {
    TextsCons(Single(c), ts);
    ReadsStep(Portable, Single(c), ts, [c], rest);
    MarksConcat([Single(c)], ts);
  }

  lemma {:induction false} SinglesRead(s: string, ts: seq<Token>)
    requires forall k :: 0 <= k < |s| ==> Alone(s[k])
    requires Reads(Portable, ts, Texts(ts))
    ensures Reads(Portable, Singles(s) + ts, s + Texts(ts)) && Texts(Singles(s) + ts) == s + Texts(ts)
    ensures Marks(Singles(s) + ts) == Marks(ts)
  {
    if s == [] {
      assert Singles(s) + ts == ts && s + Texts(ts) == Texts(ts);
    } else {
      var c, rest := s[0], s[1..];
      SinglesRead(rest, ts);
      SinglesCons(s, ts);
      AloneReads(c, Singles(rest) + ts, rest + Texts(ts));
    }
  }

  /** What a token's legality sees of the text after it. */
  predicate SameLook(a: string, b: string) {
    if a == [] then b == [] else b != [] && (a[0] == b[0] || (a[0] == '?' && Alone(b[0])))
  }

  lemma LookSuffices(t: Token, a: string, b: string)
    requires Legal(Portable, t, a) && SameLook(a, b)
    ensures Legal(Portable, t, b)
  {
  }

  lemma {:induction false} ExpandedReads(target: Target, ts: seq<Token>, n: nat)
    requires Reads(Portable, ts, Texts(ts))
    ensures Texts(Expanded(target, ts, n)) == Translated(target, ts, n)
    ensures Reads(Portable, Expanded(target, ts, n), Translated(target, ts, n))
    ensures SameLook(Texts(ts), Translated(target, ts, n)) && Marks(Expanded(target, ts, n)) == 0
  {
    if ts != [] {
      var t, rest := ts[0], ts[1..];
      if t == MARK {
        ExpandedReads(target, rest, n + 1);
        ParameterAlone(target, n + 1);
        SinglesRead(Parameter(target, n + 1), Expanded(target, rest, n + 1));
      } else {
        ExpandedReads(target, rest, n);
        LookSuffices(t, Texts(rest), Translated(target, rest, n));
        TextsCons(t, Expanded(target, rest, n));
        ReadsStep(Portable, t, Expanded(target, rest, n), TextOf(t), Translated(target, rest, n));
        assert ([t] + Expanded(target, rest, n))[1..] == Expanded(target, rest, n);
        assert TextOf(t) != [];
      }
    }
  }

  /** The output falls into the same tokens as the input, each mark replaced by the characters of its parameter. */
  lemma OutputTokens(target: Target, sql: string)
    ensures Lex(Portable, Translated(target, Lex(Portable, sql), 0)) == Expanded(target, Lex(Portable, sql), 0)
  {
    LexReads(Portable, sql);
    LexTexts(Portable, sql);
    ExpandedReads(target, Lex(Portable, sql), 0);
    LexUnique(Portable, Expanded(target, Lex(Portable, sql), 0), Translated(target, Lex(Portable, sql), 0));
  }

  /** Translating again, for either server, changes nothing. */
  lemma TranslatedOnce(target: Target, again: Target, sql: string)
    ensures var out := Translated(target, Lex(Portable, sql), 0);
            Translated(again, Lex(Portable, out), 0) == out
  {
    var out := Translated(target, Lex(Portable, sql), 0);
    OutputTokens(target, sql);
    LexReads(Portable, sql);
    LexTexts(Portable, sql);
    ExpandedReads(target, Lex(Portable, sql), 0);
    NoMarksStands(again, Lex(Portable, out), 0);
    LexTexts(Portable, out);
  }
}
