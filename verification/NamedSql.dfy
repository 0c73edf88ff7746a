/** `compile_named_sql`: `:name` to `?` (powder-cli schema.rs), and its numbering by `translate_placeholders`. */
module NamedSql {
  import opened Bytes
  import opened SqlTokens
  import opened Placeholders

  /** A character copied, inside or outside a string literal, or the place of a parameter. */
  datatype Piece = Copy(c: char, inText: bool) | Name(name: string)

  predicate IdentHead(c: char) { 'a' <= c <= 'z' || 'A' <= c <= 'Z' || c == '_' }

  predicate IdentTail(c: char) { IdentHead(c) || '0' <= c <= '9' }

  function IdentLen(s: string): (n: nat)
    ensures n <= |s|
  {
    if s == [] || !IdentTail(s[0]) then 0 else 1 + IdentLen(s[1..])
  }

  predicate NameStarts(s: string) { |s| >= 2 && s[0] == ':' && IdentHead(s[1]) }

  function Pieces(s: string, inText: bool): seq<Piece> {
    if s == [] then []
    else if inText then [Copy(s[0], true)] + Pieces(s[1..], s[0] != '\'')
    else if s[0] == '\'' then [Copy('\'', true)] + Pieces(s[1..], true)
    else if Starts(s, ':', ':') then [Copy(':', false), Copy(':', false)] + Pieces(s[2..], false)
    else if NameStarts(s) then
      [Name(s[1..1 + IdentLen(s[1..])])] + Pieces(s[1 + IdentLen(s[1..])..], false)
    else [Copy(s[0], false)] + Pieces(s[1..], false)
  }

  function PieceText(p: Piece, name: string): string { if p.Copy? then [p.c] else name }

  function Compiled(ps: seq<Piece>): string { if ps == [] then [] else PieceText(ps[0], ['?']) + Compiled(ps[1..]) }

  function Source(ps: seq<Piece>): string {
    if ps == [] then [] else (if ps[0].Copy? then [ps[0].c] else [':'] + ps[0].name) + Source(ps[1..])
  }

  function Names(ps: seq<Piece>): seq<string> {
    if ps == [] then [] else (if ps[0].Copy? then [] else [ps[0].name]) + Names(ps[1..])
  }

  lemma ConsPiece(p: Piece, ps: seq<Piece>)
    ensures Compiled([p] + ps) == PieceText(p, ['?']) + Compiled(ps)
    ensures Names([p] + ps) == (if p.Copy? then [] else [p.name]) + Names(ps)
    ensures Source([p] + ps) == (if p.Copy? then [p.c] else [':'] + p.name) + Source(ps)
  {
    assert ([p] + ps)[1..] == ps;
  }

  lemma SourceOfCast(rest: seq<Piece>, s: string)
    requires Starts(s, ':', ':') && Source(rest) == s[2..]
    ensures Source([Copy(':', false)] + ([Copy(':', false)] + rest)) == s
  {
    ConsPiece(Copy(':', false), rest);
    ConsPiece(Copy(':', false), [Copy(':', false)] + rest);
    assert s == [':'] + ([':'] + s[2..]);
  }

  lemma SourceOfName(rest: seq<Piece>, s: string, n: nat)
    requires s != [] && s[0] == ':' && n < |s| && Source(rest) == s[1 + n..]
    ensures Source([Name(s[1..][..n])] + rest) == s
  {
    ConsPiece(Name(s[1..][..n]), rest);
    assert s == [':'] + s[1..][..n] + s[1 + n..];
  }

  /** The pieces put together are the source: nothing but the names changes. */
  lemma {:induction false} PiecesSource(s: string, inText: bool)
    ensures Source(Pieces(s, inText)) == s
    decreases |s|
  {
    if s != [] {
      if inText {
        PiecesSource(s[1..], s[0] != '\'');
        ConsPiece(Copy(s[0], true), Pieces(s[1..], s[0] != '\''));
      } else if s[0] == '\'' {
        PiecesSource(s[1..], true);
        ConsPiece(Copy('\'', true), Pieces(s[1..], true));
      } else if Starts(s, ':', ':') {
        PiecesSource(s[2..], false);
        CastPieces(s);
        SourceOfCast(Pieces(s[2..], false), s);
      } else if NameStarts(s) {
        var n := IdentLen(s[1..]);
        PiecesSource(s[1 + n..], false);
        NameFirst(s);
        SourceOfName(Pieces(s[1 + n..], false), s, n);
      } else {
        PiecesSource(s[1..], false);
        ConsPiece(Copy(s[0], false), Pieces(s[1..], false));
      }
    }
  }

  // ---- the loop ----

  datatype Outcome = Ok(sql: string, order: seq<string>) | Undeclared(name: string) | Unused(param: string)

  function FirstUndeclared(names: seq<string>, declared: seq<string>): Option<string> {
    if names == [] then None else if names[0] !in declared then Some(names[0]) else FirstUndeclared(names[1..], declared)
  }

  function FirstUnused(declared: seq<string>, names: seq<string>): Option<string> {
    if declared == [] then None else if declared[0] !in names then Some(declared[0]) else FirstUnused(declared[1..], names)
  }

  lemma {:induction false} UndeclaredConcat(a: seq<string>, b: seq<string>, declared: seq<string>)
    requires FirstUndeclared(a, declared).None?
    ensures FirstUndeclared(a + b, declared) == FirstUndeclared(b, declared)
  {
    if a == [] {
      assert a + b == b;
    } else {
      assert (a + b)[1..] == a[1..] + b;
      UndeclaredConcat(a[1..], b, declared);
    }
  }

  lemma {:induction false} UndeclaredNone(names: seq<string>, declared: seq<string>)
    ensures FirstUndeclared(names, declared).None? <==> forall k :: 0 <= k < |names| ==> names[k] in declared
  {
    if names != [] {
      UndeclaredNone(names[1..], declared);
      assert forall k :: 0 < k < |names| ==> names[k] == names[1..][k - 1];
    }
  }

  lemma {:induction false} UnusedNone(declared: seq<string>, names: seq<string>)
    ensures FirstUnused(declared, names).None? <==> forall k :: 0 <= k < |declared| ==> declared[k] in names
  {
    if declared != [] {
      UnusedNone(declared[1..], names);
      assert forall k :: 0 < k < |declared| ==> declared[k] == declared[1..][k - 1];
    }
  }

  /** The first of `xs` that is not among `ys`. */
  predicate FirstMissing(xs: seq<string>, ys: seq<string>, x: string) {
    exists k :: 0 <= k < |xs| && xs[k] == x && x !in ys && forall j :: 0 <= j < k ==> xs[j] in ys
  }

  lemma {:induction false} UndeclaredIs(names: seq<string>, declared: seq<string>)
    ensures FirstUndeclared(names, declared).Some? ==> FirstMissing(names, declared, FirstUndeclared(names, declared).value)
  {
    if names != [] && names[0] in declared && FirstUndeclared(names[1..], declared).Some? {
      UndeclaredIs(names[1..], declared);
      MissingLater(names, declared, FirstUndeclared(names, declared).value);
    }
  }

  lemma {:induction false} UnusedIs(declared: seq<string>, names: seq<string>)
    ensures FirstUnused(declared, names).Some? ==> FirstMissing(declared, names, FirstUnused(declared, names).value)
  {
    if declared != [] && declared[0] in names && FirstUnused(declared[1..], names).Some? {
      UnusedIs(declared[1..], names);
      MissingLater(declared, names, FirstUnused(declared, names).value);
    }
  }

  lemma MissingLater(xs: seq<string>, ys: seq<string>, x: string)
    requires xs != [] && xs[0] in ys && FirstMissing(xs[1..], ys, x)
    ensures FirstMissing(xs, ys, x)
  {
    var k :| 0 <= k < |xs| - 1 && xs[1..][k] == x && x !in ys && forall j :: 0 <= j < k ==> xs[1..][j] in ys;
    assert forall j :: 0 < j < k + 1 ==> xs[j] == xs[1..][j - 1];
    assert xs[k + 1] == x;
  }

  method ScanIdent(sql: string, start: nat) returns (end: nat)
    requires start <= |sql|
    ensures end == start + IdentLen(sql[start..]) && end <= |sql|
  {
    end := start;
    while end < |sql| && IdentTail(sql[end])
      invariant start <= end <= |sql| && end + IdentLen(sql[end..]) == start + IdentLen(sql[start..])
    {
      assert sql[end..][1..] == sql[end + 1..];
      end := end + 1;
    }
  }

  /** What is left at `i` completes what has been written. */
  ghost predicate Progress(sql: string, i: nat, inText: bool, out: string, order: seq<string>) {
    && i <= |sql|
    && out + Compiled(Pieces(sql[i..], inText)) == Compiled(Pieces(sql, false))
    && order + Names(Pieces(sql[i..], inText)) == Names(Pieces(sql, false))
  }

  /** One piece goes over from what is left to what is written. */
  lemma Over(sql: string, i: nat, inText: bool, out: string, order: seq<string>, p: Piece, j: nat, after: bool)
    requires Progress(sql, i, inText, out, order) && i <= j <= |sql|
    requires Pieces(sql[i..], inText) == [p] + Pieces(sql[j..], after)
    ensures Progress(sql, j, after, out + PieceText(p, ['?']), order + if p.Copy? then [] else [p.name])
  {
    var rest := Pieces(sql[j..], after);
    ConsPiece(p, rest);
    Assoc(out, PieceText(p, ['?']), Compiled(rest));
    Assoc(order, if p.Copy? then [] else [p.name], Names(rest));
  }

  lemma CastPieces(s: string)
    requires Starts(s, ':', ':')
    ensures s[0] != '\'' && Pieces(s, false) == [Copy(':', false)] + ([Copy(':', false)] + Pieces(s[2..], false))
  {
  }

  lemma CastTexts(rest: seq<Piece>, out: string)
    ensures var cast := [Copy(':', false)] + ([Copy(':', false)] + rest);
            out + Compiled(cast) == (out + [':', ':']) + Compiled(rest) && Names(cast) == Names(rest)
  {
    var colon := Copy(':', false);
    ConsPiece(colon, [colon] + rest);
    ConsPiece(colon, rest);
    TwoMore(out, Compiled(rest));
  }

  lemma OverCast(sql: string, i: nat, out: string, order: seq<string>)
    requires Progress(sql, i, false, out, order) && i + 2 <= |sql| && sql[i] == ':' && sql[i + 1] == ':'
    ensures Progress(sql, i + 2, false, out + [':', ':'], order)
  {
    assert sql[i..][2..] == sql[i + 2..];
    CastPieces(sql[i..]);
    CastTexts(Pieces(sql[i + 2..], false), out);
  }

  lemma TwoMore(out: string, rest: string)
    ensures out + ([':'] + ([':'] + rest)) == (out + [':', ':']) + rest
  {
  }

  lemma Window(sql: string, i: nat, j: nat)
    requires i < j <= |sql|
    ensures sql[i + 1..][..j - i - 1] == sql[i + 1..j] && sql[i..][j - i..] == sql[j..]
  {
  }

  lemma NameFirst(s: string)
    requires NameStarts(s)
    ensures Pieces(s, false) == [Name(s[1..][..IdentLen(s[1..])])] + Pieces(s[1 + IdentLen(s[1..])..], false)
  {
    assert s[0] != '\'' && !Starts(s, ':', ':') && s[1..1 + IdentLen(s[1..])] == s[1..][..IdentLen(s[1..])];
  }

  lemma OverName(sql: string, i: nat, out: string, order: seq<string>, j: nat)
    requires Progress(sql, i, false, out, order) && i + 1 < |sql| && sql[i] == ':' && IdentHead(sql[i + 1])
    requires j == i + 1 + IdentLen(sql[i + 1..])
    ensures j <= |sql| && Progress(sql, j, false, out + ['?'], order + [sql[i + 1..j]])
  {
    assert sql[i..][1..] == sql[i + 1..];
    NameFirst(sql[i..]);
    Window(sql, i, j);
    Over(sql, i, false, out, order, Name(sql[i + 1..j]), j, false);
  }

  lemma OverChar(sql: string, i: nat, inText: bool, out: string, order: seq<string>)
    requires Progress(sql, i, inText, out, order) && i < |sql|
    requires inText || (!Starts(sql[i..], ':', ':') && !NameStarts(sql[i..]))
    ensures Progress(sql, i + 1, if inText then sql[i] != '\'' else sql[i] == '\'', out + [sql[i]], order)
  {
    assert sql[i..][1..] == sql[i + 1..];
    var after := if inText then sql[i] != '\'' else sql[i] == '\'';
    var p := Copy(sql[i], inText || sql[i] == '\'');
    Over(sql, i, inText, out, order, p, i + 1, after);
    assert order + [] == order;
  }

  method FindUnused(declared: seq<string>, order: seq<string>) returns (r: Option<string>)
    ensures r == FirstUnused(declared, order)
  {
    assert declared[0..] == declared;
    for k := 0 to |declared|
      invariant FirstUnused(declared, order) == FirstUnused(declared[k..], order)
    {
      assert declared[k..][1..] == declared[k + 1..];
      if declared[k] !in order {
        return Some(declared[k]);
      }
    }
    r := None;
  }

  /** An undeclared name is the first one. */
  lemma NameChecked(order: seq<string>, name: string, rest: seq<string>, declared: seq<string>)
    requires FirstUndeclared(order, declared).None?
    ensures name in declared ==> FirstUndeclared(order + [name], declared).None?
    ensures name !in declared ==> FirstUndeclared((order + [name]) + rest, declared) == Some(name)
  {
    UndeclaredConcat(order, [name], declared);
    UndeclaredConcat(order, [name] + rest, declared);
    assert [name][1..] == [] && (order + [name]) + rest == order + ([name] + rest);
  }

  method CompileNamedSql(sql: string, declared: seq<string>) returns (r: Outcome)
    ensures var ps := Pieces(sql, false);
            r == match FirstUndeclared(Names(ps), declared)
                 case Some(name) => Undeclared(name)
                 case None =>
                   match FirstUnused(declared, Names(ps))
                   case Some(p) => Unused(p)
                   case None => Ok(Compiled(ps), Names(ps))
    ensures var names := Names(Pieces(sql, false));
            r.Ok? <==> (forall k :: 0 <= k < |names| ==> names[k] in declared) &&
                       (forall k :: 0 <= k < |declared| ==> declared[k] in names)
    ensures r.Undeclared? ==> FirstMissing(Names(Pieces(sql, false)), declared, r.name)
    ensures r.Unused? ==> FirstMissing(declared, Names(Pieces(sql, false)), r.param)
  {
    UndeclaredNone(Names(Pieces(sql, false)), declared);
    UnusedNone(declared, Names(Pieces(sql, false)));
    UndeclaredIs(Names(Pieces(sql, false)), declared);
    UnusedIs(declared, Names(Pieces(sql, false)));
    var out: string, order: seq<string> := [], [];
    var i, inStr := 0, false;
    assert sql[0..] == sql;
    while i < |sql|
      invariant Progress(sql, i, inStr, out, order) && FirstUndeclared(order, declared).None?
      decreases |sql| - i
    {
      var c := sql[i];
      if inStr {
        OverChar(sql, i, true, out, order);
        out := out + [c];
        if c == '\'' { inStr := false; }
        i := i + 1;
      } else if c == ':' && i + 1 < |sql| && sql[i + 1] == ':' {
        OverCast(sql, i, out, order);
        out := out + [':', ':'];
        i := i + 2;
      } else if c == ':' && i + 1 < |sql| && IdentHead(sql[i + 1]) {
        var end := ScanIdent(sql, i + 1);
        var name := sql[i + 1..end];
        OverName(sql, i, out, order, end);
        NameChecked(order, name, Names(Pieces(sql[end..], false)), declared);
        if name !in declared {
          return Undeclared(name);
        }
        out := out + ['?'];
        order := order + [name];
        i := end;
      } else {
        OverChar(sql, i, false, out, order);
        if c == '\'' { inStr := true; }
        out := out + [c];
        i := i + 1;
      }
    }
    assert sql[i..] == [] && out + [] == out && order + [] == order;
    var unused := FindUnused(declared, order);
    r := match unused case Some(p) => Unused(p) case None => Ok(out, order);
  }

  // ---- then numbering the marks ----

  /** The source with the k-th name spelled as the k-th parameter. */
  function Numbered(target: Target, ps: seq<Piece>, n: nat): string {
    if ps == [] then []
    else if ps[0].Name? then Parameter(target, n + 1) + Numbered(target, ps[1..], n + 1)
    else [ps[0].c] + Numbered(target, ps[1..], n)
  }

  predicate Bare(p: Piece) { p == Copy('?', false) }

  /** The same when question marks in the code count as well. */
  function NumberedAll(target: Target, ps: seq<Piece>, n: nat): string {
    if ps == [] then []
    else if ps[0].Name? || Bare(ps[0]) then Parameter(target, n + 1) + NumberedAll(target, ps[1..], n + 1)
    else [ps[0].c] + NumberedAll(target, ps[1..], n)
  }

  /** No double quote and no comment opens in the code: the two scanners read string literals alike. */
  predicate Simple(ps: seq<Piece>) {
    ps != [] ==>
      && ps[0] != Copy('\"', false)
      && (|ps| > 1 && ps[0] == Copy('-', false) ==> ps[1] != Copy('-', false))
      && (|ps| > 1 && ps[0] == Copy('/', false) ==> ps[1] != Copy('*', false))
      && Simple(ps[1..])
  }

  lemma ConsNumbered(target: Target, p: Piece, ps: seq<Piece>, n: nat)
    ensures NumberedAll(target, [p] + ps, n) ==
            if p.Name? || Bare(p) then Parameter(target, n + 1) + NumberedAll(target, ps, n + 1)
            else [p.c] + NumberedAll(target, ps, n)
    ensures Simple([p] + ps) ==> Simple(ps)
  {
    assert ([p] + ps)[1..] == ps;
  }

  function Rest(target: Target, text: string, n: nat): string { Translated(target, Lex(Portable, text), n) }

  lemma RestSingle(target: Target, c: char, text: string, n: nat)
    requires Closing(Portable, c).None? && !Starts([c] + text, '-', '-') && !Starts([c] + text, '/', '*')
    ensures Rest(target, [c] + text, n) ==
            if c == '?' then Parameter(target, n + 1) + Rest(target, text, n + 1) else [c] + Rest(target, text, n)
  {
    assert ([c] + text)[1..] == text;
    StepTranslated(target, Single(c), Lex(Portable, text), n);
  }

  lemma RestQuoted(target: Target, text: string, n: nat)
    ensures var m := QuoteLen(text, '\'');
            Rest(target, ['\''] + text, n) == ['\''] + (text[..m] + Rest(target, text[m..], n))
  {
    var s, m := ['\''] + text, QuoteLen(text, '\'');
    assert s[1..] == text && s[1 + m..] == text[m..] && s[..1 + m] == ['\''] + text[..m];
    StepTranslated(target, Quoted(s[..1 + m]), Lex(Portable, text[m..]), n);
    Assoc(['\''], text[..m], Rest(target, text[m..], n));
  }

  lemma CodeHead(s: string)
    requires s != [] && s[0] != '\''
    ensures Compiled(Pieces(s, false)) != [] && Compiled(Pieces(s, false))[0] != '\''
  {
  }

  /** In the code, and inside a literal up to its end as the second scanner sees it. */
  lemma {:induction false} CodeNumbered(target: Target, s: string, n: nat)
    requires Simple(Pieces(s, false))
    ensures Rest(target, Compiled(Pieces(s, false)), n) == NumberedAll(target, Pieces(s, false), n)
    decreases |s|
  {
    if s != [] {
      if s[0] == '\'' {
        var p, ps := Copy('\'', true), Pieces(s[1..], true);
        assert Pieces(s, false) == [p] + ps;
        ConsPiece(p, ps);
        ConsNumbered(target, p, ps, n);
        TextNumbered(target, s[1..], n);
        RestQuoted(target, Compiled(ps), n);
      } else if Starts(s, ':', ':') {
        var p, ps := Copy(':', false), Pieces(s[2..], false);
        assert Pieces(s, false) == [p] + ([p] + ps);
        ConsPiece(p, ps);
        ConsPiece(p, [p] + ps);
        ConsNumbered(target, p, [p] + ps, n);
        ConsNumbered(target, p, ps, n);
        CodeNumbered(target, s[2..], n);
        RestSingle(target, ':', [':'] + Compiled(ps), n);
        RestSingle(target, ':', Compiled(ps), n);
      } else if NameStarts(s) {
        var k := 1 + IdentLen(s[1..]);
        var p, ps := Name(s[1..k]), Pieces(s[k..], false);
        ConsPiece(p, ps);
        ConsNumbered(target, p, ps, n);
        CodeNumbered(target, s[k..], n + 1);
        RestSingle(target, '?', Compiled(ps), n);
      } else {
        var p, ps := Copy(s[0], false), Pieces(s[1..], false);
        ConsPiece(p, ps);
        ConsNumbered(target, p, ps, n);
        CodeNumbered(target, s[1..], if s[0] == '?' then n + 1 else n);
        NoComment(p, s[1..]);
        RestSingle(target, s[0], Compiled(ps), n);
      }
    }
  }

  lemma NoComment(p: Piece, s: string)
    requires p.Copy? && !p.inText && Simple([p] + Pieces(s, false))
    ensures p.c != '\"' && !Starts([p.c] + Compiled(Pieces(s, false)), '-', '-') && !Starts([p.c] + Compiled(Pieces(s, false)), '/', '*')
  {
    var ps := Pieces(s, false);
    if ps != [] {
      assert ([p] + ps)[1] == ps[0];
      assert Compiled(ps)[0] == PieceText(ps[0], ['?'])[0];
      assert s[0] == '\'' || (ps[0].Copy? ==> !ps[0].inText);
    }
  }

  lemma TextChar(target: Target, x: char, text: string, done: string, n: nat)
    requires x != '\'' && var m := QuoteLen(text, '\''); text[..m] + Rest(target, text[m..], n) == done
    ensures var c := [x] + text; var m := QuoteLen(c, '\''); c[..m] + Rest(target, c[m..], n) == [x] + done
  {
    var c, m := [x] + text, QuoteLen(text, '\'');
    assert c[1..] == text && c[..1 + m] == [x] + text[..m] && c[1 + m..] == text[m..];
    Assoc([x], text[..m], Rest(target, text[m..], n));
  }

  lemma TextEscape(target: Target, text: string, done: string, n: nat)
    requires var m := QuoteLen(text, '\''); text[..m] + Rest(target, text[m..], n) == done
    ensures var c := ['\''] + (['\''] + text); var m := QuoteLen(c, '\'');
            c[..m] + Rest(target, c[m..], n) == ['\''] + (['\''] + done)
  {
    var c, m := ['\''] + (['\''] + text), QuoteLen(text, '\'');
    assert c[2..] == text && c[..2 + m] == ['\''] + (['\''] + text[..m]) && c[2 + m..] == text[m..];
    Assoc(['\''], text[..m], Rest(target, text[m..], n));
    Assoc(['\''], ['\''] + text[..m], Rest(target, text[m..], n));
  }

  lemma {:induction false} TextNumbered(target: Target, s: string, n: nat)
    requires Simple(Pieces(s, true))
    ensures var c := Compiled(Pieces(s, true)); var m := QuoteLen(c, '\'');
            c[..m] + Rest(target, c[m..], n) == NumberedAll(target, Pieces(s, true), n)
    decreases |s|
  {
    if s != [] {
      var p, ps := Copy(s[0], true), Pieces(s[1..], s[0] != '\'');
      var c, rest := Compiled(Pieces(s, true)), Compiled(ps);
      ConsPiece(p, ps);
      ConsNumbered(target, p, ps, n);
      assert c == [s[0]] + rest && c[1..] == rest;
      if s[0] != '\'' {
        TextNumbered(target, s[1..], n);
        TextChar(target, s[0], rest, NumberedAll(target, ps, n), n);
      } else if |s| >= 2 && s[1] == '\'' {
        var q, qs := Copy('\'', true), Pieces(s[2..], true);
        assert s[1..][1..] == s[2..] && ps == [q] + qs;
        ConsPiece(q, qs);
        ConsNumbered(target, q, qs, n);
        TextNumbered(target, s[2..], n);
        TextEscape(target, Compiled(qs), NumberedAll(target, qs, n), n);
        assert c == ['\''] + (['\''] + Compiled(qs));
      } else {
        CodeNumbered(target, s[1..], n);
        if |s| >= 2 { CodeHead(s[1..]); }
        assert QuoteLen(c, '\'') == 1 && c[..1] == ['\''];
      }
    }
  }

  lemma {:induction false} BareShows(target: Target, ps: seq<Piece>, n: nat)
    ensures NumberedAll(target, ps, n) == Numbered(target, ps, n) <==> forall k :: 0 <= k < |ps| ==> !Bare(ps[k])
  {
    if ps != [] {
      var rest := ps[1..];
      assert forall k :: 0 < k < |ps| ==> ps[k] == rest[k - 1];
      if ps[0].Name? {
        BareShows(target, rest, n + 1);
        Cancel(Parameter(target, n + 1), NumberedAll(target, rest, n + 1), Numbered(target, rest, n + 1));
      } else if Bare(ps[0]) {
        assert NumberedAll(target, ps, n)[0] == Prefix(target)[0] && Numbered(target, ps, n)[0] == '?';
      } else {
        BareShows(target, rest, n);
        Cancel([ps[0].c], NumberedAll(target, rest, n), Numbered(target, rest, n));
      }
      if forall k :: 0 <= k < |ps| ==> !Bare(ps[k]) {
        assert forall k :: 0 <= k < |rest| ==> !Bare(rest[k]) by { assert forall k :: 0 <= k < |rest| ==> rest[k] == ps[k + 1]; }
      }
    }
  }

  lemma Cancel(a: string, x: string, y: string)
    ensures a + x == a + y <==> x == y
  {
    assert (a + x)[|a|..] == x && (a + y)[|a|..] == y;
  }

  /** Compiling and then translating puts the k-th parameter where the source has its k-th name and changes nothing
      else, exactly when the code holds no question mark of its own. */
  lemma NamedThenNumbered(target: Target, sql: string)
    requires Simple(Pieces(sql, false))
    ensures Translated(target, Lex(Portable, Compiled(Pieces(sql, false))), 0) == Numbered(target, Pieces(sql, false), 0)
            <==> forall k :: 0 <= k < |Pieces(sql, false)| ==> !Bare(Pieces(sql, false)[k])
  {
    CodeNumbered(target, sql, 0);
    BareShows(target, Pieces(sql, false), 0);
  }

  // ---- which characters make a name ----

  predicate Letter(c: char) { 'a' <= c <= 'z' || 'A' <= c <= 'Z' || c == '_' }

  predicate LetterOrDigit(c: char) { Letter(c) || '0' <= c <= '9' }

  lemma {:induction false} NameEnds(name: string, rest: string)
    requires forall k :: 0 <= k < |name| ==> LetterOrDigit(name[k])
    requires rest == "" || !LetterOrDigit(rest[0])
    ensures IdentLen(name + rest) == |name|
  {
    if name == "" {
      assert name + rest == rest;
    } else {
      NameEnds(name[1..], rest);
      assert (name + rest)[1..] == name[1..] + rest;
    }
  }

  /** In the code a colon before a letter or underscore names the run of letters, digits and underscores that follows. */
  lemma NameIsPiece(name: string, rest: string)
    requires name != "" && Letter(name[0]) && forall k :: 0 <= k < |name| ==> LetterOrDigit(name[k])
    requires rest == "" || !LetterOrDigit(rest[0])
    ensures Pieces([':'] + (name + rest), false) == [Name(name)] + Pieces(rest, false)
  {
    var s := [':'] + (name + rest);
    NameEnds(name, rest);
    assert s[1..] == name + rest && s[1] == name[0];
    assert (name + rest)[..|name|] == name && s[1..1 + |name|] == name && s[1 + |name|..] == rest;
  }

  /** Two colons are a cast, and a colon before anything else is itself. */
  lemma ColonIsPiece(rest: string)
    ensures Pieces([':', ':'] + rest, false) == [Copy(':', false), Copy(':', false)] + Pieces(rest, false)
    ensures (rest == "" || (rest[0] != ':' && !Letter(rest[0]))) ==>
              Pieces([':'] + rest, false) == [Copy(':', false)] + Pieces(rest, false)
  {
    assert ([':', ':'] + rest)[2..] == rest && ([':'] + rest)[1..] == rest;
  }

  /** Inside single quotes nothing is a name; another single quote ends the text. */
  lemma TextIsPieces(c: char, rest: string)
    ensures Pieces(['\''] + rest, false) == [Copy('\'', true)] + Pieces(rest, true)
    ensures Pieces([c] + rest, true) == [Copy(c, true)] + Pieces(rest, c != '\'')
  {
    assert (['\''] + rest)[1..] == rest && ([c] + rest)[1..] == rest;
  }

  lemma {:induction false} CompiledConcat(a: seq<Piece>, b: seq<Piece>)
    ensures Compiled(a + b) == Compiled(a) + Compiled(b) && Names(a + b) == Names(a) + Names(b)
  {
    if a == [] {
      assert a + b == b;
    } else {
      CompiledConcat(a[1..], b);
      assert (a + b)[1..] == a[1..] + b;
      Assoc(PieceText(a[0], ['?']), Compiled(a[1..]), Compiled(b));
      Assoc(if a[0].Copy? then [] else [a[0].name], Names(a[1..]), Names(b));
    }
  }

  /** A name compiles to a question mark and takes its turn in the order; everything around it stands. */
  lemma NameCompiled(a: seq<Piece>, name: string, b: seq<Piece>)
    ensures Compiled(a + ([Name(name)] + b)) == Compiled(a) + ("?" + Compiled(b))
    ensures Names(a + ([Name(name)] + b)) == Names(a) + ([name] + Names(b))
  {
    CompiledConcat(a, [Name(name)] + b);
    ConsPiece(Name(name), b);
  }
}
