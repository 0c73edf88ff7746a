/** `normalize_tx`: the client's transaction statements in T-SQL (ms.rs). */
module TxRewrite {
  import opened Bytes
  import opened Transactions
  import opened Decimal

  predicate White(c: char) { c == ' ' || c == '\t' || c == '\n' || c == '\r' || c == 11 as char || c == 12 as char }

  function TrimStart(s: string): string { if s != "" && White(s[0]) then TrimStart(s[1..]) else s }

  function TrimEnd(s: string): string { if s != "" && White(s[|s| - 1]) then TrimEnd(s[..|s| - 1]) else s }

  /** What follows a keyword, in any case, if anything does. */
  function StripKeyword(s: string, kw: string): Option<string> {
    if |s| > |kw| && Upper(s[..|kw|]) == Upper(kw) then Some(TrimStart(s[|kw|..])) else None
  }

  /** `None` swallows the statement. */
  function NormalizeTx(sql: string): Option<string> {
    var t := TrimEnd(TrimStart(sql));
    var upper := Upper(t);
    if upper == "BEGIN" || upper == "BEGIN IMMEDIATE" then Some("BEGIN TRANSACTION") else
      match StripKeyword(t, "SAVEPOINT ")
      case Some(name) => Some("SAVE TRANSACTION " + name)
      case None =>
        match StripKeyword(t, "ROLLBACK TO ")
        case Some(rest) =>
          (match StripKeyword(rest, "SAVEPOINT ")
           case Some(name) => Some("ROLLBACK TRANSACTION " + name)
           case None => Some("ROLLBACK TRANSACTION " + rest))
        case None =>
          if StripKeyword(t, "RELEASE ").Some? then None else Some(sql)
  }

  // ---- the statements the client sends ----

  function SqlText(c: Control): string {
    match c
    case Begin => "BEGIN IMMEDIATE"
    case Commit => "COMMIT"
    case Rollback => "ROLLBACK"
    case Savepoint(name) => "SAVEPOINT " + name
    case RollbackTo(name) => "ROLLBACK TO " + name
    case Release(name) => "RELEASE " + name
  }

  function TsqlText(c: Control): Option<string> {
    match c
    case Begin => Some("BEGIN TRANSACTION")
    case Commit => Some("COMMIT")
    case Rollback => Some("ROLLBACK")
    case Savepoint(name) => Some("SAVE TRANSACTION " + name)
    case RollbackTo(name) => Some("ROLLBACK TRANSACTION " + name)
    case Release(_) => None
  }

  /** Names without blanks at their ends, of which none reads as a keyword. */
  predicate PlainName(n: string) {
    n != "" && !White(n[0]) && !White(n[|n| - 1]) && UpperChar(n[0]) != 'S'
  }

  lemma SaveNamesPlain(depth: nat)
    ensures PlainName(SaveName(depth))
  {
  }

  lemma Untrimmed(s: string)
    requires s != "" && !White(s[0]) && !White(s[|s| - 1])
    ensures TrimEnd(TrimStart(s)) == s
  {
  }

  lemma Stripped(kw: string, n: string)
    requires n != "" && !White(n[0])
    ensures StripKeyword(kw + n, kw) == Some(n)
  {
    assert (kw + n)[..|kw|] == kw && (kw + n)[|kw|..] == n;
  }

  /** A different letter anywhere is a different keyword. */
  lemma Unstripped(s: string, kw: string, k: nat)
    requires k < |kw| && (k < |s| ==> UpperChar(s[k]) != UpperChar(kw[k]))
    ensures StripKeyword(s, kw) == None
  {
    if |s| > |kw| {
      assert Upper(s[..|kw|])[k] == UpperChar(s[k]) && Upper(kw)[k] == UpperChar(kw[k]);
    }
  }

  lemma NotBegin(s: string)
    requires s != "" && UpperChar(s[0]) != 'B'
    ensures Upper(s) != "BEGIN" && Upper(s) != "BEGIN IMMEDIATE"
  {
    assert Upper(s)[0] != 'B';
  }

  /** Every statement the client sends is rewritten to its T-SQL counterpart, RELEASE to nothing. */
  lemma Rewritten(c: Control)
    requires c.Savepoint? || c.RollbackTo? || c.Release? ==> PlainName(c.name)
    ensures NormalizeTx(SqlText(c)) == TsqlText(c)
  {
    var t := SqlText(c);
    Untrimmed(t);
    match c
    case Begin =>
      assert Upper(t) == "BEGIN IMMEDIATE";
    case Commit =>
      NotBegin(t);
      Unstripped(t, "SAVEPOINT ", 0);
      Unstripped(t, "ROLLBACK TO ", 0);
      Unstripped(t, "RELEASE ", 0);
    case Rollback =>
      NotBegin(t);
      Unstripped(t, "SAVEPOINT ", 0);
      Unstripped(t, "RELEASE ", 1);
    case Savepoint(name) =>
      NotBegin(t);
      Stripped("SAVEPOINT ", name);
    case RollbackTo(name) =>
      NotBegin(t);
      Unstripped(t, "SAVEPOINT ", 0);
      Stripped("ROLLBACK TO ", name);
      Unstripped(name, "SAVEPOINT ", 0);
    case Release(name) =>
      NotBegin(t);
      Unstripped(t, "SAVEPOINT ", 0);
      Unstripped(t, "ROLLBACK TO ", 1);
      Stripped("RELEASE ", name);
  }

  /** What SQL Server runs for the client's statements, at every depth. */
  lemma ClientStatementsRewritten(depth: nat)
    ensures NormalizeTx(SqlText(Opening(depth))) ==
            Some(if depth > 0 then "SAVE TRANSACTION " + SaveName(depth) else "BEGIN TRANSACTION")
    ensures NormalizeTx(SqlText(Closing(depth))) == if depth > 0 then None else Some("COMMIT")
    ensures NormalizeTx(SqlText(RollbackTo(SaveName(depth)))) == Some("ROLLBACK TRANSACTION " + SaveName(depth))
  {
    SaveNamesPlain(depth);
    Rewritten(Opening(depth));
    Rewritten(Closing(depth));
    Rewritten(RollbackTo(SaveName(depth)));
  }

  /** What SQL Server makes of a statement it is sent. A statement that was swallowed is answered as done. */
  function RunTsql(erases: bool, s: Session, sent: Option<string>): Reply {
    match sent
    case None => Reply(s, true)
    case Some(t) =>
      match After("SAVE TRANSACTION ", t)
      case Some(name) => Apply(SqlServer(erases), s, Savepoint(name))
      case None =>
        match After("ROLLBACK TRANSACTION ", t)
        case Some(name) => Apply(SqlServer(erases), s, RollbackTo(name))
        case None =>
          if t == "BEGIN TRANSACTION" then Apply(SqlServer(erases), s, Begin)
          else if t == "COMMIT" then Apply(SqlServer(erases), s, Commit)
          else if t == "ROLLBACK" then Apply(SqlServer(erases), s, Rollback)
          else Reply(s, false)
  }

  function After(p: string, t: string): Option<string> { if p <= t then Some(t[|p|..]) else None }

  lemma AfterPrefix(p: string, name: string)
    ensures After(p, p + name) == Some(name)
  {
    assert (p + name)[|p|..] == name;
  }

  lemma NotAfter(p: string, t: string)
    requires p != "" && (t == "" || t[0] != p[0] || |t| < |p|)
    ensures After(p, t) == None
  {
  }

  lemma TsqlApplies(c: Control, erases: bool, s: Session)
    ensures RunTsql(erases, s, TsqlText(c)) == Apply(SqlServer(erases), s, c)
  {
    match c
    case Begin =>
      NotAfter("SAVE TRANSACTION ", "BEGIN TRANSACTION");
      NotAfter("ROLLBACK TRANSACTION ", "BEGIN TRANSACTION");
    case Commit =>
      NotAfter("SAVE TRANSACTION ", "COMMIT");
      NotAfter("ROLLBACK TRANSACTION ", "COMMIT");
    case Rollback =>
      NotAfter("SAVE TRANSACTION ", "ROLLBACK");
      NotAfter("ROLLBACK TRANSACTION ", "ROLLBACK");
    case Savepoint(name) => AfterPrefix("SAVE TRANSACTION ", name);
    case RollbackTo(name) =>
      NotAfter("SAVE TRANSACTION ", "ROLLBACK TRANSACTION " + name);
      AfterPrefix("ROLLBACK TRANSACTION ", name);
    case Release(_) =>
  }

  /** The statements the client sends for a call at some depth. */
  predicate Issued(c: Control, depth: nat) {
    || c == Opening(depth) || c == Closing(depth) || c == Rollback
    || c == RollbackTo(SaveName(depth)) || c == Release(SaveName(depth))
  }

  /** Every statement the client sends, rewritten and run, does to the session what the protocol takes it to do: the
      dropped RELEASE is the one the rewriting swallows. */
  lemma RewrittenApplies(c: Control, depth: nat, erases: bool, s: Session)
    requires Issued(c, depth)
    ensures RunTsql(erases, s, NormalizeTx(SqlText(c))) == Apply(SqlServer(erases), s, c)
  {
    SaveNamesPlain(depth);
    Rewritten(c);
    TsqlApplies(c, erases, s);
  }

  /** Any other statement goes through as it is. */
  lemma OthersUntouched(sql: string)
    requires var t := TrimEnd(TrimStart(sql)); t != "" && UpperChar(t[0]) !in "BSR"
    ensures NormalizeTx(sql) == Some(sql)
  {
    var t := TrimEnd(TrimStart(sql));
    NotBegin(t);
    Unstripped(t, "SAVEPOINT ", 0);
    Unstripped(t, "ROLLBACK TO ", 0);
    Unstripped(t, "RELEASE ", 0);
  }

  // ---- the letters ----

  /** What the client sends for a call: outside any other, and inside `depth` others, where the savepoint is named after
      the decimal numeral of that depth. */
  lemma CallsSpelled(depth: nat)
    ensures depth == 0 ==> SqlText(Opening(depth)) == "BEGIN IMMEDIATE" && SqlText(Closing(depth)) == "COMMIT"
    ensures depth > 0 ==>
              exists num :: Numeral(num) && NumeralValue(num) == depth && SaveName(depth) == "powder_sp_" + num
    ensures depth > 0 ==>
              && SqlText(Opening(depth)) == "SAVEPOINT " + SaveName(depth)
              && SqlText(Closing(depth)) == "RELEASE " + SaveName(depth)
    ensures SqlText(Rollback) == "ROLLBACK" && SqlText(RollbackTo(SaveName(depth))) == "ROLLBACK TO " + SaveName(depth)
  {
    NumeralReads(depth);
    assert SaveName(depth) == "powder_sp_" + Decimal.Text(depth);
  }

  /** The same letters, capital or not. */
  predicate SameLetters(a: string, b: string) {
    |a| == |b| && forall k :: 0 <= k < |a| ==> SameLetter(a[k], b[k])
  }

  predicate SameLetter(a: char, b: char) {
    || a == b
    || ('a' <= a <= 'z' && a as int - 32 == b as int) || ('a' <= b <= 'z' && b as int - 32 == a as int)
  }

  lemma SameUpper(a: string, b: string)
    requires SameLetters(a, b)
    ensures Upper(a) == Upper(b)
  {
  }

  /** Keywords are read whatever their case. */
  lemma AnyCase(kw: string, name: string)
    requires PlainName(name)
    ensures SameLetters(kw, "SAVEPOINT ") ==> NormalizeTx(kw + name) == Some("SAVE TRANSACTION " + name)
    ensures SameLetters(kw, "RELEASE ") ==> NormalizeTx(kw + name) == None
  {
    if SameLetters(kw, "SAVEPOINT ") {
      AnyCaseSavepoint(kw, name);
    }
    if SameLetters(kw, "RELEASE ") {
      AnyCaseRelease(kw, name);
    }
  }

  lemma StrippedAnyCase(kw: string, as_: string, name: string)
    requires SameLetters(kw, as_) && name != "" && !White(name[0])
    ensures StripKeyword(kw + name, as_) == Some(name)
  {
    SameUpper(kw, as_);
    assert (kw + name)[..|as_|] == kw && (kw + name)[|as_|..] == name;
  }

  lemma AnyCaseSavepoint(kw: string, name: string)
    requires PlainName(name) && SameLetters(kw, "SAVEPOINT ")
    ensures NormalizeTx(kw + name) == Some("SAVE TRANSACTION " + name)
  {
    var t := kw + name;
    assert SameLetter(kw[0], 'S') && t[0] == kw[0];
    Untrimmed(t);
    NotBegin(t);
    StrippedAnyCase(kw, "SAVEPOINT ", name);
  }

  lemma AnyCaseRelease(kw: string, name: string)
    requires PlainName(name) && SameLetters(kw, "RELEASE ")
    ensures NormalizeTx(kw + name) == None
  {
    var t := kw + name;
    assert SameLetter(kw[0], 'R') && SameLetter(kw[1], 'E') && t[0] == kw[0] && t[1] == kw[1];
    Untrimmed(t);
    NotBegin(t);
    Unstripped(t, "SAVEPOINT ", 0);
    Unstripped(t, "ROLLBACK TO ", 1);
    StrippedAnyCase(kw, "RELEASE ", name);
  }

  /** Spellings the client does not use are rewritten as well: BEGIN alone, and SAVEPOINT before a savepoint's name. */
  lemma LongSpellings(name: string)
    requires PlainName(name)
    ensures NormalizeTx("BEGIN") == Some("BEGIN TRANSACTION")
    ensures NormalizeTx("ROLLBACK TO " + ("SAVEPOINT " + name)) == Some("ROLLBACK TRANSACTION " + name)
    ensures NormalizeTx("RELEASE " + ("SAVEPOINT " + name)) == None
  {
    BeginAlone();
    LongRollback(name);
    LongRelease(name);
  }

  lemma BeginAlone()
    ensures NormalizeTx("BEGIN") == Some("BEGIN TRANSACTION")
  {
    Untrimmed("BEGIN");
    assert Upper("BEGIN") == "BEGIN";
  }

  lemma LongRollback(name: string)
    requires PlainName(name)
    ensures NormalizeTx("ROLLBACK TO " + ("SAVEPOINT " + name)) == Some("ROLLBACK TRANSACTION " + name)
  {
    var t := "ROLLBACK TO " + ("SAVEPOINT " + name);
    Untrimmed(t);
    NotBegin(t);
    Unstripped(t, "SAVEPOINT ", 0);
    Stripped("ROLLBACK TO ", "SAVEPOINT " + name);
    Stripped("SAVEPOINT ", name);
  }

  lemma LongRelease(name: string)
    requires PlainName(name)
    ensures NormalizeTx("RELEASE " + ("SAVEPOINT " + name)) == None
  {
    var t := "RELEASE " + ("SAVEPOINT " + name);
    Untrimmed(t);
    NotBegin(t);
    Unstripped(t, "SAVEPOINT ", 0);
    Unstripped(t, "ROLLBACK TO ", 1);
    Stripped("RELEASE ", "SAVEPOINT " + name);
  }

  lemma {:induction false} TrimmedStart(blank: string, s: string)
    requires forall k :: 0 <= k < |blank| ==> White(blank[k])
    ensures TrimStart(blank + s) == TrimStart(s)
  {
    if blank == "" {
      assert blank + s == s;
    } else {
      TrimmedStart(blank[1..], s);
      assert (blank + s)[1..] == blank[1..] + s;
    }
  }

  /** White space around a statement is no part of it: blanks, tabs, line feeds, vertical tabs, form feeds, returns. */
  lemma BlankAround(blank: string)
    requires forall k :: 0 <= k < |blank| ==> blank[k] as int in [9, 10, 11, 12, 13, 32]
    ensures NormalizeTx(blank + "BEGIN") == Some("BEGIN TRANSACTION")
  {
    TrimmedStart(blank, "BEGIN");
    BeginAlone();
    Untrimmed("BEGIN");
  }
}
