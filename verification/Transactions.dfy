/** Nested transactions by BEGIN and savepoints (index.ts), on SQLite and, rewritten, on SQL Server (ms.rs). */
module Transactions {
  import opened Bytes
  import Decimal

  // ---- transaction bodies and what they should do ----

  /** A database state is the log of the writes it holds. */
  type State = seq<nat>

  /** What a body may do. A call of `transaction` may find its opening or its closing statement refused. */
  datatype Body =
    | Skip
    | Write(w: nat)
    | Throw
    | Then(first: Body, second: Body)
    | Catch(body: Body, handler: Body)
    | Transaction(body: Body, openFails: bool, closeFails: bool)

  datatype Outcome = Outcome(state: State, ok: bool)

  /** A call that fails discards exactly its own work; an error caught outside a call discards nothing. */
  function Pure(p: Body, s: State): Outcome {
    match p
    case Skip => Outcome(s, true)
    case Write(w) => Outcome(s + [w], true)
    case Throw => Outcome(s, false)
    case Then(a, b) => (var r := Pure(a, s); if r.ok then Pure(b, r.state) else r)
    case Catch(b, h) => (var r := Pure(b, s); if r.ok then r else Pure(h, r.state))
    case Transaction(b, openFails, closeFails) =>
      if openFails then Outcome(s, false) else
        var r := Pure(b, s);
        if r.ok && !closeFails then r else Outcome(s, false)
  }

  // ---- control statements on a connection ----

  datatype Control = Begin | Commit | Rollback | Savepoint(name: string) | RollbackTo(name: string) | Release(name: string)

  datatype Server = Sqlite | SqlServer(erases: bool)

  datatype Save = Save(name: string, snapshot: State)

  datatype Session = Session(current: State, base: Option<State>, saves: seq<Save>)

  datatype Reply = Reply(session: Session, ok: bool)

  /** The newest savepoint of a name, or the number of savepoints. */
  function Newest(saves: seq<Save>, name: string): (k: nat)
    ensures k <= |saves|
    ensures k < |saves| ==> saves[k].name == name
    ensures forall j :: k < j < |saves| ==> saves[j].name != name
    ensures k == |saves| ==> forall j :: 0 <= j < |saves| ==> saves[j].name != name
  {
    if saves == [] then 0
    else if saves[|saves| - 1].name == name then |saves| - 1
    else
      var k := Newest(saves[..|saves| - 1], name);
      if k == |saves| - 1 then |saves| else k
  }

  /** SQLite keeps a savepoint it rolls back to, and RELEASE drops it with everything above. SQL Server never sees a
      RELEASE, and may keep or erase the savepoint it rolls back to. */
  function Apply(server: Server, s: Session, c: Control): Reply {
    match c
    case Begin =>
      if s.base.Some? then Reply(s, false) else Reply(s.(base := Some(s.current)), true)
    case Commit =>
      if s.base.None? then Reply(s, false) else Reply(Session(s.current, None, []), true)
    case Rollback =>
      if s.base.None? then Reply(s, false) else Reply(Session(s.base.value, None, []), true)
    case Savepoint(name) => Reply(s.(saves := s.saves + [Save(name, s.current)]), true)
    case RollbackTo(name) =>
      var k := Newest(s.saves, name);
      if k == |s.saves| then Reply(s, false)
      else
        var kept := if server == SqlServer(true) then s.saves[..k] else s.saves[..k + 1];
        Reply(s.(current := s.saves[k].snapshot, saves := kept), true)
    case Release(name) =>
      if server != Sqlite then Reply(s, true) else
        var k := Newest(s.saves, name);
        if k == |s.saves| then Reply(s, false) else Reply(s.(saves := s.saves[..k]), true)
  }

  function SaveName(depth: nat): string { "powder_sp_" + Decimal.Text(depth) }

  lemma SaveNameInjective(i: nat, j: nat)
    requires SaveName(i) == SaveName(j)
    ensures i == j
  {
    var p := "powder_sp_";
    assert Decimal.Text(i) == SaveName(i)[|p|..] && Decimal.Text(j) == SaveName(j)[|p|..];
    Decimal.TextInjective(i, j);
  }

  function Opening(depth: nat): Control { if depth > 0 then Savepoint(SaveName(depth)) else Begin }

  function Closing(depth: nat): Control { if depth > 0 then Release(SaveName(depth)) else Commit }

  /** The catch block: its own errors are swallowed. */
  function Undo(server: Server, s: Session, depth: nat): Session {
    if depth > 0 then
      var r := Apply(server, s, RollbackTo(SaveName(depth)));
      if r.ok then Apply(server, r.session, Release(SaveName(depth))).session else r.session
    else Apply(server, s, Rollback).session
  }

  // ---- the client ----

  /** What running a body through the client does to the connection, at some nesting depth. */
  function Protocol(p: Body, server: Server, s: Session, depth: nat): Reply {
    match p
    case Skip => Reply(s, true)
    case Write(w) => Reply(s.(current := s.current + [w]), true)
    case Throw => Reply(s, false)
    case Then(a, b) => (var r := Protocol(a, server, s, depth); if r.ok then Protocol(b, server, r.session, depth) else r)
    case Catch(b, h) => (var r := Protocol(b, server, s, depth); if r.ok then r else Protocol(h, server, r.session, depth))
    case Transaction(b, openFails, closeFails) =>
      var started := if openFails then Reply(s, false) else Apply(server, s, Opening(depth));
      if !started.ok then started else
        var r := Protocol(b, server, started.session, depth + 1);
        var closed := if !r.ok || closeFails then Reply(r.session, false) else Apply(server, r.session, Closing(depth));
        if closed.ok then closed else Reply(Undo(server, closed.session, depth), false)
  }

  class Client {
    var txDepth: nat
    var session: Session
    const server: Server

    constructor (server: Server, state: State)
      ensures txDepth == 0 && session == Session(state, None, []) && this.server == server
    {
      txDepth, session, this.server := 0, Session(state, None, []), server;
    }

    /** One statement, refused or run. */
    method Execute(c: Control, refused: bool) returns (ok: bool)
      modifies `session
      ensures if refused then !ok && session == old(session) else Reply(session, ok) == Apply(server, old(session), c)
    {
      if refused {
        return false;
      }
      var r := Apply(server, session, c);
      session := r.session;
      return r.ok;
    }

    /** `transaction` */
    method Transact(body: Body, openFails: bool, closeFails: bool) returns (ok: bool)
      modifies this
      ensures txDepth == old(txDepth)
      ensures Reply(session, ok) == Protocol(Transaction(body, openFails, closeFails), server, old(session), old(txDepth))
      decreases body, 1
    {
      var depth := txDepth;
      ok := Execute(Opening(depth), openFails);
      if !ok {
        return;
      }
      txDepth := depth + 1;
      ok := Run(body);
      if ok {
        ok := Execute(Closing(depth), closeFails);
      }
      if !ok {
        UndoWork(depth);
      }
      txDepth := depth;
    }

    /** The catch block. */
    method UndoWork(depth: nat)
      modifies `session
      ensures session == Undo(server, old(session), depth)
    {
      if depth > 0 {
        var undone := Execute(RollbackTo(SaveName(depth)), false);
        if undone {
          undone := Execute(Release(SaveName(depth)), false);
        }
      } else {
        var undone := Execute(Rollback, false);
      }
    }

    /** A body, statement by statement. The depth is the same before and after, whatever is thrown. */
    method Run(p: Body) returns (ok: bool)
      modifies this
      ensures txDepth == old(txDepth)
      ensures Reply(session, ok) == Protocol(p, server, old(session), old(txDepth))
      decreases p, 0
    {
      match p
      case Skip => ok := true;
      case Write(w) =>
        session := session.(current := session.current + [w]);
        ok := true;
      case Throw => ok := false;
      case Then(a, b) =>
        ok := Run(a);
        if ok {
          ok := Run(b);
        }
      case Catch(b, h) =>
        ok := Run(b);
        if !ok {
          ok := Run(h);
        }
      case Transaction(b, openFails, closeFails) =>
        ok := Transact(b, openFails, closeFails);
    }
  }

  // ---- the protocol means what it should ----

  /** Outside a transaction nothing is open. */
  predicate Idle(s: Session) { s.base.None? && s.saves == [] }

  predicate InStep(s: Session, depth: nat) { if depth == 0 then Idle(s) else s.base.Some? }

  /** Savepoints of this depth or deeper. */
  ghost predicate Deep(saves: seq<Save>, depth: nat) {
    forall k :: 0 <= k < |saves| ==> IsDeep(saves[k].name, depth)
  }

  ghost predicate IsDeep(name: string, depth: nat) { exists d: nat :: DeepName(name, d, depth) }

  predicate DeepName(name: string, d: nat, depth: nat) { depth <= d && name == SaveName(d) }

  /** A run left the transaction and the enclosing savepoints alone, and at most stale deeper ones behind. */
  ghost predicate Left(server: Server, s: Session, t: Session, depth: nat) {
    && t.base == s.base
    && |s.saves| <= |t.saves| && t.saves[..|s.saves|] == s.saves
    && Deep(t.saves[|s.saves|..], depth)
    && (server == Sqlite || depth == 0 ==> t.saves == s.saves)
  }

  lemma DeepWeaker(saves: seq<Save>, a: nat, b: nat)
    requires a <= b && Deep(saves, b)
    ensures Deep(saves, a)
  {
    forall k | 0 <= k < |saves| ensures IsDeep(saves[k].name, a) {
      assert IsDeep(saves[k].name, b);
      var d: nat :| DeepName(saves[k].name, d, b);
      assert DeepName(saves[k].name, d, a);
    }
  }

  lemma LeftTwice(server: Server, s: Session, t: Session, u: Session, depth: nat)
    requires Left(server, s, t, depth) && Left(server, t, u, depth)
    ensures Left(server, s, u, depth)
  {
    var n, m := |s.saves|, |t.saves|;
    assert u.saves[..n] == u.saves[..m][..n];
    assert u.saves[n..] == t.saves[n..] + u.saves[m..];
    forall k | 0 <= k < |u.saves[n..]| ensures IsDeep(u.saves[n..][k].name, depth) {
      if k < m - n {
        assert u.saves[n..][k] == t.saves[n..][k];
      } else {
        assert u.saves[n..][k] == u.saves[m..][k - (m - n)];
      }
    }
  }

  /** Past deeper names, the newest savepoint of this depth is the call's own. */
  lemma OwnSavepoint(before: seq<Save>, own: Save, after: seq<Save>, depth: nat)
    requires own.name == SaveName(depth) && Deep(after, depth + 1)
    ensures Newest(before + [own] + after, SaveName(depth)) == |before|
  {
    var all := before + [own] + after;
    forall k | 0 <= k < |after| ensures after[k].name != SaveName(depth) {
      assert IsDeep(after[k].name, depth + 1);
      var d: nat :| DeepName(after[k].name, d, depth + 1);
      if after[k].name == SaveName(depth) {
        SaveNameInjective(d, depth);
      }
    }
    forall k | |before| < k < |all| ensures all[k].name != SaveName(depth) {
      assert all[k] == after[k - |before| - 1];
    }
    assert all[|before|].name == SaveName(depth);
  }

  lemma DeepOne(saves: seq<Save>, own: Save, depth: nat)
    requires own.name == SaveName(depth) && Deep(saves, depth)
    ensures Deep([own] + saves, depth)
  {
    forall k | 0 <= k < |[own] + saves| ensures IsDeep(([own] + saves)[k].name, depth) {
      if k == 0 {
        assert DeepName(own.name, depth, depth);
      } else {
        assert ([own] + saves)[k] == saves[k - 1];
      }
    }
  }

  /** The savepoints after a nested body: the enclosing ones, the call's own, deeper ones. */
  lemma AfterBody(server: Server, s: Session, t: Session, depth: nat) returns (own: Save, after: seq<Save>)
    requires depth > 0
    requires Left(server, s.(saves := s.saves + [Save(SaveName(depth), s.current)]), t, depth + 1)
    ensures own == Save(SaveName(depth), s.current) && t.saves == s.saves + [own] + after && Deep(after, depth + 1)
    ensures server == Sqlite ==> after == []
    ensures Newest(t.saves, SaveName(depth)) == |s.saves| && t.base == s.base
  {
    own := Save(SaveName(depth), s.current);
    after := t.saves[|s.saves| + 1..];
    assert t.saves == t.saves[..|s.saves| + 1] + after;
    OwnSavepoint(s.saves, own, after, depth);
  }

  lemma NestedClosed(server: Server, s: Session, t: Session, depth: nat)
    requires depth > 0 && s.base.Some?
    requires Left(server, s.(saves := s.saves + [Save(SaveName(depth), s.current)]), t, depth + 1)
    ensures var r := Apply(server, t, Closing(depth));
            r.ok && r.session.current == t.current && Left(server, s, r.session, depth)
  {
    var own, after := AfterBody(server, s, t, depth);
    DeepWeaker(after, depth, depth + 1);
    DeepOne(after, own, depth);
    assert t.saves[..|s.saves|] == s.saves && t.saves[|s.saves|..] == [own] + after;
  }

  lemma NestedUndone(server: Server, s: Session, t: Session, depth: nat)
    requires depth > 0 && s.base.Some?
    requires Left(server, s.(saves := s.saves + [Save(SaveName(depth), s.current)]), t, depth + 1)
    ensures Undo(server, t, depth).current == s.current && Left(server, s, Undo(server, t, depth), depth)
  {
    var own, after := AfterBody(server, s, t, depth);
    assert t.saves[..|s.saves|] == s.saves && t.saves[..|s.saves| + 1] == s.saves + [own] + [];
    OwnSavepoint(s.saves, own, [], depth);
    assert t.saves[|s.saves|] == own;
    var u := Undo(server, t, depth);
    assert u.saves == s.saves || u.saves == s.saves + [own];
    assert Deep([own], depth) by {
      DeepOne([], own, depth);
      assert [own] + [] == [own];
    }
    assert (s.saves + [own])[|s.saves|..] == [own] && (s.saves + [own])[..|s.saves|] == s.saves;
  }

  /** The protocol ends in the state of the pure semantics, with the same error or none, on every server: each failing
      call discards exactly its own work. */
  lemma {:induction false} ProtocolMeans(p: Body, server: Server, s: Session, depth: nat)
    requires InStep(s, depth)
    ensures var r := Protocol(p, server, s, depth);
            Outcome(r.session.current, r.ok) == Pure(p, s.current) && Left(server, s, r.session, depth)
    decreases p
  {
    match p
    case Then(a, b) =>
      var r := Protocol(a, server, s, depth);
      ProtocolMeans(a, server, s, depth);
      if r.ok {
        ProtocolMeans(b, server, r.session, depth);
        LeftTwice(server, s, r.session, Protocol(b, server, r.session, depth).session, depth);
      }
    case Catch(b, h) =>
      var r := Protocol(b, server, s, depth);
      ProtocolMeans(b, server, s, depth);
      if !r.ok {
        ProtocolMeans(h, server, r.session, depth);
        LeftTwice(server, s, r.session, Protocol(h, server, r.session, depth).session, depth);
      }
    case Transaction(b, openFails, closeFails) =>
      if !openFails {
        var t := Apply(server, s, Opening(depth)).session;
        ProtocolMeans(b, server, t, depth + 1);
        if depth > 0 {
          NestedClosed(server, s, Protocol(b, server, t, depth + 1).session, depth);
          NestedUndone(server, s, Protocol(b, server, t, depth + 1).session, depth);
        }
      }
    case _ =>
  }

  /** Dropping every RELEASE changes neither the state nor the error, whether the server keeps the savepoints it rolls
      back to or erases them. */
  lemma ReleaseMayBeDropped(p: Body, erases: bool, s: Session)
    requires Idle(s)
    ensures var a, b := Protocol(p, Sqlite, s, 0), Protocol(p, SqlServer(erases), s, 0);
            a == b && Idle(a.session)
  {
    ProtocolMeans(p, Sqlite, s, 0);
    ProtocolMeans(p, SqlServer(erases), s, 0);
  }

  /** A nested call that throws and is caught leaves the enclosing transaction as it found it, committable. */
  lemma CaughtCallUndone(b: Body, server: Server, s: Session, depth: nat)
    requires InStep(s, depth) && !Pure(b, s.current).ok
    ensures var r := Protocol(Catch(Transaction(b, false, false), Skip), server, s, depth);
            r.ok && r.session.current == s.current && InStep(r.session, depth)
  {
    ProtocolMeans(Catch(Transaction(b, false, false), Skip), server, s, depth);
    assert Pure(Transaction(b, false, false), s.current) == Outcome(s.current, false);
  }
}
