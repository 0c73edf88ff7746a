/** `dependency_order`: the order tables are dumped in (powder-cli tools.rs), and when its loop ends. */
module DumpOrder {
  import opened Bytes
  import opened TableOrder

  // ---- what each table waits for ----

  function Others(refs: seq<string>, t: string, tables: seq<string>): seq<string> {
    if refs == [] then []
    else (if refs[0] != t && refs[0] in tables then [refs[0]] else []) + Others(refs[1..], t, tables)
  }

  lemma {:induction false} OthersAre(refs: seq<string>, t: string, tables: seq<string>, r: string)
    ensures r in Others(refs, t, tables) <==> r in refs && r != t && r in tables
  {
    if refs != [] {
      OthersAre(refs[1..], t, tables, r);
    }
  }

  /** The tables asked for, each with the other tables asked for that it refers to. */
  function Deps(tables: seq<string>, fks: string -> seq<string>): (deps: seq<Node>)
    ensures Names(deps) == tables
  {
    seq(|tables|, k requires 0 <= k < |tables| => Node(tables[k], Others(fks(tables[k]), tables[k], tables)))
  }

  lemma DepsClosed(tables: seq<string>, fks: string -> seq<string>)
    ensures Closed(Deps(tables, fks))
  {
    forall i, r | 0 <= i < |tables| && r in Deps(tables, fks)[i].refs ensures r in tables {
      OthersAre(fks(tables[i]), tables[i], tables, r);
    }
  }

  // ---- one turn of the loop ----

  function Pass(deps: seq<Node>, out: seq<string>, k: nat): seq<string>
    requires k <= |deps|
  {
    if k == 0 then out else
      var o := Pass(deps, out, k - 1);
      if deps[k - 1].name !in o && Ready(deps[k - 1], o) then o + [deps[k - 1].name] else o
  }

  function Append(deps: seq<Node>, out: seq<string>, k: nat): seq<string>
    requires k <= |deps|
  {
    if k == 0 then out else
      var o := Append(deps, out, k - 1);
      if deps[k - 1].name !in o then o + [deps[k - 1].name] else o
  }

  function Turn(deps: seq<Node>, out: seq<string>): seq<string> {
    var o := Pass(deps, out, |deps|);
    if |o| == |out| then Append(deps, o, |deps|) else o
  }

  function Turns(deps: seq<Node>, n: nat): seq<string> { if n == 0 then [] else Turn(deps, Turns(deps, n - 1)) }

  /** The loop condition fails after some number of turns. */
  ghost predicate Ends(deps: seq<Node>) { exists n: nat :: |Turns(deps, n)| >= |deps| }

  // ---- what a turn keeps ----

  predicate Among(out: seq<string>, deps: seq<Node>) { NoRepeat(out) && forall x :: x in out ==> x in Names(deps) }

  lemma {:induction false} PassKeeps(deps: seq<Node>, out: seq<string>, k: nat)
    requires k <= |deps| && Among(out, deps)
    ensures Among(Pass(deps, out, k), deps) && |Pass(deps, out, k)| >= |out|
    ensures |Pass(deps, out, k)| == |out| ==>
              Pass(deps, out, k) == out && forall i :: 0 <= i < k ==> deps[i].name in out || !Ready(deps[i], out)
  {
    if k > 0 {
      PassKeeps(deps, out, k - 1);
      NoRepeatLast(Pass(deps, out, k - 1), deps[k - 1].name);
      assert Names(deps)[k - 1] == deps[k - 1].name;
    }
  }

  lemma {:induction false} PassOrdered(deps: seq<Node>, out: seq<string>, k: nat)
    requires k <= |deps| && Ordered(deps, out) && NoRepeat(Names(deps))
    ensures Ordered(deps, Pass(deps, out, k))
  {
    if k > 0 {
      PassOrdered(deps, out, k - 1);
      if Pass(deps, out, k) != Pass(deps, out, k - 1) {
        OrderedMore(deps, Pass(deps, out, k - 1), deps[k - 1]);
      }
    }
  }

  lemma {:induction false} AppendKeeps(deps: seq<Node>, out: seq<string>, k: nat)
    requires k <= |deps| && Among(out, deps)
    ensures Among(Append(deps, out, k), deps)
    ensures forall x :: x in Append(deps, out, k) <==> x in out || x in Names(deps)[..k]
  {
    if k > 0 {
      AppendKeeps(deps, out, k - 1);
      NoRepeatLast(Append(deps, out, k - 1), deps[k - 1].name);
      assert Names(deps)[..k] == Names(deps)[..k - 1] + [deps[k - 1].name];
    }
  }

  /** The fallback writes what is left, as declared. */
  lemma {:induction false} AppendIs(deps: seq<Node>, out: seq<string>, k: nat)
    requires k <= |deps| && NoRepeat(Names(deps))
    ensures Append(deps, out, k) == out + Names(Unplaced(deps[..k], out))
  {
    if k > 0 {
      AppendIs(deps, out, k - 1);
      var n, rest := deps[k - 1], Unplaced(deps[..k - 1], out);
      assert deps[..k] == deps[..k - 1] + [n];
      UnplacedLast(deps[..k - 1], n, out);
      NotYet(deps, out, k);
      assert n.name in out + Names(rest) <==> n.name in out;
      assert Names(rest + [n]) == Names(rest) + [n.name];
    } else {
      assert Names([]) == [] && out + [] == out;
    }
  }

  lemma NotYet(deps: seq<Node>, out: seq<string>, k: nat)
    requires 0 < k <= |deps| && NoRepeat(Names(deps))
    ensures forall m :: m in Unplaced(deps[..k - 1], out) ==> m.name != deps[k - 1].name
  {
    forall m | m in Unplaced(deps[..k - 1], out) ensures m.name != deps[k - 1].name {
      UnplacedMember(deps[..k - 1], out, m);
      var i :| 0 <= i < k - 1 && deps[i] == m;
      assert Names(deps)[i] != Names(deps)[k - 1];
    }
  }

  lemma {:induction false} UnplacedLast(nodes: seq<Node>, n: Node, placed: seq<string>)
    ensures Unplaced(nodes + [n], placed) == Unplaced(nodes, placed) + if n.name in placed then [] else [n]
  {
    if nodes == [] {
      assert nodes + [n] == [n] && [n][1..] == [];
    } else {
      UnplacedLast(nodes[1..], n, placed);
      assert (nodes + [n])[1..] == nodes[1..] + [n];
    }
  }

  // ---- when the loop ends ----

  lemma Fits(deps: seq<Node>, out: seq<string>)
    requires Among(out, deps)
    ensures |out| <= |deps| && (!NoRepeat(Names(deps)) ==> |out| < |deps|)
    ensures |out| == |deps| ==> forall x :: x in Names(deps) ==> x in out
  {
    CountDistinct(out);
    CountDistinct(Names(deps));
    CountSubset(out, Names(deps));
  }

  lemma TurnKeeps(deps: seq<Node>, out: seq<string>)
    requires Among(out, deps)
    ensures Among(Turn(deps, out), deps)
    ensures NoRepeat(Names(deps)) && |out| < |deps| ==> |Turn(deps, out)| > |out|
  {
    PassKeeps(deps, out, |deps|);
    if |Pass(deps, out, |deps|)| == |out| {
      AppendKeeps(deps, out, |deps|);
      assert Names(deps)[..|deps|] == Names(deps);
      CountDistinct(Turn(deps, out));
      CountDistinct(Names(deps));
      CountSubset(Names(deps), Turn(deps, out));
    }
  }

  lemma {:induction false} TurnsGrow(deps: seq<Node>, n: nat)
    ensures Among(Turns(deps, n), deps)
    ensures NoRepeat(Names(deps)) && n <= |deps| ==> |Turns(deps, n)| >= n
  {
    if n > 0 {
      TurnsGrow(deps, n - 1);
      TurnKeeps(deps, Turns(deps, n - 1));
      Fits(deps, Turns(deps, n - 1));
      if NoRepeat(Names(deps)) && |Turns(deps, n - 1)| == |deps| {
        Fits(deps, Turns(deps, n - 1));
        PassKeeps(deps, Turns(deps, n - 1), |deps|);
        AppendIs(deps, Turns(deps, n - 1), |deps|);
      }
    }
  }

  /** The loop ends exactly when no table is asked for twice. */
  lemma EndsIff(deps: seq<Node>)
    ensures Ends(deps) <==> NoRepeat(Names(deps))
  {
    if NoRepeat(Names(deps)) {
      TurnsGrow(deps, |deps|);
      assert |Turns(deps, |deps|)| >= |deps|;
    } else {
      forall n: nat ensures |Turns(deps, n)| < |deps| {
        TurnsGrow(deps, n);
        Fits(deps, Turns(deps, n));
      }
    }
  }

  // ---- the loops ----

  method RunPass(deps: seq<Node>, out0: seq<string>) returns (out: seq<string>)
    ensures out == Pass(deps, out0, |deps|)
  {
    out := out0;
    for k := 0 to |deps|
      invariant out == Pass(deps, out0, k)
    {
      if deps[k].name !in out && Ready(deps[k], out) {
        out := out + [deps[k].name];
      }
    }
  }

  method AppendRest(deps: seq<Node>, out0: seq<string>) returns (out: seq<string>)
    ensures out == Append(deps, out0, |deps|)
  {
    out := out0;
    for k := 0 to |deps|
      invariant out == Append(deps, out0, k)
    {
      if deps[k].name !in out {
        out := out + [deps[k].name];
      }
    }
  }

  lemma EverythingPlaced(deps: seq<Node>, out: seq<string>)
    requires Among(out, deps) && Ordered(deps, out) && |out| >= |deps|
    ensures Sorted(deps, out)
  {
    Fits(deps, out);
    assert out[..|out|] == out;
    forall i | 0 <= i < |deps| ensures deps[i].name in out { assert Names(deps)[i] in out; }
    NothingLeft(deps, out);
    assert Names([]) == [];
    assert SortedAt(deps, out, |out|);
  }

  /** In the dump every table that reaches no cycle comes after all the tables of the dump its foreign keys name. */
  lemma ParentsFirst(tables: seq<string>, fks: string -> seq<string>, out: seq<string>, i: nat)
    requires Sorted(Deps(tables, fks), out) && i < |tables| && !ReachesCycle(Deps(tables, fks), tables[i])
    ensures tables[i] in out
    ensures forall r :: r in fks(tables[i]) && r != tables[i] && r in tables ==>
              r in out && IndexOf(out, r) < IndexOf(out, tables[i])
  {
    DepsClosed(tables, fks);
    ReferencedFirst(Deps(tables, fks), out, i);
    forall r | r in fks(tables[i]) && r != tables[i] && r in tables
      ensures r in out && IndexOf(out, r) < IndexOf(out, tables[i])
    {
      OthersAre(fks(tables[i]), tables[i], tables, r);
    }
  }

  lemma {:induction false} NothingLeft(nodes: seq<Node>, placed: seq<string>)
    requires forall i :: 0 <= i < |nodes| ==> nodes[i].name in placed
    ensures Unplaced(nodes, placed) == []
  {
    if nodes != [] {
      NothingLeft(nodes[1..], placed);
    }
  }

  lemma FallenBack(deps: seq<Node>, out: seq<string>)
    requires Among(out, deps) && Ordered(deps, out) && NoRepeat(Names(deps)) && |Pass(deps, out, |deps|)| == |out|
    ensures Sorted(deps, Turn(deps, out)) && |Turn(deps, out)| == |deps| && Turn(deps, out) == Append(deps, out, |deps|)
  {
    PassKeeps(deps, out, |deps|);
    AppendIs(deps, out, |deps|);
    AppendKeeps(deps, out, |deps|);
    assert deps[..|deps|] == deps && Names(deps)[..|deps|] == Names(deps);
    var all := Turn(deps, out);
    assert all[..|out|] == out && all[|out|..] == Names(Unplaced(deps, out));
    assert SortedAt(deps, all, |out|);
    CountDistinct(all);
    CountDistinct(Names(deps));
    CountSubset(Names(deps), all);
    Fits(deps, all);
  }

  /** Every table once, parents first, those that reach a cycle last and as declared. */
  method DependencyOrder(tables: seq<string>, fks: string -> seq<string>) returns (out: seq<string>)
    requires NoRepeat(tables)
    ensures Sorted(Deps(tables, fks), out)
    ensures NoRepeat(out) && |out| == |tables| && forall x :: x in out <==> x in tables
    ensures exists n: nat :: out == Turns(Deps(tables, fks), n)
  {
    var deps := Deps(tables, fks);
    out := [];
    ghost var n: nat := 0;
    while |out| < |deps|
      invariant Among(out, deps) && Ordered(deps, out) && out == Turns(deps, n)
      decreases |deps| - |out|
    {
      TurnKeeps(deps, out);
      PassKeeps(deps, out, |deps|);
      PassOrdered(deps, out, |deps|);
      var more := RunPass(deps, out);
      if |more| == |out| {
        FallenBack(deps, out);
        more := AppendRest(deps, more);
        assert more == Turns(deps, n + 1);
        Fits(deps, more);
        return more;
      }
      out := more;
      n := n + 1;
    }
    EverythingPlaced(deps, out);
    Fits(deps, out);
  }
}
