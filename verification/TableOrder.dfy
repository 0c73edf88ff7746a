/** Tables before the tables that refer to them: `tables_in_dependency_order` (powder-cli schema.rs) and
    `dependency_order` (tools.rs). */
module TableOrder {
  import opened Bytes

  /** A table and the tables its foreign keys name. */
  datatype Node = Node(name: string, refs: seq<string>)

  function Names(nodes: seq<Node>): (names: seq<string>)
    ensures |names| == |nodes| && forall k :: 0 <= k < |nodes| ==> names[k] == nodes[k].name
  {
    seq(|nodes|, k requires 0 <= k < |nodes| => nodes[k].name)
  }

  /** Every table it refers to, other than itself, is among `placed`. */
  predicate Ready(n: Node, placed: seq<string>) {
    forall k :: 0 <= k < |n.refs| ==> n.refs[k] == n.name || n.refs[k] in placed
  }

  // ---- what an order should be ----

  /** Every table comes after the tables it refers to. */
  predicate Ordered(nodes: seq<Node>, order: seq<string>) {
    forall i, k :: 0 <= i < |nodes| && 0 <= k < |order| && nodes[i].name == order[k] ==> Ready(nodes[i], order[..k])
  }

  /** No other table could come next. */
  predicate Stuck(nodes: seq<Node>, good: seq<string>) {
    forall i :: 0 <= i < |nodes| && nodes[i].name !in good ==> !Ready(nodes[i], good)
  }

  function Unplaced(nodes: seq<Node>, placed: seq<string>): seq<Node> {
    if nodes == [] then []
    else (if nodes[0].name in placed then [] else [nodes[0]]) + Unplaced(nodes[1..], placed)
  }

  /** First tables in order, as many as can be; then the rest as declared. */
  ghost predicate Sorted(nodes: seq<Node>, order: seq<string>) { exists k :: SortedAt(nodes, order, k) }

  predicate SortedAt(nodes: seq<Node>, order: seq<string>, k: int) {
    && 0 <= k <= |order|
    && Ordered(nodes, order[..k]) && Stuck(nodes, order[..k])
    && order[k..] == Names(Unplaced(nodes, order[..k]))
  }

  // ---- which tables those are ----

  predicate Edge(nodes: seq<Node>, a: string, b: string) {
    exists i :: 0 <= i < |nodes| && nodes[i].name == a && b in nodes[i].refs && b != a
  }

  predicate Chain(nodes: seq<Node>, path: seq<string>) {
    forall i :: 0 <= i < |path| - 1 ==> Edge(nodes, path[i], path[i + 1])
  }

  /** Following references from the table can come back to a table already passed. */
  ghost predicate ReachesCycle(nodes: seq<Node>, name: string) {
    exists path: seq<string> :: path != [] && path[0] == name && Chain(nodes, path) && !NoRepeat(path)
  }

  predicate Closed(nodes: seq<Node>) {
    forall i, r :: 0 <= i < |nodes| && r in nodes[i].refs ==> r in Names(nodes)
  }

  function IndexOf(s: seq<string>, x: string): (k: nat)
    requires x in s
    ensures k < |s| && s[k] == x && x !in s[..k]
  {
    if s[0] == x then 0 else 1 + IndexOf(s[1..], x)
  }

  lemma {:induction false} FirstIndex(s: seq<string>, x: string, k: nat)
    requires k < |s| && s[k] == x
    ensures IndexOf(s, x) <= k
  {
    if s[0] != x {
      FirstIndex(s[1..], x, k - 1);
    }
  }

  lemma EarlierIndex(s: seq<string>, k: nat, y: string)
    requires k <= |s| && y in s[..k]
    ensures y in s && IndexOf(s, y) < k
  {
    var j :| 0 <= j < k && s[..k][j] == y;
    FirstIndex(s, y, j);
  }

  /** References lead strictly backwards in an order. */
  lemma EdgeBack(nodes: seq<Node>, good: seq<string>, a: string, b: string)
    requires Ordered(nodes, good) && a in good && Edge(nodes, a, b)
    ensures b in good && IndexOf(good, b) < IndexOf(good, a)
  {
    var i :| 0 <= i < |nodes| && nodes[i].name == a && b in nodes[i].refs && b != a;
    var k := IndexOf(good, a);
    assert Ready(nodes[i], good[..k]);
    EarlierIndex(good, k, b);
  }

  lemma {:induction false} ChainBack(nodes: seq<Node>, good: seq<string>, path: seq<string>, i: nat, j: nat)
    requires Ordered(nodes, good) && Chain(nodes, path) && i <= j < |path| && path[i] in good
    ensures path[j] in good && (i < j ==> IndexOf(good, path[j]) < IndexOf(good, path[i]))
  {
    if i < j {
      ChainBack(nodes, good, path, i, j - 1);
      assert Edge(nodes, path[j - 1], path[j - 1 + 1]);
      EdgeBack(nodes, good, path[j - 1], path[j]);
    }
  }

  lemma OrderedAvoidsCycles(nodes: seq<Node>, good: seq<string>, name: string)
    requires Ordered(nodes, good) && name in good
    ensures !ReachesCycle(nodes, name)
  {
    forall path: seq<string> | path != [] && path[0] == name && Chain(nodes, path) ensures NoRepeat(path) {
      forall i, j | 0 <= i < j < |path| ensures path[i] != path[j] {
        ChainBack(nodes, good, path, 0, i);
        ChainBack(nodes, good, path, i, j);
      }
    }
  }

  /** From a table that is stuck there is a chain of stuck tables of any length. */
  lemma {:induction false} StuckWalk(nodes: seq<Node>, good: seq<string>, name: string, n: nat) returns (path: seq<string>)
    requires Stuck(nodes, good) && Closed(nodes) && name in Names(nodes) && name !in good
    ensures |path| == n + 1 && path[0] == name && Chain(nodes, path)
    ensures forall k :: 0 <= k < |path| ==> path[k] in Names(nodes)
    decreases n
  {
    if n == 0 {
      path := [name];
    } else {
      var i :| 0 <= i < |nodes| && Names(nodes)[i] == name;
      assert !Ready(nodes[i], good);
      var k :| 0 <= k < |nodes[i].refs| && nodes[i].refs[k] != name && nodes[i].refs[k] !in good;
      var next := nodes[i].refs[k];
      assert Edge(nodes, name, next);
      var more := StuckWalk(nodes, good, next, n - 1);
      path := [name] + more;
      forall j | 0 <= j < |path| - 1 ensures Edge(nodes, path[j], path[j + 1]) {
        if j > 0 { assert Edge(nodes, more[j - 1], more[j - 1 + 1]); }
      }
    }
  }

  // ---- counting names ----

  function NameSet(names: seq<string>): set<string> { set x | x in names }

  lemma NoRepeatLast(init: seq<string>, last: string)
    ensures NoRepeat(init + [last]) <==> NoRepeat(init) && last !in init
  {
    var names := init + [last];
    if NoRepeat(names) {
      forall j | 0 <= j < |init| ensures init[j] != last { assert names[j] != names[|init|]; }
      forall j, k | 0 <= j < k < |init| ensures init[j] != init[k] { assert names[j] != names[k]; }
    }
  }

  lemma {:induction false} CountDistinct(names: seq<string>)
    ensures |NameSet(names)| <= |names|
    ensures NoRepeat(names) <==> |NameSet(names)| == |names|
  {
    if names != [] {
      var n := |names| - 1;
      var init, last := names[..n], names[n];
      CountDistinct(init);
      NoRepeatLast(init, last);
      assert names == init + [last];
      assert NameSet(names) == NameSet(init) + {last};
      if last in init {
        assert NameSet(names) == NameSet(init);
      }
    }
  }

  lemma CountSubset(a: seq<string>, b: seq<string>)
    requires forall x :: x in a ==> x in b
    ensures |NameSet(a)| <= |NameSet(b)|
    ensures |NameSet(a)| == |NameSet(b)| ==> forall x :: x in b ==> x in a
  {
    assert NameSet(b) == NameSet(a) + (NameSet(b) - NameSet(a));
    assert forall x :: x in b && x !in a ==> x in NameSet(b) - NameSet(a);
  }

  lemma StuckReachesCycle(nodes: seq<Node>, good: seq<string>, name: string)
    requires Stuck(nodes, good) && Closed(nodes) && name in Names(nodes) && name !in good
    ensures ReachesCycle(nodes, name)
  {
    var path := StuckWalk(nodes, good, name, |nodes|);
    CountDistinct(path);
    CountDistinct(Names(nodes));
    CountSubset(path, Names(nodes));
  }

  /** The tables left to the fallback are exactly those from which references reach a cycle. */
  lemma FallbackIff(nodes: seq<Node>, order: seq<string>, k: int, name: string)
    requires SortedAt(nodes, order, k) && Closed(nodes) && name in Names(nodes)
    ensures name in order[..k] <==> !ReachesCycle(nodes, name)
  {
    if name in order[..k] {
      OrderedAvoidsCycles(nodes, order[..k], name);
    } else {
      StuckReachesCycle(nodes, order[..k], name);
    }
  }

  /** So every table that reaches no cycle comes after all the tables it refers to. */
  lemma ReferencedFirst(nodes: seq<Node>, order: seq<string>, i: nat)
    requires Sorted(nodes, order) && Closed(nodes) && i < |nodes| && !ReachesCycle(nodes, nodes[i].name)
    ensures nodes[i].name in order
    ensures forall r :: r in nodes[i].refs && r != nodes[i].name ==> r in order && IndexOf(order, r) < IndexOf(order, nodes[i].name)
  {
    var k :| SortedAt(nodes, order, k);
    var name := nodes[i].name;
    assert Names(nodes)[i] == name;
    FallbackIff(nodes, order, k, name);
    var p := IndexOf(order[..k], name);
    assert order[p] == name;
    FirstIndex(order, name, p);
    FirstIndex(order[..k], name, IndexOf(order, name));
    assert Ready(nodes[i], order[..k][..p]) && order[..k][..p] == order[..p];
    forall r | r in nodes[i].refs && r != name ensures r in order && IndexOf(order, r) < p {
      var j :| 0 <= j < |nodes[i].refs| && nodes[i].refs[j] == r;
      EarlierIndex(order, p, r);
    }
  }

  // ---- placing one table ----

  lemma {:induction false} UnplacedMember(nodes: seq<Node>, placed: seq<string>, n: Node)
    ensures n in Unplaced(nodes, placed) <==> n in nodes && n.name !in placed
  {
    if nodes != [] {
      UnplacedMember(nodes[1..], placed, n);
    }
  }

  lemma {:induction false} UnplacedNone(nodes: seq<Node>)
    ensures Unplaced(nodes, []) == nodes
  {
    if nodes != [] {
      UnplacedNone(nodes[1..]);
    }
  }

  lemma HeadApart(nodes: seq<Node>, placed: seq<string>, n: Node)
    requires nodes != [] && NoRepeat(Names(nodes)) && n in Unplaced(nodes[1..], placed)
    ensures nodes[0].name != n.name
  {
    UnplacedMember(nodes[1..], placed, n);
    var k :| 0 <= k < |nodes| - 1 && nodes[1..][k] == n;
    assert Names(nodes)[0] != Names(nodes)[k + 1];
  }

  /** Placing one table takes it out of those that are left. */
  lemma {:induction false} PlaceOne(nodes: seq<Node>, placed: seq<string>, a: seq<Node>, n: Node, b: seq<Node>)
    requires NoRepeat(Names(nodes)) && Unplaced(nodes, placed) == a + [n] + b
    ensures Unplaced(nodes, placed + [n.name]) == a + b
    decreases |nodes|
  {
    var rest, head := nodes[1..], nodes[0];
    assert NoRepeat(Names(rest)) by { assert forall k :: 0 <= k < |rest| ==> Names(rest)[k] == Names(nodes)[k + 1]; }
    if head.name in placed {
      PlaceOne(rest, placed, a, n, b);
    } else if a == [] {
      assert (a + [n] + b)[0] == n == head && Unplaced(rest, placed) == (a + [n] + b)[1..] == b;
      NotLater(rest, placed, n.name, nodes);
      assert a + b == b;
    } else {
      assert (a + [n] + b)[0] == a[0] == head && (a + [n] + b)[1..] == a[1..] + [n] + b;
      assert (a[1..] + [n] + b)[|a| - 1] == n;
      PlaceOne(rest, placed, a[1..], n, b);
      HeadApart(nodes, placed, n);
      assert [head] + (a[1..] + b) == a + b;
    }
  }

  lemma {:induction false} NotLater(rest: seq<Node>, placed: seq<string>, name: string, nodes: seq<Node>)
    requires |nodes| > 0 && nodes[1..] == rest && nodes[0].name == name && NoRepeat(Names(nodes))
    ensures Unplaced(rest, placed + [name]) == Unplaced(rest, placed)
  {
    forall k | 0 <= k < |rest| ensures rest[k].name != name { assert Names(nodes)[0] != Names(nodes)[k + 1]; }
    SameUnplaced(rest, placed, placed + [name]);
  }

  lemma {:induction false} SameUnplaced(nodes: seq<Node>, p: seq<string>, q: seq<string>)
    requires forall k :: 0 <= k < |nodes| ==> (nodes[k].name in p <==> nodes[k].name in q)
    ensures Unplaced(nodes, p) == Unplaced(nodes, q)
  {
    if nodes != [] {
      SameUnplaced(nodes[1..], p, q);
    }
  }

  lemma OrderedMore(nodes: seq<Node>, order: seq<string>, n: Node)
    requires NoRepeat(Names(nodes)) && Ordered(nodes, order) && n in nodes && Ready(n, order)
    ensures Ordered(nodes, order + [n.name])
  {
    forall i, k | 0 <= i < |nodes| && 0 <= k < |order| + 1 && nodes[i].name == (order + [n.name])[k]
      ensures Ready(nodes[i], (order + [n.name])[..k])
    {
      if k < |order| {
        assert (order + [n.name])[..k] == order[..k];
      } else {
        assert (order + [n.name])[..k] == order;
        var j :| 0 <= j < |nodes| && nodes[j] == n;
        assert Names(nodes)[i] == Names(nodes)[j];
      }
    }
  }

  /** What has been placed is in order, each table once. */
  predicate Placing(nodes: seq<Node>, placed: seq<Node>) {
    NoRepeat(Names(nodes)) && Ordered(nodes, Names(placed)) && NoRepeat(Names(placed)) && AllOf(placed, nodes)
  }

  predicate AllOf(placed: seq<Node>, nodes: seq<Node>) { forall k :: 0 <= k < |placed| ==> placed[k] in nodes }

  lemma PlaceKeeps(nodes: seq<Node>, placed: seq<Node>, a: seq<Node>, t: Node, b: seq<Node>)
    requires Placing(nodes, placed) && Unplaced(nodes, Names(placed)) == a + [t] + b && Ready(t, Names(placed))
    ensures Placing(nodes, placed + [t]) && Unplaced(nodes, Names(placed + [t])) == a + b
  {
    assert (a + [t] + b)[|a|] == t;
    UnplacedMember(nodes, Names(placed), t);
    OrderedMore(nodes, Names(placed), t);
    PlaceOne(nodes, Names(placed), a, t, b);
    NoRepeatLast(Names(placed), t.name);
    assert Names(placed + [t]) == Names(placed) + [t.name];
  }

  lemma {:induction false} OnceEach(nodes: seq<Node>, n: Node)
    requires NoRepeat(Names(nodes))
    ensures multiset(nodes)[n] == if n in nodes then 1 else 0
  {
    if nodes != [] {
      var init, last := nodes[..|nodes| - 1], nodes[|nodes| - 1];
      assert Names(nodes) == Names(init) + [last.name] && nodes == init + [last];
      NoRepeatLast(Names(init), last.name);
      OnceEach(init, n);
      forall k | 0 <= k < |init| ensures init[k] != last { assert Names(init)[k] != last.name; }
    }
  }

  lemma {:induction false} UnplacedOnce(nodes: seq<Node>, placed: seq<string>)
    requires NoRepeat(Names(nodes))
    ensures NoRepeat(Names(Unplaced(nodes, placed)))
  {
    if nodes != [] {
      var rest, left := nodes[1..], Unplaced(nodes[1..], placed);
      assert NoRepeat(Names(rest)) by { assert forall k :: 0 <= k < |rest| ==> Names(rest)[k] == Names(nodes)[k + 1]; }
      UnplacedOnce(rest, placed);
      forall k | 0 <= k < |left| ensures left[k].name != nodes[0].name {
        UnplacedMember(rest, placed, left[k]);
        var j :| 0 <= j < |rest| && rest[j] == left[k];
        assert Names(nodes)[0] != Names(nodes)[j + 1];
      }
      assert forall j, k :: 0 <= j < k < |left| ==> Names(left)[j] != Names(left)[k];
    }
  }

  /** Nothing is lost: what is placed and what is left are the tables. */
  lemma PlacedAndLeft(nodes: seq<Node>, placed: seq<Node>)
    requires Placing(nodes, placed)
    ensures multiset(placed + Unplaced(nodes, Names(placed))) == multiset(nodes)
  {
    var left := Unplaced(nodes, Names(placed));
    UnplacedOnce(nodes, Names(placed));
    forall n: Node ensures multiset(placed)[n] + multiset(left)[n] == multiset(nodes)[n] {
      OnceEach(nodes, n);
      OnceEach(placed, n);
      OnceEach(left, n);
      UnplacedMember(nodes, Names(placed), n);
      InPlaced(nodes, placed, n);
    }
    assert multiset(placed + left) == multiset(placed) + multiset(left);
  }

  lemma InPlaced(nodes: seq<Node>, placed: seq<Node>, n: Node)
    requires Placing(nodes, placed)
    ensures n in placed <==> n in nodes && n.name in Names(placed)
  {
    if n in placed {
      var k :| 0 <= k < |placed| && placed[k] == n;
      assert Names(placed)[k] == n.name;
    }
    if n in nodes && n.name in Names(placed) {
      var k :| 0 <= k < |placed| && Names(placed)[k] == n.name;
      var i :| 0 <= i < |nodes| && nodes[i] == placed[k];
      var j :| 0 <= j < |nodes| && nodes[j] == n;
      assert Names(nodes)[i] == Names(nodes)[j];
    }
  }

  // ---- schema.rs ----

  predicate NoneReady(ns: seq<Node>, placed: seq<string>) { forall k :: 0 <= k < |ns| ==> !Ready(ns[k], placed) }

  /** Part way through a pass: `placed0` was placed before it, `kept` has been passed over, `rest` is to come. */
  predicate Passing(nodes: seq<Node>, placed0: seq<Node>, placed: seq<Node>, kept: seq<Node>, rest: seq<Node>) {
    && Placing(nodes, placed) && Unplaced(nodes, Names(placed)) == kept + rest && |placed| >= |placed0|
    && (|placed| == |placed0| ==> placed == placed0 && NoneReady(kept, Names(placed0)))
  }

  lemma PassOver(nodes: seq<Node>, placed0: seq<Node>, placed: seq<Node>, kept: seq<Node>, t: Node, rest: seq<Node>)
    requires Passing(nodes, placed0, placed, kept, [t] + rest)
    ensures if Ready(t, Names(placed)) then Passing(nodes, placed0, placed + [t], kept, rest)
            else Passing(nodes, placed0, placed, kept + [t], rest)
  {
    assert kept + ([t] + rest) == kept + [t] + rest;
    if Ready(t, Names(placed)) {
      PlaceKeeps(nodes, placed, kept, t, rest);
    }
  }

  /** The tables a pass ends with: placed, and kept. */
  function Retain(placed: seq<Node>, kept: seq<Node>, rest: seq<Node>): (seq<Node>, seq<Node>)
    decreases |rest|
  {
    if rest == [] then (placed, kept)
    else if Ready(rest[0], Names(placed)) then Retain(placed + [rest[0]], kept, rest[1..])
    else Retain(placed, kept + [rest[0]], rest[1..])
  }

  lemma {:induction false} RetainKeeps(nodes: seq<Node>, placed0: seq<Node>, placed: seq<Node>, kept: seq<Node>, rest: seq<Node>)
    requires Passing(nodes, placed0, placed, kept, rest)
    ensures var (p, k) := Retain(placed, kept, rest);
            Passing(nodes, placed0, p, k, []) && |p| + |k| == |placed| + |kept| + |rest|
    decreases |rest|
  {
    if rest != [] {
      var t, later := rest[0], rest[1..];
      assert rest == [t] + later;
      PassOver(nodes, placed0, placed, kept, t, later);
      if Ready(t, Names(placed)) {
        RetainKeeps(nodes, placed0, placed + [t], kept, later);
      } else {
        RetainKeeps(nodes, placed0, placed, kept + [t], later);
      }
    }
  }

  /** One pass of `retain`: tables whose references are placed go over, in order. */
  method PlaceReady(placed0: seq<Node>, remaining: seq<Node>) returns (placed: seq<Node>, kept: seq<Node>)
    ensures (placed, kept) == Retain(placed0, [], remaining)
  {
    placed, kept := placed0, [];
    assert remaining[0..] == remaining;
    for i := 0 to |remaining|
      invariant Retain(placed, kept, remaining[i..]) == Retain(placed0, [], remaining)
    {
      var t := remaining[i];
      assert remaining[i..][1..] == remaining[i + 1..];
      if Ready(t, Names(placed)) {
        placed := placed + [t];
      } else {
        kept := kept + [t];
      }
    }
    assert remaining[|remaining|..] == [];
  }

  /** What a pass does to tables in order. */
  lemma Passed(nodes: seq<Node>, placed0: seq<Node>, remaining: seq<Node>)
    requires Placing(nodes, placed0) && remaining == Unplaced(nodes, Names(placed0))
    ensures var (placed, kept) := Retain(placed0, [], remaining);
            && Placing(nodes, placed) && kept == Unplaced(nodes, Names(placed))
            && |placed| + |kept| == |placed0| + |remaining| && |placed| >= |placed0|
            && (|placed| == |placed0| ==> placed == placed0 && NoneReady(kept, Names(placed)))
  {
    assert [] + remaining == remaining;
    RetainKeeps(nodes, placed0, placed0, [], remaining);
    var (placed, kept) := Retain(placed0, [], remaining);
    assert kept + [] == kept;
  }

  lemma Finished(nodes: seq<Node>, placed: seq<Node>, kept: seq<Node>)
    requires Placing(nodes, placed) && kept == Unplaced(nodes, Names(placed)) && NoneReady(kept, Names(placed))
    ensures multiset(placed + kept) == multiset(nodes) && Sorted(nodes, Names(placed + kept))
  {
    PlacedAndLeft(nodes, placed);
    StuckIs(nodes, Names(placed), kept);
    assert Names(placed + kept)[..|placed|] == Names(placed) && Names(placed + kept)[|placed|..] == Names(kept);
    assert SortedAt(nodes, Names(placed + kept), |placed|);
  }

  /** A permutation of the tables, referenced tables first, what is left as declared. */
  method TablesInDependencyOrder(nodes: seq<Node>) returns (placed: seq<Node>)
    requires NoRepeat(Names(nodes))
    ensures multiset(placed) == multiset(nodes) && Sorted(nodes, Names(placed))
  {
    placed := [];
    var remaining := nodes;
    UnplacedNone(nodes);
    assert Names(placed) == [];
    while remaining != []
      invariant Placing(nodes, placed) && remaining == Unplaced(nodes, Names(placed))
      decreases |remaining|
    {
      Passed(nodes, placed, remaining);
      var more, kept := PlaceReady(placed, remaining);
      if |more| == |placed| {
        Finished(nodes, more, kept);
        return more + kept;
      }
      placed, remaining := more, kept;
    }
    Finished(nodes, placed, []);
    assert placed + [] == placed;
  }

  lemma StuckIs(nodes: seq<Node>, good: seq<string>, kept: seq<Node>)
    requires kept == Unplaced(nodes, good) && forall k :: 0 <= k < |kept| ==> !Ready(kept[k], good)
    ensures Stuck(nodes, good)
  {
    forall i | 0 <= i < |nodes| && nodes[i].name !in good ensures !Ready(nodes[i], good) {
      UnplacedMember(nodes, good, nodes[i]);
    }
  }
}
