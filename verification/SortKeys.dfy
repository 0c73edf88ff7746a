/** The order of an ORDER BY pull-up: row keys, sortedness, and what the chunk gate checks of it (client.rs). */
module SortKeys {
  import opened Bytes
  import opened ScanCells

  datatype Key = IntKey(i: I64) | FloatKey(f: F64) | TextKey(text: seq<Byte>)

  /** `f64::total_cmp`: negative patterns count down from -1. */
  function TotalKey(f: F64): int {
    if f < TWO_TO_63 then f else -(f - TWO_TO_63) - 1
  }

  /** Byte-wise lexicographic order. */
  predicate TextLeq(a: seq<Byte>, b: seq<Byte>) {
    a == [] || (b != [] && (a[0] < b[0] || (a[0] == b[0] && TextLeq(a[1..], b[1..]))))
  }

  predicate KeyLeq(a: Key, b: Key) {
    match (a, b)
    case (IntKey(x), IntKey(y)) => x <= y
    case (FloatKey(x), FloatKey(y)) => TotalKey(x) <= TotalKey(y)
    case (TextKey(x), TextKey(y)) => TextLeq(x, y)
    case _ => false
  }

  predicate Ordered(desc: bool, a: Key, b: Key) {
    if desc then KeyLeq(b, a) else KeyLeq(a, b)
  }

  predicate SameKind(a: Key, b: Key) {
    a.IntKey? == b.IntKey? && a.FloatKey? == b.FloatKey?
  }

  lemma {:induction false} TextLeqTotal(a: seq<Byte>, b: seq<Byte>)
    ensures TextLeq(a, b) || TextLeq(b, a)
  {
    if a != [] && b != [] {
      TextLeqTotal(a[1..], b[1..]);
    }
  }

  lemma {:induction false} TextLeqTrans(a: seq<Byte>, b: seq<Byte>, c: seq<Byte>)
    requires TextLeq(a, b) && TextLeq(b, c)
    ensures TextLeq(a, c)
  {
    if a != [] && a[0] == b[0] == c[0] {
      TextLeqTrans(a[1..], b[1..], c[1..]);
    }
  }

  /** Ties are only equal keys: reordering them shows nothing. */
  lemma {:induction false} TextLeqAntisym(a: seq<Byte>, b: seq<Byte>)
    requires TextLeq(a, b) && TextLeq(b, a)
    ensures a == b
  {
    if a != [] {
      TextLeqAntisym(a[1..], b[1..]);
      assert a == [a[0]] + a[1..] && b == [b[0]] + b[1..];
    }
  }

  lemma OrderedIsTotalOrder(desc: bool, a: Key, b: Key, c: Key)
    ensures SameKind(a, b) ==> Ordered(desc, a, b) || Ordered(desc, b, a)
    ensures Ordered(desc, a, b) && Ordered(desc, b, c) ==> Ordered(desc, a, c)
    ensures Ordered(desc, a, b) && Ordered(desc, b, a) ==> a == b
  {
    if a.TextKey? && b.TextKey? {
      TextLeqTotal(a.text, b.text);
      if Ordered(desc, a, b) && Ordered(desc, b, a) {
        TextLeqAntisym(a.text, b.text);
      }
      if c.TextKey? && Ordered(desc, a, b) && Ordered(desc, b, c) {
        if desc {
          TextLeqTrans(c.text, b.text, a.text);
        } else {
          TextLeqTrans(a.text, b.text, c.text);
        }
      }
    }
  }

  // ---- keys of a column ----

  function KeyAt(data: AdaptiveData, r: nat): Key
    requires Sliceable(data) && r < RowsOf(data)
  {
    match data
    case IntBuf(v) => IntKey(v[r])
    case FloatBuf(v) => FloatKey(v[r])
    case StrBuf(_, _) => TextKey(RowText(data, r))
  }

  function KeysOf(data: AdaptiveData): (ks: seq<Key>)
    requires Sliceable(data)
    ensures |ks| == RowsOf(data)
  {
    seq(RowsOf(data), r requires 0 <= r < RowsOf(data) => KeyAt(data, r))
  }

  lemma KeysSameKind(data: AdaptiveData)
    requires Sliceable(data)
    ensures OneKind(KeysOf(data))
  {
  }

  ghost predicate OneKind(ks: seq<Key>) {
    forall i, j :: 0 <= i < |ks| && 0 <= j < |ks| ==> SameKind(ks[i], ks[j])
  }

  // ---- sortedness ----

  /** `is_sorted`: every two neighbours. */
  predicate AdjacentOrdered(ks: seq<Key>, desc: bool) {
    forall r :: 0 <= r < |ks| - 1 ==> Ordered(desc, ks[r], ks[r + 1])
  }

  /** Every two rows. */
  predicate AllOrdered(ks: seq<Key>, desc: bool) {
    forall i, j :: 0 <= i < j < |ks| ==> Ordered(desc, ks[i], ks[j])
  }

  lemma {:induction false} OrderedFrom(ks: seq<Key>, desc: bool, i: nat, j: nat)
    requires AdjacentOrdered(ks, desc) && i < j < |ks|
    ensures Ordered(desc, ks[i], ks[j])
    decreases j
  {
    assert Ordered(desc, ks[j - 1], ks[j - 1 + 1]);
    if i < j - 1 {
      OrderedFrom(ks, desc, i, j - 1);
      OrderedIsTotalOrder(desc, ks[i], ks[j - 1], ks[j]);
    }
  }

  /** The neighbour check decides the order of all rows. */
  lemma AdjacentIsAll(ks: seq<Key>, desc: bool)
    ensures AdjacentOrdered(ks, desc) == AllOrdered(ks, desc)
  {
    if AdjacentOrdered(ks, desc) {
      forall i, j | 0 <= i < j < |ks| ensures Ordered(desc, ks[i], ks[j]) {
        OrderedFrom(ks, desc, i, j);
      }
    }
  }

  // ---- the chunk gate ----

  /** `boundary_ordered`: last of one chunk against first of another. */
  predicate BoundaryOrdered(a: seq<Key>, b: seq<Key>, desc: bool) {
    a != [] && b != [] ==> Ordered(desc, a[|a| - 1], b[0])
  }

  /** What the direct route checks: every chunk, and every boundary between two adjacent non-empty chunks. */
  predicate ChunksOrdered(chunks: seq<seq<Key>>, desc: bool) {
    && (forall k :: 0 <= k < |chunks| ==> AdjacentOrdered(chunks[k], desc))
    && forall k :: 0 <= k < |chunks| - 1 ==> BoundaryOrdered(chunks[k], chunks[k + 1], desc)
  }

  predicate EmptyRun(chunks: seq<seq<Key>>, i: nat, j: nat) {
    i + 1 < j < |chunks| && forall k :: i < k < j ==> chunks[k] == []
  }

  /** The boundaries it skips: neighbours across a run of empty chunks. */
  predicate SkippedOrdered(chunks: seq<seq<Key>>, desc: bool) {
    forall i: nat, j: nat :: i < |chunks| && j < |chunks| && EmptyRun(chunks, i, j) ==> BoundaryOrdered(chunks[i], chunks[j], desc)
  }

  lemma AllOrderedConcat(a: seq<Key>, b: seq<Key>, desc: bool)
    ensures AllOrdered(a + b, desc) <==> AllOrdered(a, desc) && AllOrdered(b, desc) && BoundaryOrdered(a, b, desc)
  {
    AdjacentIsAll(a, desc);
    AdjacentIsAll(b, desc);
    AdjacentIsAll(a + b, desc);
    var c := a + b;
    if AllOrdered(c, desc) {
      forall r | 0 <= r < |a| - 1 ensures Ordered(desc, a[r], a[r + 1]) {
        assert Ordered(desc, c[r], c[r + 1]);
      }
      forall r | 0 <= r < |b| - 1 ensures Ordered(desc, b[r], b[r + 1]) {
        assert Ordered(desc, c[|a| + r], c[|a| + r + 1]);
      }
      if a != [] && b != [] {
        assert Ordered(desc, c[|a| - 1], c[|a|]);
      }
    }
    if AllOrdered(a, desc) && AllOrdered(b, desc) && BoundaryOrdered(a, b, desc) {
      forall r | 0 <= r < |c| - 1 ensures Ordered(desc, c[r], c[r + 1]) {
        if r >= |a| {
          assert Ordered(desc, b[r - |a|], b[r - |a| + 1]);
        }
      }
    }
  }

  /** The last non-empty chunk, if any: where the concatenation ends. */
  function LastFull(chunks: seq<seq<Key>>): (i: nat)
    ensures i <= |chunks|
    ensures i == 0 ==> Flatten(chunks) == []
    ensures i > 0 ==> chunks[i - 1] != [] && Flatten(chunks) != []
    ensures i > 0 ==> Flatten(chunks)[|Flatten(chunks)| - 1] == chunks[i - 1][|chunks[i - 1]| - 1]
    ensures forall k :: i <= k < |chunks| ==> chunks[k] == []
  {
    if chunks == [] then 0 else
      var init, last := chunks[..|chunks| - 1], chunks[|chunks| - 1];
      assert Flatten(chunks) == Flatten(init) + last by {
        assert chunks == init + [last];
        FlattenSnoc(init, last);
      }
      if last != [] then |chunks| else LastFull(init)
  }

  ghost predicate GateHolds(chunks: seq<seq<Key>>, desc: bool) {
    ChunksOrdered(chunks, desc) && SkippedOrdered(chunks, desc)
  }

  /** One more chunk must be ordered in itself and against the last non-empty one. */
  lemma GateSnoc(init: seq<seq<Key>>, last: seq<Key>, desc: bool)
    ensures GateHolds(init + [last], desc) <==>
            && GateHolds(init, desc)
            && AdjacentOrdered(last, desc)
            && (LastFull(init) > 0 ==> BoundaryOrdered(init[LastFull(init) - 1], last, desc))
  {
    var chunks, n := init + [last], |init|;
    if GateHolds(chunks, desc) {
      forall k | 0 <= k < n ensures AdjacentOrdered(init[k], desc) {
        assert AdjacentOrdered(chunks[k], desc);
      }
      forall k | 0 <= k < n - 1 ensures BoundaryOrdered(init[k], init[k + 1], desc) {
        assert BoundaryOrdered(chunks[k], chunks[k + 1], desc);
      }
      forall i: nat, j: nat | i < n && j < n && EmptyRun(init, i, j) ensures BoundaryOrdered(init[i], init[j], desc) {
        assert EmptyRun(chunks, i, j);
      }
      assert AdjacentOrdered(chunks[n], desc);
      var f := LastFull(init);
      if f > 0 {
        if f == n {
          assert BoundaryOrdered(chunks[n - 1], chunks[n], desc);
        } else {
          assert EmptyRun(chunks, f - 1, n);
        }
      }
    }
    if && GateHolds(init, desc) && AdjacentOrdered(last, desc)
       && (LastFull(init) > 0 ==> BoundaryOrdered(init[LastFull(init) - 1], last, desc)) {
      GateExtends(init, last, desc);
    }
  }

  lemma GateExtends(init: seq<seq<Key>>, last: seq<Key>, desc: bool)
    requires GateHolds(init, desc) && AdjacentOrdered(last, desc)
    requires LastFull(init) > 0 ==> BoundaryOrdered(init[LastFull(init) - 1], last, desc)
    ensures GateHolds(init + [last], desc)
  {
    var chunks, n := init + [last], |init|;
    forall k | 0 <= k < n + 1 ensures AdjacentOrdered(chunks[k], desc) {
      if k < n {
        assert AdjacentOrdered(init[k], desc);
      }
    }
    forall k | 0 <= k < n ensures BoundaryOrdered(chunks[k], chunks[k + 1], desc) {
      if k < n - 1 {
        assert BoundaryOrdered(init[k], init[k + 1], desc);
      }
    }
    forall i: nat, j: nat | i < n + 1 && j < n + 1 && EmptyRun(chunks, i, j) ensures BoundaryOrdered(chunks[i], chunks[j], desc) {
      if j < n {
        assert forall k :: i < k < j ==> init[k] == chunks[k];
        assert EmptyRun(init, i, j);
      } else if chunks[i] != [] && last != [] {
        assert forall k :: i < k < n ==> chunks[k] == [] && init[k] == [];
        assert LastFull(init) == i + 1;
      }
    }
  }

  /** The concatenation is sorted if and only if the gate passes and no boundary it skips is out of order. */
  lemma {:induction false} SortedIffGate(chunks: seq<seq<Key>>, desc: bool)
    ensures AllOrdered(Flatten(chunks), desc) <==> ChunksOrdered(chunks, desc) && SkippedOrdered(chunks, desc)
  {
    if chunks != [] {
      var init, last := chunks[..|chunks| - 1], chunks[|chunks| - 1];
      assert chunks == init + [last];
      FlattenSnoc(init, last);
      SortedIffGate(init, desc);
      AllOrderedConcat(Flatten(init), last, desc);
      AdjacentIsAll(last, desc);
      GateSnoc(init, last, desc);
      assert LastFull(init) >= 0;
    }
  }

  /** Without an empty interior chunk nothing is skipped, and the gate alone decides. */
  lemma GateSuffices(chunks: seq<seq<Key>>, desc: bool)
    requires forall k :: 0 < k < |chunks| - 1 ==> chunks[k] != []
    ensures AllOrdered(Flatten(chunks), desc) <==> ChunksOrdered(chunks, desc)
  {
    SortedIffGate(chunks, desc);
    forall i: nat, j: nat | i < |chunks| && j < |chunks| ensures !EmptyRun(chunks, i, j) {
      if i + 1 < j {
        assert chunks[i + 1] != [];
      }
    }
  }

  /** Any out-of-order pair of rows passes the gate once an empty chunk separates them. */
  lemma GateMisses(a: Key, b: Key, desc: bool)
    requires !Ordered(desc, a, b)
    ensures ChunksOrdered([[a], [], [b]], desc) && !AllOrdered(Flatten([[a], [], [b]]), desc)
  {
    var chunks: seq<seq<Key>> := [[a], [], [b]];
    assert EmptyRun(chunks, 0, 2);
    SortedIffGate(chunks, desc);
  }
}
