/** What an ORDER BY answered from parallel chunks gives the caller: rows in SQLite's order of the key's cells. */
module ScanOrder {
  import opened Bytes
  import opened ScanCells
  import opened SortKeys
  import opened KeyOrder
  import opened SortPullUp
  import opened DirectEncode
  import opened DirectScan
  import opened ParallelQuery

  /** The scanned cells of the key column, in row order. */
  function KeyCells(cells: seq<seq<seq<Cell>>>, key: nat): seq<Cell>
    requires forall k :: 0 <= k < |cells| ==> key < |cells[k]|
  {
    Flatten(Slice(cells, key))
  }

  // ---- which keys are answered ----

  lemma {:induction false} NoBlobs(parts: seq<seq<Cell>>)
    requires forall k :: 0 <= k < |parts| ==> !HasBlob(parts[k])
    ensures !HasBlob(Flatten(parts))
  {
    if parts != [] {
      NoBlobs(parts[1..]);
      Concat(parts[0], Flatten(parts[1..]));
    }
  }

  lemma GatedOneClass(num: Conversions, cells: seq<seq<seq<Cell>>>, names: seq<seq<Byte>>, order: SortOrder)
    requires cells != [] && Rectangular(cells, |names|) && AllSliceable(num, cells, |names|)
    requires Gates(num, cells, names, Some(order))
    ensures KeyIndex(names, order.key) < |names| && OneClass(KeyCells(cells, KeyIndex(names, order.key)))
  {
    var key := KeyIndex(names, order.key);
    var parts := Slice(cells, key);
    assert ColumnGate(num, parts);
    GatedWhole(num, parts, Class(parts[0]));
    NoBlobs(parts);
    OneClassIs(Flatten(parts));
  }

  lemma SortableOneClass(num: Conversions, names: seq<seq<Byte>>, cells: seq<seq<seq<Cell>>>, order: SortOrder)
    requires forall k :: 0 <= k < |cells| ==> |cells[k]| == |names|
    ensures KeySortable(num, names, cells, order) <==>
            KeyIndex(names, order.key) < |names| && OneClass(KeyCells(cells, KeyIndex(names, order.key)))
  {
    if KeyIndex(names, order.key) < |names| {
      OneClassIs(KeyCells(cells, KeyIndex(names, order.key)));
    }
  }

  // ---- in which order ----

  /** The rows taken in the order of `idx` show their keys in SQLite's order. */
  ghost predicate CellsSorted(cells: seq<Cell>, idx: seq<nat>, desc: bool)
    requires RowsIn(idx, |cells|)
  {
    forall i: nat, j: nat :: i < j < |idx| ==> CellSorted(cells[idx[i]], cells[idx[j]], desc)
  }

  lemma KeysFollow(now: State, before: State, idx: seq<nat>, n: nat, r: nat)
    requires Whole(now, n) && Whole(before, n) && |idx| == n && RowsIn(idx, n) && RowMoved(now, before, idx, n)
    requires before.nulls == [] && r < n
    ensures KeysOf(now.data)[r] == KeysOf(before.data)[idx[r]]
  {
    assert RowValue(now, r) == RowValue(before, idx[r]);
  }

  lemma SortedRows(num: Conversions, cells: seq<Cell>, now: State, idx: seq<nat>, desc: bool)
    requires OneClass(cells) && TextFits(num, cells)
    requires Whole(now, |cells|) && Whole(Serial(num, cells), |cells|) && |idx| == |cells| && RowsIn(idx, |cells|)
    requires RowMoved(now, Serial(num, cells), idx, |cells|) && AllOrdered(KeysOf(now.data), desc)
    ensures CellsSorted(cells, idx, desc)
  {
    OneClassIs(cells);
    forall i: nat, j: nat | i < j < |idx| ensures CellSorted(cells[idx[i]], cells[idx[j]], desc) {
      KeysFollow(now, Serial(num, cells), idx, |cells|, i);
      KeysFollow(now, Serial(num, cells), idx, |cells|, j);
      assert Ordered(desc, KeysOf(now.data)[i], KeysOf(now.data)[j]);
      CellsInOrder(num, cells, desc, idx[i], idx[j]);
    }
  }

  lemma ScannedRows(num: Conversions, cells: seq<Cell>, desc: bool)
    requires OneClass(cells) && TextFits(num, cells)
    ensures Sliceable(Serial(num, cells).data)
    ensures AllOrdered(KeysOf(Serial(num, cells).data), desc) <==> CellsSorted(cells, Upto(|cells|), desc)
  {
    ClassSlices(num, cells);
    var ks, idx := KeysOf(Serial(num, cells).data), Upto(|cells|);
    forall i: nat, j: nat | i < |cells| && j < |cells|
      ensures Ordered(desc, ks[i], ks[j]) <==> CellSorted(cells[i], cells[j], desc)
    {
      CellsInOrder(num, cells, desc, i, j);
    }
    if AllOrdered(ks, desc) {
      forall i: nat, j: nat | i < j < |idx| ensures CellSorted(cells[idx[i]], cells[idx[j]], desc) {
        assert Ordered(desc, ks[i], ks[j]);
      }
    }
    if CellsSorted(cells, idx, desc) {
      forall i: nat, j: nat | i < j < |ks| ensures Ordered(desc, ks[i], ks[j]) {
        assert CellSorted(cells[idx[i]], cells[idx[j]], desc);
      }
    }
  }

  /** An ORDER BY is answered exactly when some column has the key's name and holds, over all chunks, values of one
      storage class without NULL and blob. Merged chunks then come out in SQLite's order of the key; chunks written
      directly do exactly when no skipped boundary is out of order. */
  lemma AnswerOrder(num: Conversions, names: seq<seq<Byte>>, cells: seq<seq<seq<Cell>>>, order: SortOrder,
                    r: Option<seq<Byte>>, idx: seq<nat>, states: seq<State>)
    requires Sane(num) && cells != [] && Rectangular(cells, |names|) && QueryReady(num, cells, |names|, true)
    requires AllSliceable(num, cells, |names|)
    requires forall c :: 0 <= c < |names| ==> CanFinish(Serial(num, Flatten(Slice(cells, c))))
    requires OrderAnswered(num, names, cells, order, r, idx, states)
    ensures var key := KeyIndex(names, order.key);
            && (r.Some? <==> key < |names| && OneClass(KeyCells(cells, key)))
            && (r.Some? ==>
                  var kc := KeyCells(cells, key);
                  if Gates(num, cells, names, Some(order)) then
                    CellsSorted(kc, Upto(|kc|), order.desc) <==> SkippedInOrder(num, names, cells, order)
                  else |idx| == |kc| && Permutation(idx, |kc|) && RowsIn(idx, |kc|) && CellsSorted(kc, idx, order.desc))
  {
    SortableOneClass(num, names, cells, order);
    if Gates(num, cells, names, Some(order)) {
      GatedOneClass(num, cells, names, order);
      ScannedRows(num, KeyCells(cells, KeyIndex(names, order.key)), order.desc);
    } else if KeySortable(num, names, cells, order) {
      var key := KeyIndex(names, order.key);
      WholeRows(cells, |names|, key);
      SortedRows(num, KeyCells(cells, key), states[key], idx, order.desc);
    }
  }
}
