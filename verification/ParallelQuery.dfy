/** A whole parallel query: straight to wire bytes if the gates pass, else merged, finished and encoded (client.rs). */
module ParallelQuery {
  import opened Bytes
  import opened Columns
  import opened ScanCells
  import opened AdaptiveColumn
  import opened ParallelMerge
  import opened MergeAgreement
  import opened SortKeys
  import opened KeyOrder
  import opened SortPullUp
  import opened DirectEncode
  import opened DirectScan
  import opened Pcb
  import PcbDecode
  import PcbEncode
  import RowidRanges

  lemma MergedWellFormed(num: Conversions, chunks: seq<seq<Cell>>)
    ensures WellFormed(Merged(num, chunks))
  {
    var cells := Flatten(chunks);
    var s := Merged(num, chunks);
    if Class(cells) == 2 {
      MergedRenders(num, chunks);
      NullRowsHold(cells, s.nulls);
      var texts := MergedTexts(num, chunks);
      forall j | 0 <= j < |s.nulls| ensures texts[s.nulls[j]] == [] {
        assert RendersAs(num, cells, s.nulls[j], texts[s.nulls[j]]);
      }
      StrWellFormed(texts, s);
    } else {
      HeldWellFormed(num, cells, Class(cells), s);
    }
  }

  ghost predicate DistinctTable(chunks: seq<seq<AdaptiveCol>>) {
    forall k, c, k', c' ::
      (0 <= k < |chunks| && 0 <= c < |chunks[k]| && 0 <= k' < |chunks| && 0 <= c' < |chunks[k']| && (k != k' || c != c'))
      ==> chunks[k][c] != chunks[k'][c']
  }

  /** Every cut of the rows gives the serial column: no text, or a harmless float hop and a harmless repair. */
  predicate CutProof(num: Conversions, cells: seq<Cell>) {
    HasText(cells) ==> RenderOk(num, cells) && Utf8Ok(num, cells)
  }

  /** The serial column can be finished without slicing by wrapped offsets, and ordered if an order is asked for. */
  ghost predicate Finishable(num: Conversions, cells: seq<Cell>, ordered: bool) {
    if ordered then TextFits(num, cells) else CanFinish(Serial(num, cells))
  }

  ghost predicate QueryReady(num: Conversions, cells: seq<seq<seq<Cell>>>, ncols: nat, ordered: bool)
    requires Rectangular(cells, ncols)
  {
    forall c :: 0 <= c < ncols ==>
      CutProof(num, Flatten(Slice(cells, c))) && Finishable(num, Flatten(Slice(cells, c)), ordered)
  }

  lemma FitsSlices(num: Conversions, cells: seq<Cell>)
    requires TextFits(num, cells)
    ensures Sliceable(Serial(num, cells).data)
  {
    if HasText(cells) {
      StrSlices(Rendered(num, cells));
    }
  }

  /** When the whole text fits, so does every chunk's. */
  lemma ChunksSlice(num: Conversions, parts: seq<seq<Cell>>, k: nat)
    requires k < |parts| && CutProof(num, Flatten(parts)) && TextFits(num, Flatten(parts))
    ensures Sliceable(Serial(num, parts[k]).data)
  {
    if HasText(parts[k]) {
      if !HasText(Flatten(parts)) {
        NoTextInChunks(parts);
      }
      MergedDirect(num, parts);
      SerialDirect(num, Flatten(parts));
      PartFits(num, parts, k);
      StrSlices(Rendered(num, parts[k]));
    }
  }

  lemma ReadyFinishes(num: Conversions, cells: seq<seq<seq<Cell>>>, ncols: nat, ordered: bool)
    requires Rectangular(cells, ncols) && QueryReady(num, cells, ncols, ordered)
    ensures forall c :: 0 <= c < ncols ==> CanFinish(Serial(num, Flatten(Slice(cells, c))))
    ensures ordered ==> AllSliceable(num, cells, ncols)
    ensures ordered ==> forall c :: 0 <= c < ncols ==> Sliceable(Serial(num, Flatten(Slice(cells, c))).data)
  {
    forall c | 0 <= c < ncols
      ensures CanFinish(Serial(num, Flatten(Slice(cells, c))))
      ensures ordered ==> Sliceable(Serial(num, Flatten(Slice(cells, c))).data)
    {
      if ordered {
        FitsSlices(num, Flatten(Slice(cells, c)));
      }
    }
    if ordered {
      forall k, c | 0 <= k < |cells| && 0 <= c < ncols ensures Sliceable(Serial(num, cells[k][c]).data) {
        ChunksSlice(num, Slice(cells, c), k);
      }
    }
  }

  ghost predicate ColumnScanned(chunks: seq<seq<AdaptiveCol>>, num: Conversions, cells: seq<seq<seq<Cell>>>, c: nat)
    requires |chunks| == |cells| && forall k :: 0 <= k < |chunks| ==> c < |chunks[k]| && c < |cells[k]|
    reads set k | 0 <= k < |chunks| && c < |chunks[k]| :: chunks[k][c]
  {
    forall k :: 0 <= k < |chunks| ==> chunks[k][c].Scanned(num, cells[k][c])
  }

  /** `merge_chunks` */
  method MergeChunks(chunks: seq<seq<AdaptiveCol>>, ncols: nat, ghost num: Conversions, ghost cells: seq<seq<seq<Cell>>>)
    returns (cols: seq<AdaptiveCol>)
    requires ScannedTable(chunks, num, cells, ncols) && DistinctTable(chunks)
    modifies set k, c | 0 <= k < |chunks| && 0 <= c < |chunks[k]| :: chunks[k][c]
    ensures |cols| == ncols && forall c :: 0 <= c < ncols ==> cols[c] == chunks[0][c]
    ensures forall c :: 0 <= c < ncols ==> cols[c].View() == Merged(num, Slice(cells, c))
  {
    cols := [];
    for c := 0 to ncols
      invariant |cols| == c && forall j :: 0 <= j < c ==> cols[j] == chunks[0][j]
      invariant forall j :: 0 <= j < c ==> chunks[0][j].View() == Merged(num, Slice(cells, j))
      invariant forall j :: c <= j < ncols ==> ColumnScanned(chunks, num, cells, j)
    {
      var acc := MergeColumn(chunks, ncols, c, num, cells);
      cols := cols + [acc];
    }
  }

  method MergeColumn(chunks: seq<seq<AdaptiveCol>>, ncols: nat, c: nat, ghost num: Conversions,
                     ghost cells: seq<seq<seq<Cell>>>)
    returns (acc: AdaptiveCol)
    requires |chunks| == |cells| > 0 && DistinctTable(chunks) && c < ncols
    requires forall k :: 0 <= k < |chunks| ==> |chunks[k]| == |cells[k]| == ncols
    requires ColumnScanned(chunks, num, cells, c)
    modifies set k | 0 <= k < |chunks| :: chunks[k][c]
    ensures acc == chunks[0][c] && acc.View() == Merged(num, Slice(cells, c))
    ensures forall k, j :: 0 <= k < |chunks| && 0 <= j < ncols && j != c ==> unchanged(chunks[k][j])
  {
    acc := MergeCol(Slice(chunks, c), num, Slice(cells, c));
  }

  method FinishBatch(cols: seq<AdaptiveCol>, names: seq<seq<Byte>>) returns (b: Batch)
    requires |cols| == |names|
    requires forall c :: 0 <= c < |cols| ==> WellFormed(cols[c].View()) && CanFinish(cols[c].View())
    ensures |b.columns| == |cols| && forall c :: 0 <= c < |cols| ==> b.columns[c] == Finished(names[c], cols[c].View())
    ensures b.schema == PcbDecode.FieldsOf(b.columns)
    ensures b.numRows == if cols == [] then 0 else cols[0].len
  {
    var columns := [];
    for c := 0 to |cols|
      invariant |columns| == c && forall j :: 0 <= j < c ==> columns[j] == Finished(names[j], cols[j].View())
    {
      var col := cols[c].Finish(names[c]);
      columns := columns + [col];
    }
    b := Batch(PcbDecode.FieldsOf(columns), if columns == [] then 0 else columns[0].len, columns);
  }

  // ---- the answer ----

  /** The serial build of every column. */
  function SerialStates(num: Conversions, cells: seq<seq<seq<Cell>>>, ncols: nat): (states: seq<State>)
    requires forall k :: 0 <= k < |cells| ==> |cells[k]| == ncols
    ensures |states| == ncols
  {
    seq(ncols, c requires 0 <= c < ncols => Serial(num, Flatten(Slice(cells, c))))
  }

  ghost function FinishedBatch(names: seq<seq<Byte>>, states: seq<State>, n: nat): Batch
    requires |states| == |names| && forall c :: 0 <= c < |states| ==> CanFinish(states[c])
  {
    var columns := seq(|names|, c requires 0 <= c < |names| => Finished(names[c], states[c]));
    Batch(PcbDecode.FieldsOf(columns), n, columns)
  }

  lemma SerialIsFinished(num: Conversions, names: seq<seq<Byte>>, cells: seq<seq<seq<Cell>>>)
    requires Rectangular(cells, |names|)
    requires forall c :: 0 <= c < |names| ==> CanFinish(Serial(num, Flatten(Slice(cells, c))))
    ensures FinishedBatch(names, SerialStates(num, cells, |names|), RowCount(cells)) == SerialBatch(num, names, cells)
  {
    assert FinishedBatch(names, SerialStates(num, cells, |names|), RowCount(cells)).columns
        == SerialBatch(num, names, cells).columns;
  }

  /** The bytes of the serial scan with its rows moved by `idx`, the key in the asked order. */
  ghost predicate SortedBytes(num: Conversions, names: seq<seq<Byte>>, cells: seq<seq<seq<Cell>>>, order: SortOrder,
                              bytes: seq<Byte>, idx: seq<nat>, states: seq<State>)
    requires Rectangular(cells, |names|)
  {
    var n, key := RowCount(cells), KeyIndex(names, order.key);
    && Permutation(idx, n)
    && RowsMoved(states, SerialStates(num, cells, |names|), idx, n)
    && key < |names| && AllOrdered(KeysOf(states[key].data), order.desc)
    && bytes == Image(FinishedBatch(names, states, n))
  }

  /** The key the pull-up can order by. */
  predicate KeySortable(num: Conversions, names: seq<seq<Byte>>, cells: seq<seq<seq<Cell>>>, order: SortOrder)
    requires forall k :: 0 <= k < |cells| ==> |cells[k]| == |names|
  {
    var key := KeyIndex(names, order.key);
    key < |names| && Sortable(Serial(num, Flatten(Slice(cells, key))))
  }

  /** The boundaries the direct route skips in the key column are in the asked order. */
  ghost predicate SkippedInOrder(num: Conversions, names: seq<seq<Byte>>, cells: seq<seq<seq<Cell>>>, order: SortOrder)
    requires Rectangular(cells, |names|) && AllSliceable(num, cells, |names|)
  {
    var key := KeyIndex(names, order.key);
    key < |names| && SkippedOrdered(ChunkKeys(num, Slice(cells, key)), order.desc)
  }

  /** Straight to the wire, the rows stay as scanned: in the asked order if and only if no skipped boundary is out of
      it. Merged, they are sorted, or left to SQLite. */
  ghost predicate OrderAnswered(num: Conversions, names: seq<seq<Byte>>, cells: seq<seq<seq<Cell>>>, order: SortOrder,
                                r: Option<seq<Byte>>, idx: seq<nat>, states: seq<State>)
    requires cells != [] && Rectangular(cells, |names|) && AllSliceable(num, cells, |names|)
    requires forall c :: 0 <= c < |names| ==> CanFinish(Serial(num, Flatten(Slice(cells, c))))
  {
    if Gates(num, cells, names, Some(order)) then
      && r == Some(Image(SerialBatch(num, names, cells)))
      && KeysOrdered(num, names, cells, order) == SkippedInOrder(num, names, cells, order)
    else if KeySortable(num, names, cells, order) then
      r.Some? && SortedBytes(num, names, cells, order, r.value, idx, states)
    else r == None
  }

  /** The rows of the serial scan are in the asked order. */
  ghost predicate KeysOrdered(num: Conversions, names: seq<seq<Byte>>, cells: seq<seq<seq<Cell>>>, order: SortOrder)
    requires Rectangular(cells, |names|)
  {
    var key := KeyIndex(names, order.key);
    && key < |names| && Sliceable(Serial(num, Flatten(Slice(cells, key))).data)
    && AllOrdered(KeysOf(Serial(num, Flatten(Slice(cells, key))).data), order.desc)
  }

  lemma GatedOrder(num: Conversions, names: seq<seq<Byte>>, cells: seq<seq<seq<Cell>>>, order: SortOrder)
    requires Sane(num) && cells != [] && Rectangular(cells, |names|) && AllSliceable(num, cells, |names|)
    requires QueryReady(num, cells, |names|, true) && Gates(num, cells, names, Some(order))
    ensures KeysOrdered(num, names, cells, order) == SkippedInOrder(num, names, cells, order)
  {
    DirectSortedIff(num, Slice(cells, KeyIndex(names, order.key)), order.desc);
  }

  // ---- the merge route ----

  lemma MergedWhole(num: Conversions, cells: seq<seq<seq<Cell>>>, ncols: nat, c: nat, ordered: bool)
    requires Sane(num) && Rectangular(cells, ncols) && QueryReady(num, cells, ncols, ordered) && c < ncols
    ensures var s := Merged(num, Slice(cells, c));
            && s == Serial(num, Flatten(Slice(cells, c))) && s.len == RowCount(cells)
            && WellFormed(s) && CanFinish(s) && (ordered ==> Whole(s, RowCount(cells)))
  {
    CutsAgreeAnySize(num, Slice(cells, c));
    MergedWellFormed(num, Slice(cells, c));
    WholeRows(cells, ncols, c);
    if ordered {
      FitsSlices(num, Flatten(Slice(cells, c)));
    }
  }

  lemma {:induction false} NoRows(cells: seq<seq<seq<Cell>>>)
    requires Rectangular(cells, 0)
    ensures RowCount(cells) == 0
  {
    if cells != [] {
      NoRows(cells[..|cells| - 1]);
    }
  }

  method FinishAndEncode(cols: seq<AdaptiveCol>, names: seq<seq<Byte>>, ghost n: nat) returns (bytes: seq<Byte>)
    requires |cols| == |names| && (names == [] ==> n == 0)
    requires forall c :: 0 <= c < |cols| ==> WellFormed(cols[c].View()) && CanFinish(cols[c].View()) && cols[c].len == n
    ensures bytes == Image(FinishedBatch(names, Views(cols), n))
  {
    var b := FinishBatch(cols, names);
    assert b.columns == FinishedBatch(names, Views(cols), n).columns;
    bytes := PcbEncode.Encode(b);
  }

  /** Merged without an order: the bytes of the serial scan. */
  method MergeAndEncode(chunks: seq<seq<AdaptiveCol>>, names: seq<seq<Byte>>,
                        ghost num: Conversions, ghost cells: seq<seq<seq<Cell>>>)
    returns (bytes: seq<Byte>)
    requires Sane(num) && ScannedTable(chunks, num, cells, |names|) && DistinctTable(chunks)
    requires QueryReady(num, cells, |names|, false)
    modifies set k, c | 0 <= k < |chunks| && 0 <= c < |chunks[k]| :: chunks[k][c]
    ensures bytes == Image(SerialBatch(num, names, cells))
  {
    var cols := MergeChunks(chunks, |names|, num, cells);
    forall c | 0 <= c < |names|
      ensures cols[c].View() == Serial(num, Flatten(Slice(cells, c))) && cols[c].len == RowCount(cells)
      ensures WellFormed(cols[c].View()) && CanFinish(cols[c].View())
    {
      MergedWhole(num, cells, |names|, c, false);
    }
    if names == [] {
      NoRows(cells);
    }
    assert Views(cols) == SerialStates(num, cells, |names|);
    SerialIsFinished(num, names, cells);
    bytes := FinishAndEncode(cols, names, RowCount(cells));
  }

  /** Merged and ordered by the pull-up, or refused. */
  method MergeAndSort(chunks: seq<seq<AdaptiveCol>>, names: seq<seq<Byte>>, order: SortOrder,
                      ghost num: Conversions, ghost cells: seq<seq<seq<Cell>>>)
    returns (r: Option<seq<Byte>>, ghost idx: seq<nat>, ghost states: seq<State>)
    requires Sane(num) && ScannedTable(chunks, num, cells, |names|) && DistinctTable(chunks)
    requires QueryReady(num, cells, |names|, true)
    modifies set k, c | 0 <= k < |chunks| && 0 <= c < |chunks[k]| :: chunks[k][c]
    ensures r.Some? == KeySortable(num, names, cells, order)
    ensures r.Some? ==> SortedBytes(num, names, cells, order, r.value, idx, states)
  {
    var cols := MergeChunks(chunks, |names|, num, cells);
    forall c | 0 <= c < |names|
      ensures cols[c].View() == Serial(num, Flatten(Slice(cells, c))) && Whole(cols[c].View(), RowCount(cells))
    {
      MergedWhole(num, cells, |names|, c, true);
    }
    assert Views(cols) == SerialStates(num, cells, |names|);
    r, idx, states := SortAndEncode(cols, names, order, num, cells);
  }

  method SortAndEncode(cols: seq<AdaptiveCol>, names: seq<seq<Byte>>, order: SortOrder,
                       ghost num: Conversions, ghost cells: seq<seq<seq<Cell>>>)
    returns (r: Option<seq<Byte>>, ghost idx: seq<nat>, ghost states: seq<State>)
    requires |cols| == |names| && AllDistinct(cols) && Rectangular(cells, |names|)
    requires Views(cols) == SerialStates(num, cells, |names|)
    requires forall c :: 0 <= c < |cols| ==> Whole(cols[c].View(), RowCount(cells))
    modifies cols
    ensures r.Some? == KeySortable(num, names, cells, order)
    ensures r.Some? ==> SortedBytes(num, names, cells, order, r.value, idx, states)
  {
    ghost var n := RowCount(cells);
    var done;
    done, idx := SortBuilt(cols, names, order.key, order.desc, n);
    states := Views(cols);
    if !done {
      return None, idx, states;
    }
    forall c | 0 <= c < |names| ensures Whole(cols[c].View(), n) && CanFinish(cols[c].View()) {
      assert Whole(states[c], n);
    }
    var bytes := FinishAndEncode(cols, names, n);
    return Some(bytes), idx, states;
  }

  /** Any cut, any schedule of the column writers. Without an order: the bytes of the serial scan, by either route. With
      one: those bytes, or the same with the rows sorted, or nothing when the order is SQLite's to make. */
  method ScanBytes(chunks: seq<seq<AdaptiveCol>>, names: seq<seq<Byte>>, order: Option<SortOrder>, tasks: seq<nat>,
                   ghost num: Conversions, ghost cells: seq<seq<seq<Cell>>>)
    returns (r: Option<seq<Byte>>, ghost idx: seq<nat>, ghost states: seq<State>)
    requires Sane(num) && ScannedTable(chunks, num, cells, |names|) && DistinctTable(chunks)
    requires (forall i: nat :: i < |names| ==> i in tasks) && forall t :: 0 <= t < |tasks| ==> tasks[t] < |names|
    requires QueryReady(num, cells, |names|, order.Some?)
    modifies set k, c | 0 <= k < |chunks| && 0 <= c < |chunks[k]| :: chunks[k][c]
    ensures forall c :: 0 <= c < |names| ==> CanFinish(Serial(num, Flatten(Slice(cells, c))))
    ensures order.Some? ==> AllSliceable(num, cells, |names|)
    ensures order.None? ==> r == Some(Image(SerialBatch(num, names, cells)))
    ensures order.Some? ==> OrderAnswered(num, names, cells, order.value, r, idx, states)
  {
    idx, states := [], [];
    ReadyFinishes(num, cells, |names|, order.Some?);
    r := EncodeChunksDirect(chunks, names, order, tasks, num, cells);
    if r.Some? && order.Some? {
      GatedOrder(num, names, cells, order.value);
    }
    if r.None? {
      r, idx, states := MergeRoute(chunks, names, order, num, cells);
    }
  }

  method MergeRoute(chunks: seq<seq<AdaptiveCol>>, names: seq<seq<Byte>>, order: Option<SortOrder>,
                    ghost num: Conversions, ghost cells: seq<seq<seq<Cell>>>)
    returns (r: Option<seq<Byte>>, ghost idx: seq<nat>, ghost states: seq<State>)
    requires Sane(num) && ScannedTable(chunks, num, cells, |names|) && DistinctTable(chunks)
    requires QueryReady(num, cells, |names|, order.Some?)
    modifies set k, c | 0 <= k < |chunks| && 0 <= c < |chunks[k]| :: chunks[k][c]
    ensures forall c :: 0 <= c < |names| ==> CanFinish(Serial(num, Flatten(Slice(cells, c))))
    ensures order.None? ==> r == Some(Image(SerialBatch(num, names, cells)))
    ensures order.Some? ==> r.Some? == KeySortable(num, names, cells, order.value)
    ensures order.Some? && r.Some? ==> SortedBytes(num, names, cells, order.value, r.value, idx, states)
  {
    ReadyFinishes(num, cells, |names|, order.Some?);
    match order
    case None =>
      var bytes := MergeAndEncode(chunks, names, num, cells);
      r, idx, states := Some(bytes), [], [];
    case Some(o) =>
      r, idx, states := MergeAndSort(chunks, names, o, num, cells);
  }

  // ---- the chunks of a split table ----

  /** The cells of column `c`. */
  function RowCells(rows: seq<RowidRanges.Row>, c: nat): (cells: seq<Cell>)
    requires forall r :: 0 <= r < |rows| ==> c < |rows[r].cells|
    ensures |cells| == |rows|
  {
    seq(|rows|, r requires 0 <= r < |rows| => rows[r].cells[c])
  }

  predicate Wide(rows: seq<RowidRanges.Row>, ncols: nat) {
    forall r :: 0 <= r < |rows| ==> |rows[r].cells| == ncols
  }

  lemma {:induction false} ChunkCells(chunks: seq<seq<RowidRanges.Row>>, parts: seq<seq<Cell>>, ncols: nat, c: nat)
    requires c < ncols && |parts| == |chunks|
    requires forall k :: 0 <= k < |chunks| ==> Wide(chunks[k], ncols) && parts[k] == RowCells(chunks[k], c)
    ensures Wide(Flatten(chunks), ncols) && Flatten(parts) == RowCells(Flatten(chunks), c)
  {
    if chunks != [] {
      ChunkCells(chunks[1..], parts[1..], ncols, c);
      assert RowCells(chunks[0] + Flatten(chunks[1..]), c) == RowCells(chunks[0], c) + RowCells(Flatten(chunks[1..]), c);
    }
  }

  lemma {:induction false} BetweenWide(rows: seq<RowidRanges.Row>, lo: int, hi: int, ncols: nat)
    requires Wide(rows, ncols)
    ensures Wide(RowidRanges.Between(rows, lo, hi), ncols)
  {
    if rows != [] {
      BetweenWide(rows[..|rows| - 1], lo, hi, ncols);
    }
  }

  /** Column `c` of the rows each worker reads. */
  function RangeParts(rows: seq<RowidRanges.Row>, min: I64, max: I64, n: nat, ncols: nat, c: nat): (parts: seq<seq<Cell>>)
    requires n > 0 && Wide(rows, ncols) && c < ncols
    ensures |parts| == n
  {
    seq(n, k requires 0 <= k < n =>
      BetweenWide(rows, RowidRanges.Lo(min, max, n, k), RowidRanges.Hi(min, max, n, k), ncols);
      RowCells(RowidRanges.Ranges(rows, min, max, n)[k], c))
  }

  /** Rowid ranges that do not read twice cut every column of the table into chunks of itself. */
  lemma RangesCutColumns(rows: seq<RowidRanges.Row>, min: I64, max: I64, n: nat, ncols: nat, c: nat)
    requires 2 <= n <= 12 && max - min >= 0x1_0000 && RowidRanges.Spans(rows, min, max) && !RowidRanges.ReadTwice(min, max, n)
    requires Wide(rows, ncols) && c < ncols
    ensures Flatten(RangeParts(rows, min, max, n, ncols, c)) == RowCells(rows, c)
  {
    RowidRanges.RangesCover(rows, min, max, n);
    forall k | 0 <= k < n ensures Wide(RowidRanges.Ranges(rows, min, max, n)[k], ncols) {
      BetweenWide(rows, RowidRanges.Lo(min, max, n, k), RowidRanges.Hi(min, max, n, k), ncols);
    }
    ChunkCells(RowidRanges.Ranges(rows, min, max, n), RangeParts(rows, min, max, n, ncols, c), ncols, c);
  }
}
