/** The direct-encode route over live chunk columns (client.rs). */
module DirectScan {
  import opened Bytes
  import opened Columns
  import opened ScanCells
  import opened AdaptiveColumn
  import opened ParallelMerge
  import opened SortKeys
  import opened SortPullUp
  import opened DirectEncode
  import opened Pcb
  import opened PcbParts
  import PcbDecode

  datatype SortOrder = SortOrder(key: seq<Byte>, desc: bool)

  /** Column `c` of every chunk. */
  function Slice<T>(chunks: seq<seq<T>>, c: nat): (col: seq<T>)
    requires forall k :: 0 <= k < |chunks| ==> c < |chunks[k]|
    ensures |col| == |chunks| && forall k :: 0 <= k < |chunks| ==> col[k] == chunks[k][c]
  {
    seq(|chunks|, k requires 0 <= k < |chunks| => chunks[k][c])
  }

  /** Every chunk holds `ncols` columns of the same number of rows. */
  ghost predicate Rectangular(cells: seq<seq<seq<Cell>>>, ncols: nat) {
    forall k :: 0 <= k < |cells| ==>
      |cells[k]| == ncols && forall c :: 0 <= c < ncols ==> |cells[k][c]| == |cells[k][0]|
  }

  function RowCount(cells: seq<seq<seq<Cell>>>): nat {
    if cells == [] then 0 else
      var last := cells[|cells| - 1];
      RowCount(cells[..|cells| - 1]) + if last == [] then 0 else |last[0]|
  }

  lemma {:induction false} WholeRows(cells: seq<seq<seq<Cell>>>, ncols: nat, c: nat)
    requires Rectangular(cells, ncols) && c < ncols
    ensures |Flatten(Slice(cells, c))| == RowCount(cells)
  {
    if cells != [] {
      var init, last := cells[..|cells| - 1], cells[|cells| - 1];
      WholeRows(init, ncols, c);
      assert Slice(cells, c) == Slice(init, c) + [last[c]];
      FlattenSnoc(Slice(init, c), last[c]);
      assert |last[c]| == |last[0]|;
    }
  }

  // ---- the gates, as a property of the cells ----

  ghost predicate Gates(num: Conversions, cells: seq<seq<seq<Cell>>>, names: seq<seq<Byte>>, order: Option<SortOrder>)
    requires cells != [] && Rectangular(cells, |names|)
    requires order.Some? ==> AllSliceable(num, cells, |names|)
  {
    && (forall c :: 0 <= c < |names| ==> ColumnGate(num, Slice(cells, c)))
    && (order.Some? ==> OrderGate(num, cells, names, order.value))
  }

  /** Offsets that have not wrapped, so keys can be sliced out. */
  ghost predicate AllSliceable(num: Conversions, cells: seq<seq<seq<Cell>>>, ncols: nat)
    requires Rectangular(cells, ncols)
  {
    forall k, c :: 0 <= k < |cells| && 0 <= c < ncols ==> Sliceable(Serial(num, cells[k][c]).data)
  }

  ghost predicate OrderGate(num: Conversions, cells: seq<seq<seq<Cell>>>, names: seq<seq<Byte>>, order: SortOrder)
    requires Rectangular(cells, |names|) && AllSliceable(num, cells, |names|)
  {
    var key := KeyIndex(names, order.key);
    && key < |names|
    && (forall k :: 0 <= k < |cells| ==> !HasBlob(cells[k][key]))
    && ChunksOrdered(ChunkKeys(num, Slice(cells, key)), order.desc)
  }

  /** The batch a serial scan of the same cells finishes to. */
  ghost function SerialBatch(num: Conversions, names: seq<seq<Byte>>, cells: seq<seq<seq<Cell>>>): Batch
    requires forall k :: 0 <= k < |cells| ==> |cells[k]| == |names|
    requires forall c :: 0 <= c < |names| ==> CanFinish(Serial(num, Flatten(Slice(cells, c))))
  {
    var columns := seq(|names|, c requires 0 <= c < |names| => Finished(names[c], Serial(num, Flatten(Slice(cells, c)))));
    Batch(PcbDecode.FieldsOf(columns), RowCount(cells), columns)
  }

  // ---- the loops ----

  method ColumnPasses(col: seq<AdaptiveCol>, ghost num: Conversions, ghost parts: seq<seq<Cell>>) returns (ok: bool)
    requires parts != [] && AllScanned(col, num, parts)
    ensures ok == ColumnGate(num, parts)
  {
    var firstClass := BufClass(col[0].data);
    ScannedIs(col[0], num, parts[0]);
    for k := 0 to |col|
      invariant forall j :: 0 <= j < k ==> PartGate(num, parts[j], firstClass)
    {
      ScannedIs(col[k], num, parts[k]);
      if col[k].nulls != [] || col[k].promoted || !col[k].textValid || BufClass(col[k].data) != firstClass {
        assert !PartGate(num, parts[k], firstClass);
        return false;
      }
    }
    return true;
  }

  /** `boundary_ordered` */
  predicate LastFirstOrdered(prev: AdaptiveData, next: AdaptiveData, desc: bool)
    requires Sliceable(prev) && Sliceable(next) && RowsOf(prev) > 0 && RowsOf(next) > 0
  {
    var last, first := KeyAt(prev, RowsOf(prev) - 1), KeyAt(next, 0);
    if desc then KeyLeq(first, last) else KeyLeq(last, first)
  }

  lemma ScannedKeys(col: AdaptiveCol, num: Conversions, cells: seq<Cell>)
    requires col.Scanned(num, cells) && Sliceable(Serial(num, cells).data)
    ensures Sliceable(col.data) && KeysOf(col.data) == KeysOf(Serial(num, cells).data) && RowsOf(col.data) == col.len
    ensures col.sawBlob == HasBlob(cells)
  {
  }

  /** The keys of a column's chunks, as its buffers show them. */
  ghost predicate ShowsKeys(col: seq<AdaptiveCol>, ks: seq<seq<Key>>)
    reads col
  {
    |col| == |ks| && forall k :: 0 <= k < |col| ==> ChunkShows(col[k], ks[k])
  }

  ghost predicate ChunkShows(col: AdaptiveCol, keys: seq<Key>)
    reads col
  {
    Sliceable(col.data) && KeysOf(col.data) == keys && |keys| == col.len
  }

  method ChunksSorted(col: seq<AdaptiveCol>, desc: bool, ghost ks: seq<seq<Key>>) returns (ok: bool)
    requires ShowsKeys(col, ks)
    ensures ok == forall k :: 0 <= k < |ks| ==> AdjacentOrdered(ks[k], desc)
  {
    for k := 0 to |col|
      invariant forall j :: 0 <= j < k ==> AdjacentOrdered(ks[j], desc)
    {
      assert ChunkShows(col[k], ks[k]);
      var sorted := IsSorted(col[k].data, desc);
      if !sorted {
        return false;
      }
    }
    return true;
  }

  method BoundariesOrdered(col: seq<AdaptiveCol>, desc: bool, ghost ks: seq<seq<Key>>) returns (ok: bool)
    requires ShowsKeys(col, ks)
    ensures ok == forall k :: 0 <= k < |ks| - 1 ==> BoundaryOrdered(ks[k], ks[k + 1], desc)
  {
    var w := 0;
    while w + 1 < |col|
      invariant w <= |col|
      invariant forall j :: 0 <= j < w && j + 1 < |ks| ==> BoundaryOrdered(ks[j], ks[j + 1], desc)
    {
      assert ChunkShows(col[w], ks[w]) && ChunkShows(col[w + 1], ks[w + 1]);
      if col[w].len != 0 && col[w + 1].len != 0 {
        var ordered := LastFirstOrdered(col[w].data, col[w + 1].data, desc);
        assert ordered == BoundaryOrdered(ks[w], ks[w + 1], desc);
        if !ordered {
          return false;
        }
      }
      w := w + 1;
    }
    return true;
  }

  method OrderPasses(col: seq<AdaptiveCol>, desc: bool, ghost num: Conversions, ghost parts: seq<seq<Cell>>)
    returns (ok: bool)
    requires AllScanned(col, num, parts) && forall k :: 0 <= k < |parts| ==> Sliceable(Serial(num, parts[k]).data)
    ensures ok == ((forall k :: 0 <= k < |parts| ==> !HasBlob(parts[k])) && ChunksOrdered(ChunkKeys(num, parts), desc))
  {
    ghost var ks := ChunkKeys(num, parts);
    forall k | 0 <= k < |col| ensures ChunkShows(col[k], ks[k]) && col[k].sawBlob == HasBlob(parts[k]) {
      ScannedKeys(col[k], num, parts[k]);
    }
    if exists k :: 0 <= k < |col| && col[k].sawBlob {
      return false;
    }
    ok := ChunksSorted(col, desc, ks);
    if ok {
      ok := BoundariesOrdered(col, desc, ks);
    }
  }

  /** The chunk buffers at one storage class are the encoder's parts. */
  function Pieces(bufs: seq<AdaptiveData>, ascii: bool): ColParts
    requires bufs != [] && forall k :: 0 <= k < |bufs| ==> BufClass(bufs[k]) == BufClass(bufs[0])
  {
    match bufs[0]
    case IntBuf(_) => IntParts(seq(|bufs|, k requires 0 <= k < |bufs| =>
                                 assert BufClass(bufs[k]) == BufClass(bufs[0]); bufs[k].ints))
    case FloatBuf(_) => FloatParts(seq(|bufs|, k requires 0 <= k < |bufs| =>
                                     assert BufClass(bufs[k]) == BufClass(bufs[0]); bufs[k].floats))
    case StrBuf(_, _) => Utf8Parts(seq(|bufs|, k requires 0 <= k < |bufs| =>
                                     assert BufClass(bufs[k]) == BufClass(bufs[0]);
                                     TextPart(bufs[k].offsets, bufs[k].chars)), ascii)
  }

  lemma PiecesAre(num: Conversions, parts: seq<seq<Cell>>, bufs: seq<AdaptiveData>, ascii: bool)
    requires parts != [] && |bufs| == |parts|
    requires forall k :: 0 <= k < |parts| ==> bufs[k] == DataAs(num, parts[k], Class(parts[0]))
    requires ascii == forall k :: 0 <= k < |parts| ==> AsciiText(num, parts[k])
    ensures forall k :: 0 <= k < |bufs| ==> BufClass(bufs[k]) == BufClass(bufs[0])
    ensures Pieces(bufs, ascii) == PartsFor(num, parts)
  {
    match Class(parts[0])
    case 0 => assert Pieces(bufs, ascii).ints == IntPieces(parts);
    case 1 => assert Pieces(bufs, ascii).floats == FloatPieces(num, parts);
    case _ => assert Pieces(bufs, ascii).texts == TextPieces(num, parts);
  }

  /** A gated column as the encoder's parts. */
  method BuildParts(col: seq<AdaptiveCol>, ghost num: Conversions, ghost parts: seq<seq<Cell>>) returns (p: ColParts)
    requires parts != [] && AllScanned(col, num, parts) && ColumnGate(num, parts)
    ensures p == PartsFor(num, parts)
  {
    forall k | 0 <= k < |col|
      ensures col[k].data == DataAs(num, parts[k], Class(parts[0])) && col[k].ascii == AsciiText(num, parts[k])
    {
      ScannedIs(col[k], num, parts[k]);
      assert PartGate(num, parts[k], Class(parts[0]));
    }
    var bufs := seq(|col|, k requires 0 <= k < |col| reads col => col[k].data);
    var ascii := forall k :: 0 <= k < |col| ==> col[k].ascii;
    PiecesAre(num, parts, bufs, ascii);
    p := Pieces(bufs, ascii);
  }

  ghost predicate ScannedTable(chunks: seq<seq<AdaptiveCol>>, num: Conversions, cells: seq<seq<seq<Cell>>>, ncols: nat)
    reads set k, c | 0 <= k < |chunks| && 0 <= c < |chunks[k]| :: chunks[k][c]
  {
    && |chunks| == |cells| > 0 && Rectangular(cells, ncols)
    && (forall k :: 0 <= k < |chunks| ==> |chunks[k]| == ncols)
    && forall k, c :: 0 <= k < |chunks| && 0 <= c < ncols ==> chunks[k][c].Scanned(num, cells[k][c])
  }

  lemma ScannedSlice(chunks: seq<seq<AdaptiveCol>>, num: Conversions, cells: seq<seq<seq<Cell>>>, ncols: nat, c: nat)
    requires ScannedTable(chunks, num, cells, ncols) && c < ncols
    ensures AllScanned(Slice(chunks, c), num, Slice(cells, c))
  {
  }

  method AllColumnsPass(chunks: seq<seq<AdaptiveCol>>, ncols: nat, ghost num: Conversions, ghost cells: seq<seq<seq<Cell>>>)
    returns (ok: bool)
    requires ScannedTable(chunks, num, cells, ncols)
    ensures ok == forall c :: 0 <= c < ncols ==> ColumnGate(num, Slice(cells, c))
  {
    for c := 0 to ncols
      invariant forall j :: 0 <= j < c ==> ColumnGate(num, Slice(cells, j))
    {
      ScannedSlice(chunks, num, cells, ncols, c);
      ok := ColumnPasses(Slice(chunks, c), num, Slice(cells, c));
      if !ok {
        return;
      }
    }
    return true;
  }

  method AskedOrderPasses(chunks: seq<seq<AdaptiveCol>>, names: seq<seq<Byte>>, order: SortOrder,
                          ghost num: Conversions, ghost cells: seq<seq<seq<Cell>>>)
    returns (ok: bool)
    requires ScannedTable(chunks, num, cells, |names|) && AllSliceable(num, cells, |names|)
    ensures ok == OrderGate(num, cells, names, order)
  {
    var key := KeyIndex(names, order.key);
    if key == |names| {
      return false;
    }
    ScannedSlice(chunks, num, cells, |names|, key);
    ok := OrderPasses(Slice(chunks, key), order.desc, num, Slice(cells, key));
  }

  method BuildAllParts(chunks: seq<seq<AdaptiveCol>>, ncols: nat, ghost num: Conversions, ghost cells: seq<seq<seq<Cell>>>)
    returns (cols: seq<ColParts>)
    requires ScannedTable(chunks, num, cells, ncols) && forall c :: 0 <= c < ncols ==> ColumnGate(num, Slice(cells, c))
    ensures |cols| == ncols && forall c :: 0 <= c < ncols ==> cols[c] == PartsFor(num, Slice(cells, c))
  {
    cols := [];
    for c := 0 to ncols
      invariant |cols| == c && forall j :: 0 <= j < c ==> cols[j] == PartsFor(num, Slice(cells, j))
    {
      ScannedSlice(chunks, num, cells, ncols, c);
      var p := BuildParts(Slice(chunks, c), num, Slice(cells, c));
      cols := cols + [p];
    }
  }

  /** `encode_chunks_direct`: answers exactly when its gates pass, and then with the encoding of the serial scan. */
  method EncodeChunksDirect(chunks: seq<seq<AdaptiveCol>>, names: seq<seq<Byte>>, order: Option<SortOrder>, tasks: seq<nat>,
                            ghost num: Conversions, ghost cells: seq<seq<seq<Cell>>>)
    returns (r: Option<seq<Byte>>)
    requires Sane(num) && ScannedTable(chunks, num, cells, |names|)
    requires order.Some? ==> AllSliceable(num, cells, |names|)
    requires (forall i: nat :: i < |names| ==> i in tasks) && forall t :: 0 <= t < |tasks| ==> tasks[t] < |names|
    ensures r.Some? == Gates(num, cells, names, order)
    ensures r.Some? ==>
              && (forall c :: 0 <= c < |names| ==> Serial(num, Flatten(Slice(cells, c))).textValid)
              && r.value == Image(SerialBatch(num, names, cells))
  {
    var nrows := CountRows(chunks, num, cells, |names|);
    var ok := AllColumnsPass(chunks, |names|, num, cells);
    if ok && order.Some? {
      ok := AskedOrderPasses(chunks, names, order.value, num, cells);
    }
    if !ok {
      return None;
    }
    var cols := BuildAllParts(chunks, |names|, num, cells);
    DirectIsSerial(num, names, cells, cols, nrows);
    var out := EncodeParts(names, cols, nrows, tasks);
    return Some(out[..]);
  }

  method CountRows(chunks: seq<seq<AdaptiveCol>>, ghost num: Conversions, ghost cells: seq<seq<seq<Cell>>>, ncols: nat)
    returns (nrows: nat)
    requires ScannedTable(chunks, num, cells, ncols)
    ensures nrows == RowCount(cells)
  {
    nrows := 0;
    for k := 0 to |chunks|
      invariant nrows == RowCount(cells[..k])
    {
      assert cells[..k + 1][..k] == cells[..k];
      if chunks[k] != [] {
        assert chunks[k][0].Scanned(num, cells[k][0]);
        nrows := nrows + chunks[k][0].len;
      }
    }
    assert cells[..|cells|] == cells;
  }

  lemma DirectIsSerial(num: Conversions, names: seq<seq<Byte>>, cells: seq<seq<seq<Cell>>>, cols: seq<ColParts>, nrows: nat)
    requires Sane(num) && cells != [] && Rectangular(cells, |names|) && nrows == RowCount(cells)
    requires forall c :: 0 <= c < |names| ==> ColumnGate(num, Slice(cells, c))
    requires |cols| == |names| && forall c :: 0 <= c < |names| ==> cols[c] == PartsFor(num, Slice(cells, c))
    ensures forall c :: 0 <= c < |names| ==> Serial(num, Flatten(Slice(cells, c))).textValid && Sized(cols[c], nrows)
    ensures MergedBatch(names, cols, nrows) == SerialBatch(num, names, cells)
  {
    forall c | 0 <= c < |names|
      ensures Serial(num, Flatten(Slice(cells, c))).textValid && Sized(cols[c], nrows)
      ensures MergedColumn(names[c], cols[c], nrows) == Finished(names[c], Serial(num, Flatten(Slice(cells, c))))
    {
      WholeRows(cells, |names|, c);
      PartsAreSerial(num, Slice(cells, c), names[c], nrows);
    }
    assert MergedColumns(names, cols, nrows) == SerialBatch(num, names, cells).columns;
  }
}
