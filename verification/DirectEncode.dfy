/** `encode_chunks_direct`: scan chunks to wire bytes without merging them, and why that is the serial result (client.rs). */
module DirectEncode {
  import opened Bytes
  import opened Columns
  import opened ScanCells
  import opened AdaptiveColumn
  import opened ParallelMerge
  import opened MergeAgreement
  import opened SortKeys
  import opened KeyOrder
  import opened SortPullUp
  import opened Pcb
  import opened PcbParts
  import Utf8Text

  // ---- the gate of one column ----

  /** Null-free, un-promoted, valid text, one storage class. */
  predicate ColumnGate(num: Conversions, parts: seq<seq<Cell>>)
    requires parts != []
  {
    forall k :: 0 <= k < |parts| ==> PartGate(num, parts[k], Class(parts[0]))
  }

  predicate PartGate(num: Conversions, cells: seq<Cell>, kind: nat) {
    NullRows(cells) == [] && !Mixed(cells) && TextValidOf(num, cells) && Class(cells) == kind
  }

  /** Through the gate, the chunks hold one storage class and no NULL. */
  lemma {:induction false} GatedWhole(num: Conversions, parts: seq<seq<Cell>>, kind: nat)
    requires parts != [] && forall k :: 0 <= k < |parts| ==> PartGate(num, parts[k], kind)
    ensures var whole := Flatten(parts);
            NullRows(whole) == [] && !Mixed(whole) && Class(whole) == kind && (kind == 2 ==> !HasInt(whole))
  {
    var rest := Flatten(parts[1..]);
    assert PartGate(num, parts[0], kind);
    if |parts| == 1 {
      assert parts == [parts[0]];
      FlattenOne(parts[0]);
    } else {
      GatedWhole(num, parts[1..], kind);
      Concat(parts[0], rest);
      NullRowsConcat(parts[0], rest);
    }
  }

  /** A gated column merges to the serial build, in every field: both text and numbers are beyond dispute. */
  lemma GatedIsSerial(num: Conversions, parts: seq<seq<Cell>>)
    requires Sane(num) && parts != [] && ColumnGate(num, parts)
    ensures ParallelMerge.Merged(num, parts) == Serial(num, Flatten(parts))
    ensures Serial(num, Flatten(parts)).textValid && NullRows(Flatten(parts)) == []
  {
    var whole := Flatten(parts);
    GatedWhole(num, parts, Class(parts[0]));
    assert ChunksValid(num, parts) by {
      assert forall k :: 0 <= k < |parts| ==> PartGate(num, parts[k], Class(parts[0]));
    }
    if HasText(whole) {
      HasIs(whole);
      MergedDirect(num, parts);
      SerialDirect(num, whole);
      ChunksValidWhole(num, parts);
    } else {
      NumericCutsAgree(num, parts);
    }
  }

  // ---- the parts handed to the encoder ----

  function IntPieces(parts: seq<seq<Cell>>): (r: seq<seq<I64>>)
    ensures |r| == |parts|
  {
    seq(|parts|, k requires 0 <= k < |parts| => Ints(parts[k]))
  }

  function FloatPieces(num: Conversions, parts: seq<seq<Cell>>): (r: seq<seq<F64>>)
    ensures |r| == |parts|
  {
    seq(|parts|, k requires 0 <= k < |parts| => Floats(num, parts[k]))
  }

  function TextPieces(num: Conversions, parts: seq<seq<Cell>>): (r: seq<TextPart>)
    ensures |r| == |parts| && forall k :: 0 <= k < |r| ==> r[k].Valid()
  {
    seq(|parts|, k requires 0 <= k < |parts| =>
      TextPart(Offsets(Rendered(num, parts[k])), Flatten(Rendered(num, parts[k]))))
  }

  predicate AsciiText(num: Conversions, cells: seq<Cell>) {
    HasText(cells) && Utf8Text.IsAscii(Flatten(Rendered(num, cells)))
  }

  function PartsFor(num: Conversions, parts: seq<seq<Cell>>): ColParts
    requires parts != []
  {
    match Class(parts[0])
    case 0 => IntParts(IntPieces(parts))
    case 1 => FloatParts(FloatPieces(num, parts))
    case _ => Utf8Parts(TextPieces(num, parts), forall k :: 0 <= k < |parts| ==> AsciiText(num, parts[k]))
  }

  lemma {:induction false} NumberPieces(num: Conversions, parts: seq<seq<Cell>>)
    ensures Flatten(IntPieces(parts)) == Ints(Flatten(parts))
    ensures Flatten(FloatPieces(num, parts)) == Floats(num, Flatten(parts))
  {
    if parts != [] {
      NumberPieces(num, parts[1..]);
      assert IntPieces(parts)[1..] == IntPieces(parts[1..]);
      assert FloatPieces(num, parts)[1..] == FloatPieces(num, parts[1..]);
      DataConcat(num, parts[0], Flatten(parts[1..]));
    }
  }

  lemma {:induction false} TextPiecesJoin(num: Conversions, parts: seq<seq<Cell>>)
    ensures OffsetsOf(TextPieces(num, parts)) == Offsets(MergedTexts(num, parts))
    ensures CharsOf(TextPieces(num, parts)) == Flatten(MergedTexts(num, parts))
  {
    if parts != [] {
      var n := |parts| - 1;
      TextPiecesJoin(num, parts[..n]);
      assert TextPieces(num, parts)[..n] == TextPieces(num, parts[..n]);
      assert MergedTexts(num, parts) == MergedTexts(num, parts[..n]) + Rendered(num, parts[n]) by {
        NextChunk(num, parts, n);
        assert parts[..n + 1] == parts;
      }
      JoinOne(MergedTexts(num, parts[..n]), Rendered(num, parts[n]));
    }
  }

  lemma JoinOne(before: seq<seq<Byte>>, next: seq<seq<Byte>>)
    ensures Offsets(before + next) == Offsets(before) + Shifted(Offsets(next)[1..], |Flatten(before)|)
    ensures Flatten(before + next) == Flatten(before) + Flatten(next)
  {
    FlattenConcat(before, next);
    OffsetsConcat(before, next);
    ShiftedIsMoved(Offsets(next), |Flatten(before)|);
  }

  lemma ShiftedIsMoved(offsets: seq<nat>, base: nat)
    requires |offsets| >= 1
    ensures Shifted(offsets[1..], base) == MovedOffsets(offsets, U32(base))
  {
  }

  lemma {:induction false} TextPiecesAscii(num: Conversions, parts: seq<seq<Cell>>)
    ensures Utf8Text.IsAscii(CharsOf(TextPieces(num, parts))) ==
            forall k :: 0 <= k < |parts| ==> Utf8Text.IsAscii(Flatten(Rendered(num, parts[k])))
  {
    if parts != [] {
      var n := |parts| - 1;
      TextPiecesAscii(num, parts[..n]);
      assert TextPieces(num, parts)[..n] == TextPieces(num, parts[..n]);
      AsciiConcat(CharsOf(TextPieces(num, parts[..n])), Flatten(Rendered(num, parts[n])));
    }
  }

  lemma AsciiConcat(a: seq<Byte>, b: seq<Byte>)
    ensures Utf8Text.IsAscii(a + b) == (Utf8Text.IsAscii(a) && Utf8Text.IsAscii(b))
  {
    if Utf8Text.IsAscii(a + b) {
      assert forall i :: 0 <= i < |a| ==> (a + b)[i] == a[i];
      assert forall i :: 0 <= i < |b| ==> (a + b)[|a| + i] == b[i];
    }
  }

  /** The parts of a gated column concatenate to the finished serial column. */
  lemma PartsAreSerial(num: Conversions, parts: seq<seq<Cell>>, name: seq<Byte>, nrows: nat)
    requires Sane(num) && parts != [] && ColumnGate(num, parts) && nrows == |Flatten(parts)|
    ensures Serial(num, Flatten(parts)).textValid
    ensures Sized(PartsFor(num, parts), nrows)
    ensures MergedColumn(name, PartsFor(num, parts), nrows) == Finished(name, Serial(num, Flatten(parts)))
  {
    var whole := Flatten(parts);
    GatedIsSerial(num, parts);
    GatedWhole(num, parts, Class(parts[0]));
    NumberPieces(num, parts);
    TextPiecesJoin(num, parts);
    TextPiecesAscii(num, parts);
    if Class(parts[0]) == 2 {
      assert forall k :: 0 <= k < |parts| ==> PartGate(num, parts[k], 2) && HasText(parts[k]);
      HasIs(whole);
      MergedDirect(num, parts);
    }
  }

  // ---- the key order ----

  /** A chunk's keys, read through its buffers. */
  function ChunkKeys(num: Conversions, parts: seq<seq<Cell>>): (ks: seq<seq<Key>>)
    requires forall k :: 0 <= k < |parts| ==> Sliceable(Serial(num, parts[k]).data)
    ensures |ks| == |parts|
  {
    seq(|parts|, k requires 0 <= k < |parts| => KeysOf(Serial(num, parts[k]).data))
  }

  function CellKeys(num: Conversions, cells: seq<Cell>, kind: nat): (ks: seq<Key>)
    ensures |ks| == |cells|
  {
    seq(|cells|, r requires 0 <= r < |cells| =>
      if kind == 0 then IntKey(IntOf(cells[r]))
      else if kind == 1 then FloatKey(FloatOf(num, cells[r]))
      else TextKey(RenderCell(num, cells[r], false)))
  }

  lemma {:induction false} CellKeysConcat(num: Conversions, parts: seq<seq<Cell>>, kind: nat, ks: seq<seq<Key>>)
    requires |ks| == |parts| && forall k :: 0 <= k < |parts| ==> ks[k] == CellKeys(num, parts[k], kind)
    ensures Flatten(ks) == CellKeys(num, Flatten(parts), kind)
  {
    if parts != [] {
      CellKeysConcat(num, parts[1..], kind, ks[1..]);
      assert CellKeys(num, parts[0] + Flatten(parts[1..]), kind)
          == CellKeys(num, parts[0], kind) + CellKeys(num, Flatten(parts[1..]), kind);
    }
  }

  /** Text below 2^32 bytes, so that no offset wraps. */
  /** Below 2^32 bytes of text, the buffers give back the keys of the cells. */
  lemma KeysFromCells(num: Conversions, cells: seq<Cell>)
    requires TextFits(num, cells) && (HasText(cells) ==> !HasInt(cells))
    ensures Sliceable(Serial(num, cells).data)
    ensures KeysOf(Serial(num, cells).data) == CellKeys(num, cells, Class(cells))
  {
    if HasText(cells) {
      HasIs(cells);
      SerialDirect(num, cells);
      StrSlices(Rendered(num, cells));
    }
  }

  lemma PartFits(num: Conversions, parts: seq<seq<Cell>>, k: nat)
    requires k < |parts| && |Flatten(MergedTexts(num, parts))| < TWO_TO_32
    ensures |Flatten(Rendered(num, parts[k]))| < TWO_TO_32
  {
    NextChunk(num, parts, k);
    FlattenConcat(MergedTexts(num, parts[..k]), Rendered(num, parts[k]));
    assert parts == parts[..k + 1] + parts[k + 1..];
    assert Renderings(num, parts) == Renderings(num, parts[..k + 1]) + Renderings(num, parts[k + 1..]);
    FlattenConcat(Renderings(num, parts[..k + 1]), Renderings(num, parts[k + 1..]));
    FlattenConcat(MergedTexts(num, parts[..k + 1]), MergedTexts(num, parts[k + 1..]));
  }

  /** A gated column's keys, chunk by chunk, are the keys of the serial column. */
  lemma GatedKeys(num: Conversions, parts: seq<seq<Cell>>)
    requires Sane(num) && parts != [] && ColumnGate(num, parts)
    requires TextFits(num, Flatten(parts))
    ensures Sliceable(Serial(num, Flatten(parts)).data)
    ensures forall k :: 0 <= k < |parts| ==> Sliceable(Serial(num, parts[k]).data)
    ensures Flatten(ChunkKeys(num, parts)) == KeysOf(Serial(num, Flatten(parts)).data)
  {
    var whole, kind := Flatten(parts), Class(parts[0]);
    GatedWhole(num, parts, kind);
    KeysFromCells(num, whole);
    if HasText(whole) {
      HasIs(whole);
      MergedDirect(num, parts);
      SerialDirect(num, whole);
    }
    forall k | 0 <= k < |parts|
      ensures Sliceable(Serial(num, parts[k]).data) && KeysOf(Serial(num, parts[k]).data) == CellKeys(num, parts[k], kind)
    {
      assert PartGate(num, parts[k], kind);
      if HasText(parts[k]) {
        assert HasText(whole);
        PartFits(num, parts, k);
      }
      KeysFromCells(num, parts[k]);
    }
    CellKeysConcat(num, parts, kind, ChunkKeys(num, parts));
  }

  /** Rows that went out directly are in the asked order if and only if no skipped boundary is out of order. */
  lemma DirectSortedIff(num: Conversions, parts: seq<seq<Cell>>, desc: bool)
    requires Sane(num) && parts != [] && ColumnGate(num, parts)
    requires TextFits(num, Flatten(parts))
    requires forall k :: 0 <= k < |parts| ==> Sliceable(Serial(num, parts[k]).data)
    requires ChunksOrdered(ChunkKeys(num, parts), desc)
    ensures Sliceable(Serial(num, Flatten(parts)).data)
    ensures AllOrdered(KeysOf(Serial(num, Flatten(parts)).data), desc) <==> SkippedOrdered(ChunkKeys(num, parts), desc)
  {
    GatedKeys(num, parts);
    SortedIffGate(ChunkKeys(num, parts), desc);
  }

  /** Only an Int64 key has anything to skip: an empty chunk has class Int64, which the gate refuses beside another. */
  lemma NothingSkipped(num: Conversions, parts: seq<seq<Cell>>, desc: bool)
    requires parts != [] && ColumnGate(num, parts) && Class(parts[0]) > 0
    requires forall k :: 0 <= k < |parts| ==> Sliceable(Serial(num, parts[k]).data)
    ensures SkippedOrdered(ChunkKeys(num, parts), desc)
  {
    var ks := ChunkKeys(num, parts);
    forall k | 0 <= k < |parts| ensures ks[k] != [] {
      assert PartGate(num, parts[k], Class(parts[0]));
      assert parts[k] != [];
    }
    forall i: nat, j: nat | i < |ks| && j < |ks| ensures !EmptyRun(ks, i, j) {
      if i + 1 < j {
        assert ks[i + 1] != [];
      }
    }
  }

  /** The boundary an empty chunk hides: two integers out of order go straight to the wire. */
  lemma GatedOutOfOrder(num: Conversions, a: I64, b: I64, desc: bool)
    requires Sane(num) && if desc then a < b else b < a
    ensures var parts := [[IntCell(a)], [], [IntCell(b)]];
            && ColumnGate(num, parts) && (forall k :: 0 <= k < |parts| ==> Sliceable(Serial(num, parts[k]).data))
            && ChunksOrdered(ChunkKeys(num, parts), desc)
            && Sliceable(Serial(num, Flatten(parts)).data)
            && !AllOrdered(KeysOf(Serial(num, Flatten(parts)).data), desc)
  {
    var parts: seq<seq<Cell>> := [[IntCell(a)], [], [IntCell(b)]];
    OneInteger(num, a);
    OneInteger(num, b);
    NoCells(num);
    var ks := ChunkKeys(num, parts);
    assert ks == [[IntKey(a)], [], [IntKey(b)]];
    GatedWhole(num, parts, 0);
    assert !HasText(Flatten(parts));
    GateMisses(IntKey(a), IntKey(b), desc);
    DirectSortedIff(num, parts, desc);
    SortedIffGate(ks, desc);
  }

  lemma OneInteger(num: Conversions, i: I64)
    ensures PartGate(num, [IntCell(i)], 0) && Serial(num, [IntCell(i)]).data == IntBuf([i])
    ensures KeysOf(IntBuf([i])) == [IntKey(i)]
  {
    HasIs([IntCell(i)]);
    NullRowsAre([IntCell(i)]);
  }

  lemma NoCells(num: Conversions)
    ensures PartGate(num, [], 0) && Serial(num, []).data == IntBuf([]) && KeysOf(IntBuf([])) == []
  {
  }

  // ---- the gate, read off the cells ----

  predicate AllInts(cells: seq<Cell>) { forall k :: 0 <= k < |cells| ==> cells[k].IntCell? }

  predicate AllReals(cells: seq<Cell>) { cells != [] && forall k :: 0 <= k < |cells| ==> cells[k].RealCell? }

  predicate AllTexts(num: Conversions, cells: seq<Cell>) {
    cells != [] && (forall k :: 0 <= k < |cells| ==> cells[k].IsText()) && Utf8Text.Valid(Flatten(Rendered(num, cells)))
  }

  lemma PartGateMeans(num: Conversions, cells: seq<Cell>, kind: nat)
    ensures PartGate(num, cells, kind) <==>
            (kind == 0 && AllInts(cells)) || (kind == 1 && AllReals(cells)) || (kind == 2 && AllTexts(num, cells))
  {
    HasIs(cells);
    NoNull(cells);
  }

  /** A column passes when every chunk holds only integers, or every chunk is not empty and holds only reals, or only texts
      and blobs that are well-formed together. */
  lemma ColumnGateMeans(num: Conversions, parts: seq<seq<Cell>>)
    requires parts != []
    ensures ColumnGate(num, parts) <==>
            || (forall k :: 0 <= k < |parts| ==> AllInts(parts[k]))
            || (forall k :: 0 <= k < |parts| ==> AllReals(parts[k]))
            || (forall k :: 0 <= k < |parts| ==> AllTexts(num, parts[k]))
  {
    forall k | 0 <= k < |parts|
      ensures PartGate(num, parts[k], 0) <==> AllInts(parts[k])
      ensures PartGate(num, parts[k], 1) <==> AllReals(parts[k])
      ensures PartGate(num, parts[k], 2) <==> AllTexts(num, parts[k])
    {
      PartGateMeans(num, parts[k], 0);
      PartGateMeans(num, parts[k], 1);
      PartGateMeans(num, parts[k], 2);
    }
  }
}
