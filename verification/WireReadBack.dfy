/** From cells to wire bytes and back: what a reader of the decoded batch sees. */
module WireReadBack {
  import opened Bytes
  import opened Bitmaps
  import opened Columns
  import opened ScanCells
  import opened Pcb
  import MergeAgreement
  import PcbDecode
  import Utf8Text

  // ---- batches below 2^32 bytes ----

  lemma EntryInside(b: Batch, i: nat)
    requires i < |b.columns| && |Image(b)| < TWO_TO_32
    ensures PcbDecode.EntryFits(PcbDecode.EntriesOf(b)[i])
    ensures NamesOff(i) + COLDIR_LEN <= |Image(b)|
    ensures b.columns[i].data.Utf8Data? ==> |b.columns[i].data.chars| < TWO_TO_32
  {
    var p := PcbDecode.ColumnStart(b.columns, i, DataOff(b.columns));
    PcbDecode.ColumnShown(b, i, p);
    PcbDecode.EntryShown(b, i);
    var rs := ColumnRegions(b.columns[i], p);
    assert ShowsRegion(Image(b), rs, 1) && ShowsRegion(Image(b), rs, 3) && ShowsRegion(Image(b), rs, 5);
  }

  lemma SmallFits(b: Batch)
    requires |Image(b)| < TWO_TO_32 && b.numRows < TWO_TO_32
    ensures PcbDecode.Fits(b)
  {
    forall i | 0 <= i < |b.columns| ensures PcbDecode.EntryFits(PcbDecode.EntriesOf(b)[i]) {
      EntryInside(b, i);
    }
    if b.columns != [] {
      EntryInside(b, |b.columns| - 1);
    }
  }

  /** Below 2^32 bytes, decoding gives the batch back if and only if it is well-formed and its rows fit a u32 (a Bool
      column packs eight rows to the byte, so its rows can overflow first). */
  lemma DecodeEncode(b: Batch)
    requires |Image(b)| < TWO_TO_32
    ensures PcbDecode.BatchIn(Image(b)) == PcbDecode.Ok(b) <==> PcbDecode.WellFormed(b) && b.numRows < TWO_TO_32
  {
    if b.numRows < TWO_TO_32 {
      SmallFits(b);
      PcbDecode.RoundTrip(b);
    } else if PcbDecode.BatchIn(Image(b)) == PcbDecode.Ok(b) {
      PcbDecode.DecodedWellFormed(Image(b), b);
    }
  }

  lemma TextInside(b: Batch, i: nat)
    requires i < |b.columns| && |Image(b)| < TWO_TO_32
    ensures b.columns[i].data.Utf8Data? ==> |b.columns[i].data.chars| < TWO_TO_32
  {
    EntryInside(b, i);
  }

  // ---- typed builders ----

  /** The batch of one typed column per name, as `ColumnBuilder` finishes them. */
  function BuiltBatch(names: seq<seq<Byte>>, types: seq<DataType>, cells: seq<seq<Value>>, nrows: nat): Batch
    requires |names| == |types| == |cells|
  {
    var columns := seq(|names|, c requires 0 <= c < |names| => ColumnOf(names[c], types[c], cells[c]));
    Batch(PcbDecode.FieldsOf(columns), nrows, columns)
  }

  lemma BuiltWellFormed(names: seq<seq<Byte>>, types: seq<DataType>, cells: seq<seq<Value>>, nrows: nat)
    requires |names| == |types| == |cells|
    requires forall c :: 0 <= c < |names| ==> Utf8Text.Valid(names[c]) && |cells[c]| == nrows
    ensures PcbDecode.WellFormed(BuiltBatch(names, types, cells, nrows))
  {
    forall c | 0 <= c < |names| ensures PcbDecode.WellFormedColumn(ColumnOf(names[c], types[c], cells[c]), nrows) {
      Columns.NullFlags(cells[c]);
    }
  }

  /** Any mix of typed pushes and NULLs reads back cell by cell after the wire trip. */
  lemma BuiltReadsBack(names: seq<seq<Byte>>, types: seq<DataType>, cells: seq<seq<Value>>, nrows: nat, c: nat, r: nat)
    requires |names| == |types| == |cells| && nrows < TWO_TO_32
    requires forall k :: 0 <= k < |names| ==> Utf8Text.Valid(names[k]) && |cells[k]| == nrows
    requires forall k :: 0 <= k < |names| ==> AllFit(types[k], cells[k])
    requires forall k, i :: 0 <= k < |names| && 0 <= i < nrows && cells[k][i].TextValue? ==> Utf8Text.Valid(cells[k][i].text)
    requires |Image(BuiltBatch(names, types, cells, nrows))| < TWO_TO_32 && c < |names| && r < nrows
    ensures var out := PcbDecode.BatchIn(Image(BuiltBatch(names, types, cells, nrows)));
            && out == PcbDecode.Ok(BuiltBatch(names, types, cells, nrows))
            && Readable(out.value.columns[c])
            && CellAt(out.value.columns[c], r) == cells[c][r]
  {
    var b := BuiltBatch(names, types, cells, nrows);
    BuiltWellFormed(names, types, cells, nrows);
    DecodeEncode(b);
    TextInside(b, c);
    assert b.columns[c] == ColumnOf(names[c], types[c], cells[c]);
    ReadBack(names[c], types[c], cells[c], r);
  }

  // ---- dynamically typed scans ----

  /** The clear-bits bitmap of a scan is the set-bits bitmap a typed builder makes of the same NULL pattern. */
  lemma ScanBitmapIsBuilders(cells: seq<Cell>, values: seq<Value>)
    requires |values| == |cells| && forall r :: 0 <= r < |cells| ==> cells[r].NullCell? == (values[r] == Null)
    ensures (NullRows(cells) != []) == (Null in values)
    ensures NullRows(cells) != [] ==> ValidityOf(ValidFlags(values)) == Some(Pack(RowFlags(|cells|, NullRows(cells))))
  {
    Columns.NullFlags(values);
    ScanCells.NullFlags(cells, NullRows(cells));
    NullRowsHold(cells, NullRows(cells));
    assert RowFlags(|cells|, NullRows(cells)) == ValidFlags(values);
    if NullRows(cells) != [] {
      assert values[NullRows(cells)[0]] == Null;
    }
    if Null in values {
      var r :| 0 <= r < |values| && values[r] == Null;
      assert r in NullRows(cells);
    }
  }

  /** A text as the finished column holds it, and as the reader then answers it. */
  function ShownText(t: seq<Byte>, textValid: bool): Value {
    if !textValid then TextValue(Utf8Text.Lossy(t)) else if Utf8Text.Valid(t) then TextValue(t) else Null
  }

  /** What a reader sees of row `r` of a scanned column. */
  function ScannedValue(num: Conversions, cells: seq<Cell>, r: nat): Value
    requires r < |cells|
  {
    if cells[r].NullCell? then Null
    else match Class(cells)
         case 0 => IntValue(IntOf(cells[r]))
         case 1 => FloatValue(FloatOf(num, cells[r]))
         case _ => ShownText(Rendered(num, cells)[r], TextValidOf(num, cells))
  }

  lemma SerialShows(num: Conversions, name: seq<Byte>, cells: seq<Cell>)
    requires MergeAgreement.Bulk(num, cells) < TWO_TO_32
    ensures var s := Serial(num, cells);
            && CanFinish(s)
            && (HasText(cells) ==>
                  var texts := MergeAgreement.ShownTexts(num, Rendered(num, cells), s.textValid);
                  |Flatten(texts)| < TWO_TO_32 && FinishedData(s.data, s.textValid) == Utf8Data(Offsets(texts), Flatten(texts)))
  {
    if HasText(cells) {
      MergeAgreement.OneChunk(num, cells);
      MergeAgreement.MergedShows(num, [cells]);
      MergeAgreement.MergedFits(num, [cells], TextValidOf(num, cells));
    }
  }

  /** The readers over a scanned column. */
  lemma ScanReads(num: Conversions, name: seq<Byte>, cells: seq<Cell>, r: nat)
    requires MergeAgreement.Bulk(num, cells) < TWO_TO_32 && r < |cells|
    ensures CanFinish(Serial(num, cells))
    ensures Readable(Finished(name, Serial(num, cells)))
    ensures CellAt(Finished(name, Serial(num, cells)), r) == ScannedValue(num, cells, r)
  {
    SerialShows(num, name, cells);
    var col := Finished(name, Serial(num, cells));
    var flags := RowFlags(|cells|, NullRows(cells));
    ScanCells.NullFlags(cells, NullRows(cells));
    PackPacks(flags);
    if HasText(cells) {
      var texts := MergeAgreement.ShownTexts(num, Rendered(num, cells), TextValidOf(num, cells));
      StrSlices(texts);
      assert col.data == Utf8Data(Offsets(texts), Flatten(texts));
      assert forall k :: 0 <= k < |cells| ==> SpanInside(col.data.offsets, |col.data.chars|, k);
      assert RowText(StrOf(texts), r) == texts[r];
      Utf8Text.LossyValid(Rendered(num, cells)[r]);
    }
    assert Readable(col);
    assert IsValid(col, r) == !cells[r].NullCell? by {
      if col.validity.Some? {
        assert BitAt(Pack(flags), r) == flags[r];
      } else {
        assert r !in NullRows(cells);
      }
    }
  }

  // ---- the cells themselves ----

  lemma ShownValid(t: seq<Byte>, textValid: bool)
    requires Utf8Text.Valid(t)
    ensures ShownText(t, textValid) == TextValue(t)
  {
    Utf8Text.LossyChanges(t);
  }

  /** The field of a scanned column: nullable, with a bitmap, exactly when some cell is NULL. */
  lemma ScanField(num: Conversions, name: seq<Byte>, cells: seq<Cell>)
    requires CanFinish(Serial(num, cells))
    ensures var col := Finished(name, Serial(num, cells));
            && col.field.name == name && col.field.dataType == col.data.Type() && col.len == |cells|
            && (col.field.nullable <==> exists k :: 0 <= k < |cells| && cells[k].NullCell?)
            && (col.validity.Some? <==> col.field.nullable)
  {
    NullRowsAre(cells);
    if NullRows(cells) != [] { assert cells[NullRows(cells)[0]].NullCell?; }
  }

  predicate SomeText(cells: seq<Cell>) { exists k :: 0 <= k < |cells| && (cells[k].TextCell? || cells[k].BlobCell?) }

  predicate SomeReal(cells: seq<Cell>) { exists k :: 0 <= k < |cells| && cells[k].RealCell? }

  /** A value of a column with text in it. */
  lemma TextShown(num: Conversions, cells: seq<Cell>, r: nat)
    requires Sane(num) && r < |cells| && HasText(cells) && !cells[r].NullCell?
    requires cells[r].IntCell? ==> !HasReal(cells)
    ensures var v := ShownText(Rendered(num, cells)[r], TextValidOf(num, cells));
            match cells[r]
            case IntCell(i) => v == TextValue(Decimal.IntText(i))
            case RealCell(f) => v == TextValue(num.f64Text(f))
            case TextCell(t) => Utf8Text.Valid(t) ==> v == TextValue(t)
            case BlobCell(b) => v == TextValue(Utf8Text.Lossy(b))
            case NullCell => true
  {
    var shown := Rendered(num, cells)[r];
    match cells[r] {
      case IntCell(i) => NoHop(cells); Utf8Text.AsciiValid(Decimal.IntText(i));
      case RealCell(f) => Utf8Text.AsciiValid(num.f64Text(f));
      case BlobCell(b) => Utf8Text.LossyValid(b);
      case _ =>
    }
    if Utf8Text.Valid(shown) { ShownValid(shown, TextValidOf(num, cells)); }
  }

  /** What comes back for each cell. Without text, an integer among reals comes back as a float, every other number as it
      is; with text, a well-formed text as it is, a blob repaired, a real as its text, an integer as its numeral when no
      real is there. */
  lemma ScanShows(num: Conversions, name: seq<Byte>, cells: seq<Cell>, r: nat)
    requires Sane(num) && MergeAgreement.Bulk(num, cells) < TWO_TO_32 && r < |cells|
    ensures CanFinish(Serial(num, cells)) && Readable(Finished(name, Serial(num, cells)))
    ensures var v := CellAt(Finished(name, Serial(num, cells)), r);
            match cells[r]
            case NullCell => v == Null
            case IntCell(i) =>
              && (!SomeText(cells) && !SomeReal(cells) ==> v == IntValue(i))
              && (!SomeText(cells) && SomeReal(cells) ==> v == FloatValue(num.i64ToF64(i)))
              && (SomeText(cells) && !SomeReal(cells) ==> v == TextValue(Decimal.IntText(i)))
            case RealCell(f) => v == if SomeText(cells) then TextValue(num.f64Text(f)) else FloatValue(f)
            case TextCell(t) => Utf8Text.Valid(t) ==> v == TextValue(t)
            case BlobCell(b) => v == TextValue(Utf8Text.Lossy(b))
  {
    ScanReads(num, name, cells, r);
    HasAre(cells);
    if HasText(cells) && !cells[r].NullCell? && (cells[r].IntCell? ==> !HasReal(cells)) {
      TextShown(num, cells, r);
    }
  }

  lemma HasAre(cells: seq<Cell>)
    ensures HasText(cells) == SomeText(cells) && HasReal(cells) == SomeReal(cells)
  {
    HasIs(cells);
  }

  lemma NoHop(cells: seq<Cell>)
    requires !HasReal(cells)
    ensures !Hops(cells)
  {
    HasIs(cells);
    HasIs(cells[..FirstText(cells)]);
  }
}
