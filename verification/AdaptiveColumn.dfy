/** `AdaptiveCol`: one column built in a single pass over dynamically typed cells (client.rs). */
module AdaptiveColumn {
  import opened Bytes
  import opened Bitmaps
  import opened Columns
  import opened ScanCells
  import Decimal
  import Utf8Text

  /** `stringify`: a null pointer runs along the ascending null list. */
  method Stringify(values: seq<seq<Byte>>, nulls: seq<nat>) returns (offsets: seq<nat>, chars: seq<Byte>)
    requires forall i, j :: 0 <= i < j < |nulls| ==> nulls[i] < nulls[j]
    ensures offsets == Offsets(Blanked(values, nulls)) && chars == Flatten(Blanked(values, nulls))
  {
    ghost var texts := Blanked(values, nulls);
    offsets, chars := [0], [];
    var nextNull := 0;
    assert texts[..0] == [];
    assert Offsets(texts[..0]) == [0];
    for i := 0 to |values|
      invariant nextNull <= |nulls|
      invariant forall j :: 0 <= j < nextNull ==> nulls[j] < i
      invariant forall j :: nextNull <= j < |nulls| ==> nulls[j] >= i
      invariant offsets == Offsets(texts[..i]) && chars == Flatten(texts[..i])
    {
      assert texts[..i + 1] == texts[..i] + [texts[i]];
      StrSnoc(texts[..i], texts[i]);
      if nextNull < |nulls| && nulls[nextNull] == i {
        nextNull := nextNull + 1;
        assert texts[i] == [];
      } else {
        assert i !in nulls;
        chars := chars + values[i];
      }
      offsets := offsets + [U32(|chars|)];
    }
    assert texts[..|values|] == texts;
  }

  method LossyText(b: seq<Byte>) returns (t: seq<Byte>)
    ensures t == Utf8Text.Lossy(b)
  {
    if Utf8Text.Valid(b) {
      Utf8Text.LossyOfValid(b);
      t := b;
    } else {
      t := Utf8Text.Lossy(b);
    }
  }

  /** The numbers of a column rendered as text. */
  method RenderBuffer(num: Conversions, data: AdaptiveData, nulls: seq<nat>, ghost cells: seq<Cell>)
    returns (rendered: AdaptiveData)
    requires !HasText(cells) && data == DataAs(num, cells, Class(cells)) && nulls == NullRows(cells)
    ensures rendered == DataAs(num, cells, 2)
  {
    NullRowsHold(cells, nulls);
    PromotedTexts(num, cells);
    var offsets, chars;
    match data {
      case IntBuf(v) => offsets, chars := Stringify(IntTexts(v), nulls);
      case FloatBuf(v) => offsets, chars := Stringify(FloatTexts(num, v), nulls);
    }
    rendered := StrBuf(offsets, chars);
  }

  class AdaptiveCol {
    var data: AdaptiveData
    var len: nat
    var nulls: seq<nat>
    var promoted: bool
    var sawBlob: bool
    var textValid: bool
    var ascii: bool
    const num: Conversions
    /** The cells pushed so far, and the storage class they are held at. */
    ghost var cells: seq<Cell>
    ghost var kind: nat

    function View(): State
      reads this
    {
      State(data, len, nulls, promoted, sawBlob, textValid)
    }

    /** The column holds `cells` at storage class `kind`, their own or (before a merge) a higher one. */
    ghost predicate Holds()
      reads this
    {
      && Sane(num)
      && Class(cells) <= kind <= 2
      && data == DataAs(num, cells, kind)
      && len == |cells|
      && nulls == NullRows(cells)
      && promoted == (Mixed(cells) || (kind > Class(cells) && |nulls| < len))
      && sawBlob == HasBlob(cells)
    }

    /** While rows stream in, the column is at its own class. */
    ghost predicate Scanning()
      reads this
    {
      Holds() && kind == Class(cells)
    }

    /** A finished scan of `cells`. */
    ghost predicate Scanned(num: Conversions, cells: seq<Cell>)
      reads this
    {
      && Scanning() && this.num == num && this.cells == cells
      && View() == Serial(num, cells)
      && ascii == (HasText(cells) && Utf8Text.IsAscii(Flatten(Rendered(num, cells))))
    }

    constructor (num: Conversions)
      requires Sane(num)
      ensures Scanning() && cells == [] && this.num == num
      ensures textValid && !ascii
    {
      data, len, nulls, promoted, sawBlob, textValid, ascii := IntBuf([]), 0, [], false, false, true, false;
      this.num := num;
      cells, kind := [], 0;
    }

    method PushNull()
      requires Scanning()
      modifies this
      ensures Scanning() && cells == old(cells) + [NullCell]
      ensures textValid == old(textValid) && ascii == old(ascii)
    {
      PushedCell(num, cells, NullCell);
      match data {
        case IntBuf(v) => data := IntBuf(v + [0]);
        case FloatBuf(v) => data := FloatBuf(v + [0]);
        case StrBuf(offsets, chars) =>
          assert chars + [] == chars;
          data := StrBuf(offsets + [U32(|chars|)], chars);
      }
      assert data == Appended(num, old(data), NullCell);
      nulls := nulls + [len];
      len := len + 1;
      cells := cells + [NullCell];
    }

    method PushInt(i: I64)
      requires Scanning()
      modifies this
      ensures Scanning() && cells == old(cells) + [IntCell(i)]
      ensures textValid == old(textValid) && ascii == old(ascii)
    {
      PushedCell(num, cells, IntCell(i));
      match data {
        case IntBuf(v) => data := IntBuf(v + [i]);
        case FloatBuf(v) =>
          promoted := true;
          data := FloatBuf(v + [num.i64ToF64(i)]);
        case StrBuf(offsets, chars) =>
          promoted := true;
          var grown := chars + Decimal.IntText(i);
          data := StrBuf(offsets + [U32(|grown|)], grown);
      }
      len := len + 1;
      cells := cells + [IntCell(i)];
    }

    method PushReal(f: F64)
      requires Scanning()
      modifies this
      ensures Scanning() && cells == old(cells) + [RealCell(f)]
      ensures textValid == old(textValid) && ascii == old(ascii)
    {
      PushedCell(num, cells, RealCell(f));
      if data.IntBuf? {
        PromoteToFloat();
      }
      match data {
        case FloatBuf(v) => data := FloatBuf(v + [f]);
        case StrBuf(offsets, chars) =>
          promoted := true;
          var grown := chars + num.f64Text(f);
          data := StrBuf(offsets + [U32(|grown|)], grown);
      }
      assert data == Appended(num, DataAs(num, cells, kind), RealCell(f));
      len := len + 1;
      cells := cells + [RealCell(f)];
      kind := Class(cells);
    }

    method PushText(t: seq<Byte>)
      requires Scanning()
      modifies this
      ensures Scanning() && cells == old(cells) + [TextCell(t)]
      ensures textValid == old(textValid) && ascii == old(ascii)
    {
      PushedCell(num, cells, TextCell(t));
      PromoteToStr();
      AppendText(t, TextCell(t));
    }

    method PushBlob(b: seq<Byte>)
      requires Scanning()
      modifies this
      ensures Scanning() && cells == old(cells) + [BlobCell(b)]
      ensures textValid == old(textValid) && ascii == old(ascii)
    {
      PushedCell(num, cells, BlobCell(b));
      PromoteToStr();
      sawBlob := true;
      var t := LossyText(b);
      AppendText(t, BlobCell(b));
    }

    method AppendText(t: seq<Byte>, ghost c: Cell)
      requires data == DataAs(num, cells, 2) && c.IsText() && t == RenderCell(num, c, false)
      modifies `data, `len, `cells
      ensures data == DataAs(num, cells, 2) && len == old(len) + 1 && cells == old(cells) + [c]
    {
      RenderedSnoc(num, cells, c);
      StrSnoc(Rendered(num, cells), t);
      var grown := data.chars + t;
      data := StrBuf(data.offsets + [U32(|grown|)], grown);
      len := len + 1;
      cells := cells + [c];
    }

    /** The cell dispatch of the row loop. */
    method Push(c: Cell)
      requires Scanning()
      modifies this
      ensures Scanning() && cells == old(cells) + [c]
      ensures textValid == old(textValid) && ascii == old(ascii)
    {
      match c
      case NullCell => PushNull();
      case IntCell(i) => PushInt(i);
      case RealCell(f) => PushReal(f);
      case TextCell(t) => PushText(t);
      case BlobCell(b) => PushBlob(b);
    }

    method PromoteToFloat()
      requires Holds()
      modifies this
      ensures Holds() && cells == old(cells) && kind == if old(kind) == 0 then 1 else old(kind)
      ensures textValid == old(textValid) && ascii == old(ascii)
    {
      NullRowsAre(cells);
      HasIs(cells);
      match data
      case IntBuf(v) =>
        promoted := promoted || len > |nulls|;
        assert v == Ints(cells);
        data := FloatBuf(seq(|v|, k requires 0 <= k < |v| => num.i64ToF64(v[k])));
        kind := 1;
        assert data == FloatBuf(Floats(num, cells));
      case _ =>
    }

    method PromoteToStr()
      requires Holds() && (kind == Class(cells) || kind == 2)
      modifies this
      ensures Holds() && cells == old(cells) && kind == 2
      ensures textValid == old(textValid) && ascii == old(ascii)
    {
      NullRowsAre(cells);
      if data.StrBuf? {
        return;
      }
      promoted := promoted || len > |nulls|;
      data := RenderBuffer(num, data, nulls, cells);
      kind := 2;
    }

    /** `validate_text`, once the rows are in. */
    method ValidateText()
      requires Holds()
      modifies this
      ensures Holds() && cells == old(cells) && kind == old(kind)
      ensures kind == 2 ==> textValid == Utf8Text.Valid(data.chars) && ascii == (old(ascii) || Utf8Text.IsAscii(data.chars))
      ensures kind < 2 ==> textValid == old(textValid) && ascii == old(ascii)
    {
      if data.StrBuf? {
        if Utf8Text.IsAscii(data.chars) {
          Utf8Text.AsciiValid(data.chars);
          ascii := true;
          textValid := true;
        } else {
          textValid := Utf8Text.Valid(data.chars);
        }
      }
    }

    /** `permute`: row `r` of the result is old row `idx[r]`, nulls and values together. */
    method Permute(idx: seq<nat>)
      requires WellFormed(View()) && Sliceable(data)
      requires |idx| == len && RowsIn(idx, len)
      modifies this
      ensures View() == Moved(old(View()), idx) && ascii == old(ascii)
    {
      match data {
        case IntBuf(v) => data := IntBuf(seq(|idx|, r requires 0 <= r < |idx| => v[idx[r]]));
        case FloatBuf(v) => data := FloatBuf(seq(|idx|, r requires 0 <= r < |idx| => v[idx[r]]));
        case StrBuf(_, _) => data := MoveTexts(data, idx);
      }
      if nulls != [] {
        nulls := MoveNulls(nulls, len, idx);
      } else {
        NoNullsMove(idx);
      }
    }

    /** `finish` */
    method Finish(name: seq<Byte>) returns (col: Column)
      requires WellFormed(View()) && CanFinish(View())
      ensures col == Finished(name, View())
    {
      var nullable := nulls != [];
      var validity := None;
      if nullable {
        var bits := NullBitmap(len, nulls);
        validity := Some(bits);
      }
      var finished;
      match data {
        case IntBuf(v) => finished := Int64Data(v);
        case FloatBuf(v) => finished := Float64Data(v);
        case StrBuf(offsets, chars) =>
          if textValid {
            finished := Utf8Data(offsets, chars);
          } else {
            finished := RepairUtf8(data);
          }
      }
      col := Column(Field(name, finished.Type(), nullable), len, validity, finished);
    }
  }

  method MoveTexts(data: AdaptiveData, idx: seq<nat>) returns (moved: AdaptiveData)
    requires data.StrBuf? && Sliceable(data) && RowsIn(idx, RowsOf(data))
    ensures moved == MovedData(data, idx)
  {
    ghost var texts := RowTexts(data, idx);
    var offsets, chars := [0], [];
    assert texts[..0] == [] && Offsets(texts[..0]) == [0];
    for r := 0 to |idx|
      invariant StrBuf(offsets, chars) == StrOf(texts[..r])
    {
      assert texts[..r + 1] == texts[..r] + [texts[r]];
      StrSnoc(texts[..r], texts[r]);
      assert SpanInside(data.offsets, |data.chars|, idx[r]);
      var s, e := data.offsets[idx[r]], data.offsets[idx[r] + 1];
      chars := chars + data.chars[s..e];
      offsets := offsets + [U32(|chars|)];
    }
    assert texts[..|idx|] == texts;
    moved := StrBuf(offsets, chars);
  }

  method MoveNulls(nulls: seq<nat>, len: nat, idx: seq<nat>) returns (moved: seq<nat>)
    requires forall j :: 0 <= j < |nulls| ==> nulls[j] < len
    requires RowsIn(idx, len)
    ensures moved == MovedNulls(nulls, idx)
  {
    var isNull := new bool[len](_ => false);
    for j := 0 to |nulls|
      invariant forall r :: 0 <= r < len ==> isNull[r] == (r in nulls[..j])
    {
      isNull[nulls[j]] := true;
      assert nulls[..j + 1] == nulls[..j] + [nulls[j]];
    }
    assert nulls[..|nulls|] == nulls;
    moved := [];
    for r := 0 to |idx|
      invariant moved == MovedNulls(nulls, idx[..r])
    {
      assert idx[..r + 1][..r] == idx[..r];
      if isNull[idx[r]] {
        moved := moved + [r];
      }
    }
    assert idx[..|idx|] == idx;
  }

  lemma {:induction false} NoNullsMove(idx: seq<nat>)
    ensures MovedNulls([], idx) == []
  {
    if idx != [] {
      NoNullsMove(idx[..|idx| - 1]);
    }
  }

  // ---- the clear-bits bitmap ----

  lemma ClearPacks(bits: seq<Byte>, flags: seq<bool>, i: nat)
    requires Packs(bits, flags) && i < |flags|
    ensures ClearBit(bits[i / 8], i % 8) < 256
    ensures Packs(bits[i / 8 := ClearBit(bits[i / 8], i % 8)], flags[i := false])
  {
    Pow2Eight();
    BitBounds(bits[i / 8], i % 8, 8);
    var r := bits[i / 8 := ClearBit(bits[i / 8], i % 8)];
    forall k | 0 <= k < 8 * |r| ensures BitAt(r, k) == (k < |flags| && flags[i := false][k]) {
      assert BitAt(bits, k) == (k < |flags| && flags[k]);
      ClearBitBits(bits[i / 8], i % 8, k % 8);
    }
  }

  lemma TemplatePacks(len: nat, bits: seq<Byte>)
    requires |bits| == BitsLen(len)
    requires forall b :: 0 <= b < |bits| ==> bits[b] == if b == |bits| - 1 && len % 8 != 0 then Pow2(len % 8) - 1 else 255
    ensures Packs(bits, seq(len, _ => true))
  {
    Pow2Eight();
    forall k | 0 <= k < 8 * |bits| ensures BitAt(bits, k) == (k < len) {
      OnesBits(if k / 8 == |bits| - 1 && len % 8 != 0 then len % 8 else 8, k % 8);
    }
  }

  lemma {:induction false} Pow2Fits(k: nat)
    requires k <= 8
    ensures Pow2(k) <= 256
    decreases 8 - k
  {
    if k == 8 {
      Pow2Eight();
    } else {
      Pow2Fits(k + 1);
    }
  }

  /** An all-valid template with the null bits cleared is the packed validity bitmap. */
  method NullBitmap(len: nat, nulls: seq<nat>) returns (bits: seq<Byte>)
    requires forall j :: 0 <= j < |nulls| ==> nulls[j] < len
    ensures bits == Pack(RowFlags(len, nulls))
  {
    bits := seq(BitsLen(len), _ => 255);
    if len % 8 != 0 {
      Pow2Fits(len % 8);
      bits := bits[|bits| - 1 := Pow2(len % 8) - 1];
    }
    TemplatePacks(len, bits);
    assert seq(len, _ => true) == RowFlags(len, nulls[..0]);
    for j := 0 to |nulls|
      invariant Packs(bits, RowFlags(len, nulls[..j]))
    {
      var i := nulls[j];
      ClearPacks(bits, RowFlags(len, nulls[..j]), i);
      assert nulls[..j + 1] == nulls[..j] + [i];
      assert RowFlags(len, nulls[..j + 1]) == RowFlags(len, nulls[..j])[i := false];
      bits := bits[i / 8 := ClearBit(bits[i / 8], i % 8)];
    }
    assert nulls[..|nulls|] == nulls;
    PackPacks(RowFlags(len, nulls));
    PacksUnique(bits, Pack(RowFlags(len, nulls)), RowFlags(len, nulls));
  }

  /** `repair_utf8` */
  method RepairUtf8(data: AdaptiveData) returns (repaired: ColumnData)
    requires data.StrBuf? && Sliceable(data)
    ensures repaired == FinishedData(data, false)
  {
    ghost var texts := RepairedTexts(data);
    var offsets, chars := [0], [];
    assert texts[..0] == [] && Offsets(texts[..0]) == [0];
    for r := 0 to |data.offsets| - 1
      invariant StrBuf(offsets, chars) == StrOf(texts[..r])
    {
      assert texts[..r + 1] == texts[..r] + [texts[r]];
      StrSnoc(texts[..r], texts[r]);
      assert SpanInside(data.offsets, |data.chars|, r);
      var s := data.chars[data.offsets[r]..data.offsets[r + 1]];
      var t := LossyText(s);
      chars := chars + t;
      offsets := offsets + [U32(|chars|)];
    }
    assert texts[..|texts|] == texts;
    repaired := Utf8Data(offsets, chars);
  }

  // ---- streaming rows ----

  function ColumnCells(rows: seq<seq<Cell>>, c: nat): (cells: seq<Cell>)
    requires forall r :: 0 <= r < |rows| ==> c < |rows[r]|
    ensures |cells| == |rows|
  {
    seq(|rows|, r requires 0 <= r < |rows| => rows[r][c])
  }

  ghost predicate AllDistinct(cols: seq<AdaptiveCol>) {
    forall i, j :: 0 <= i < j < |cols| ==> cols[i] != cols[j]
  }

  /** `stream_query`: every column is a serial build of its own cells. */
  method StreamRows(num: Conversions, ncols: nat, rows: seq<seq<Cell>>) returns (cols: seq<AdaptiveCol>)
    requires Sane(num) && forall r :: 0 <= r < |rows| ==> |rows[r]| == ncols
    ensures |cols| == ncols && AllDistinct(cols) && forall c :: 0 <= c < ncols ==> fresh(cols[c])
    ensures forall c :: 0 <= c < ncols ==> cols[c].Scanned(num, ColumnCells(rows, c))
  {
    cols := NewColumns(num, ncols);
    for r := 0 to |rows|
      invariant forall c :: 0 <= c < ncols ==> Fed(cols[c], num, ColumnCells(rows[..r], c))
    {
      PushRow(cols, num, rows[..r], rows[r]);
      assert rows[..r] + [rows[r]] == rows[..r + 1];
    }
    assert rows[..|rows|] == rows;
    Validate(cols, num, rows);
  }

  method Validate(cols: seq<AdaptiveCol>, ghost num: Conversions, ghost rows: seq<seq<Cell>>)
    requires AllDistinct(cols) && forall r :: 0 <= r < |rows| ==> |rows[r]| == |cols|
    requires forall c :: 0 <= c < |cols| ==> Fed(cols[c], num, ColumnCells(rows, c))
    modifies cols
    ensures forall c :: 0 <= c < |cols| ==> cols[c].Scanned(num, ColumnCells(rows, c))
  {
    for c := 0 to |cols|
      invariant forall k :: c <= k < |cols| ==> Fed(cols[k], num, ColumnCells(rows, k))
      invariant forall k :: 0 <= k < c ==> cols[k].Scanned(num, ColumnCells(rows, k))
    {
      cols[c].ValidateText();
    }
  }

  ghost predicate Fed(col: AdaptiveCol, num: Conversions, cells: seq<Cell>)
    reads col
  {
    col.Scanning() && col.num == num && col.cells == cells && col.textValid && !col.ascii
  }

  method NewColumns(num: Conversions, ncols: nat) returns (cols: seq<AdaptiveCol>)
    requires Sane(num)
    ensures |cols| == ncols && AllDistinct(cols) && forall c :: 0 <= c < ncols ==> fresh(cols[c]) && Fed(cols[c], num, [])
  {
    cols := [];
    for c := 0 to ncols
      invariant |cols| == c && AllDistinct(cols)
      invariant forall k :: 0 <= k < c ==> fresh(cols[k]) && Fed(cols[k], num, [])
    {
      var col := new AdaptiveCol(num);
      cols := cols + [col];
    }
  }

  lemma ColumnCellsMore(rows: seq<seq<Cell>>, row: seq<Cell>, c: nat)
    requires c < |row| && forall r :: 0 <= r < |rows| ==> |rows[r]| == |row|
    ensures ColumnCells(rows + [row], c) == ColumnCells(rows, c) + [row[c]]
  {
  }

  method PushRow(cols: seq<AdaptiveCol>, ghost num: Conversions, ghost rows: seq<seq<Cell>>, row: seq<Cell>)
    requires AllDistinct(cols) && |row| == |cols| && forall r :: 0 <= r < |rows| ==> |rows[r]| == |cols|
    requires forall c :: 0 <= c < |cols| ==> Fed(cols[c], num, ColumnCells(rows, c))
    modifies cols
    ensures forall c :: 0 <= c < |cols| ==> Fed(cols[c], num, ColumnCells(rows + [row], c))
  {
    for c := 0 to |cols|
      invariant forall k :: 0 <= k < c ==> Fed(cols[k], num, ColumnCells(rows + [row], k))
      invariant forall k :: c <= k < |cols| ==> Fed(cols[k], num, ColumnCells(rows, k))
    {
      ColumnCellsMore(rows, row, c);
      cols[c].Push(row[c]);
    }
  }
}
