/** What a column built from dynamically typed cells is, independent of how it was built. */
module ScanCells {
  import opened Bytes
  import opened Bitmaps
  import opened Columns
  import Decimal
  import Utf8Text

  /** One SQLite cell. */
  datatype Cell =
    | NullCell
    | IntCell(i: I64)
    | RealCell(f: F64)
    | TextCell(text: seq<Byte>)
    | BlobCell(blob: seq<Byte>)
  {
    predicate IsText() { TextCell? || BlobCell? }
  }

  /** The float conversions the code uses and this model does not look into. */
  datatype Conversions = Conversions(i64ToF64: I64 -> F64, f64Text: F64 -> seq<Byte>)

  /** 0 converts to +0.0, and numbers render in ASCII. */
  ghost predicate Sane(num: Conversions) {
    num.i64ToF64(0) == 0 && forall f: F64 :: Utf8Text.IsAscii(num.f64Text(f))
  }

  predicate HasInt(cells: seq<Cell>) {
    cells != [] && (HasInt(cells[..|cells| - 1]) || cells[|cells| - 1].IntCell?)
  }

  predicate HasReal(cells: seq<Cell>) {
    cells != [] && (HasReal(cells[..|cells| - 1]) || cells[|cells| - 1].RealCell?)
  }

  predicate HasText(cells: seq<Cell>) {
    cells != [] && (HasText(cells[..|cells| - 1]) || cells[|cells| - 1].IsText())
  }

  predicate HasBlob(cells: seq<Cell>) {
    cells != [] && (HasBlob(cells[..|cells| - 1]) || cells[|cells| - 1].BlobCell?)
  }

  /** More than one storage class among the non-null cells. */
  predicate Mixed(cells: seq<Cell>) {
    (HasInt(cells) && HasReal(cells)) || (HasInt(cells) && HasText(cells)) || (HasReal(cells) && HasText(cells))
  }

  lemma {:induction false} HasIs(cells: seq<Cell>)
    ensures HasInt(cells) == exists k :: 0 <= k < |cells| && cells[k].IntCell?
    ensures HasReal(cells) == exists k :: 0 <= k < |cells| && cells[k].RealCell?
    ensures HasText(cells) == exists k :: 0 <= k < |cells| && cells[k].IsText()
  {
    if cells != [] {
      HasIs(cells[..|cells| - 1]);
      if HasInt(cells[..|cells| - 1]) {
        var k :| 0 <= k < |cells| - 1 && cells[..|cells| - 1][k].IntCell?;
        assert cells[k].IntCell?;
      }
      if HasReal(cells[..|cells| - 1]) {
        var k :| 0 <= k < |cells| - 1 && cells[..|cells| - 1][k].RealCell?;
        assert cells[k].RealCell?;
      }
      if HasText(cells[..|cells| - 1]) {
        var k :| 0 <= k < |cells| - 1 && cells[..|cells| - 1][k].IsText();
        assert cells[k].IsText();
      }
    }
  }

  lemma {:induction false} Concat(a: seq<Cell>, b: seq<Cell>)
    ensures HasInt(a + b) == (HasInt(a) || HasInt(b)) && HasReal(a + b) == (HasReal(a) || HasReal(b))
    ensures HasText(a + b) == (HasText(a) || HasText(b)) && HasBlob(a + b) == (HasBlob(a) || HasBlob(b))
  {
    if b == [] {
      assert a + b == a;
    } else {
      Concat(a, b[..|b| - 1]);
      assert (a + b)[..|a + b| - 1] == a + b[..|b| - 1];
    }
  }

  /** Storage class: any text or blob makes it 2 (Utf8), else any real 1 (Float64), else 0 (Int64). */
  function Class(cells: seq<Cell>): (c: nat)
    ensures c <= 2
  {
    if HasText(cells) then 2 else if HasReal(cells) then 1 else 0
  }

  /** The rows holding NULL, ascending. */
  function NullRows(cells: seq<Cell>): seq<nat> {
    if cells == [] then [] else
      NullRows(cells[..|cells| - 1]) + if cells[|cells| - 1].NullCell? then [|cells| - 1] else []
  }

  lemma {:induction false} NullRowsAre(cells: seq<Cell>)
    ensures forall j :: 0 <= j < |NullRows(cells)| ==> NullRows(cells)[j] < |cells| && cells[NullRows(cells)[j]].NullCell?
    ensures forall i, j :: 0 <= i < j < |NullRows(cells)| ==> NullRows(cells)[i] < NullRows(cells)[j]
    ensures forall k: nat :: k < |cells| && cells[k].NullCell? ==> k in NullRows(cells)
    ensures |NullRows(cells)| <= |cells|
    ensures |NullRows(cells)| < |cells| <==> HasInt(cells) || HasReal(cells) || HasText(cells)
  {
    if cells != [] {
      var init, last := cells[..|cells| - 1], cells[|cells| - 1];
      NullRowsAre(init);
      forall k: nat | k < |cells| && cells[k].NullCell? ensures k in NullRows(cells) {
        if k < |init| {
          assert init[k].NullCell?;
        }
      }
    }
  }

  lemma {:induction false} NullRowsConcat(a: seq<Cell>, b: seq<Cell>)
    ensures NullRows(a + b) == NullRows(a) + ShiftRows(NullRows(b), |a|)
  {
    if b == [] {
      assert a + b == a;
    } else {
      var init := b[..|b| - 1];
      NullRowsConcat(a, init);
      assert (a + b)[..|a + b| - 1] == a + init;
      assert ShiftRows(NullRows(b), |a|)
          == ShiftRows(NullRows(init), |a|) + if b[|b| - 1].NullCell? then [|a| + |b| - 1] else [];
    }
  }

  /** Row numbers moved behind `base` earlier rows. */
  function ShiftRows(rows: seq<nat>, base: nat): (r: seq<nat>)
    ensures |r| == |rows|
  {
    seq(|rows|, j requires 0 <= j < |rows| => rows[j] + base)
  }

  // ---- rendering ----

  /** The first text or blob, or the end. */
  function FirstText(cells: seq<Cell>): (n: nat)
    ensures n <= |cells|
    ensures forall k :: 0 <= k < n ==> !cells[k].IsText()
    ensures n < |cells| ==> cells[n].IsText()
  {
    if cells == [] then 0 else
      var n := FirstText(cells[..|cells| - 1]);
      if n < |cells| - 1 then n else if cells[|cells| - 1].IsText() then n else n + 1
  }

  /** A column that turned Float64 before it turned Utf8 has sent its earlier integers through a float. */
  predicate Hops(cells: seq<Cell>) {
    HasReal(cells[..FirstText(cells)])
  }

  function RenderCell(num: Conversions, c: Cell, viaFloat: bool): seq<Byte> {
    match c
    case NullCell => []
    case IntCell(i) => if viaFloat then num.f64Text(num.i64ToF64(i)) else Decimal.IntText(i)
    case RealCell(f) => num.f64Text(f)
    case TextCell(t) => t
    case BlobCell(b) => Utf8Text.Lossy(b)
  }

  /** The text of every cell once the column is Utf8. */
  function Rendered(num: Conversions, cells: seq<Cell>): (ts: seq<seq<Byte>>)
    ensures |ts| == |cells|
  {
    seq(|cells|, k requires 0 <= k < |cells| => RenderCell(num, cells[k], k < FirstText(cells) && Hops(cells)))
  }

  // ---- the column ----

  datatype AdaptiveData =
    | IntBuf(ints: seq<I64>)
    | FloatBuf(floats: seq<F64>)
    | StrBuf(offsets: seq<nat>, chars: seq<Byte>)

  function IntOf(c: Cell): I64 { if c.IntCell? then c.i else 0 }

  function FloatOf(num: Conversions, c: Cell): F64 {
    match c
    case IntCell(i) => num.i64ToF64(i)
    case RealCell(f) => f
    case _ => 0
  }

  function Ints(cells: seq<Cell>): (r: seq<I64>)
    ensures |r| == |cells|
  {
    seq(|cells|, k requires 0 <= k < |cells| => IntOf(cells[k]))
  }

  function Floats(num: Conversions, cells: seq<Cell>): (r: seq<F64>)
    ensures |r| == |cells|
  {
    seq(|cells|, k requires 0 <= k < |cells| => FloatOf(num, cells[k]))
  }

  function StrOf(texts: seq<seq<Byte>>): AdaptiveData { StrBuf(Offsets(texts), Flatten(texts)) }

  /** The buffers of `cells`, held at storage class `kind`. */
  function DataAs(num: Conversions, cells: seq<Cell>, kind: nat): AdaptiveData {
    if kind == 0 then IntBuf(Ints(cells))
    else if kind == 1 then FloatBuf(Floats(num, cells))
    else StrOf(Rendered(num, cells))
  }

  /** What `finish` looks at. */
  datatype State = State(data: AdaptiveData, len: nat, nulls: seq<nat>, promoted: bool, sawBlob: bool, textValid: bool)

  /** `validate_text`: a column that is not Utf8 is never wrong. */
  function TextValidOf(num: Conversions, cells: seq<Cell>): bool {
    HasText(cells) ==> Utf8Text.Valid(Flatten(Rendered(num, cells)))
  }

  /** The column of one serial build. */
  function Serial(num: Conversions, cells: seq<Cell>): State {
    State(DataAs(num, cells, Class(cells)), |cells|, NullRows(cells), Mixed(cells), HasBlob(cells),
          TextValidOf(num, cells))
  }

  // ---- finishing ----

  /** Offsets that slice: ordered, ending at the chars' end. */
  ghost predicate Sliceable(data: AdaptiveData) {
    data.StrBuf? ==>
      && |data.offsets| >= 1
      && forall r :: 0 <= r < |data.offsets| - 1 ==> SpanInside(data.offsets, |data.chars|, r)
  }

  function RowText(data: AdaptiveData, r: nat): seq<Byte>
    requires data.StrBuf? && Sliceable(data) && r + 1 < |data.offsets|
  {
    assert SpanInside(data.offsets, |data.chars|, r);
    data.chars[data.offsets[r]..data.offsets[r + 1]]
  }

  /** The texts of a Utf8 buffer after the lossy repair. */
  function RepairedTexts(data: AdaptiveData): (ts: seq<seq<Byte>>)
    requires data.StrBuf? && Sliceable(data)
    ensures |ts| == |data.offsets| - 1
  {
    seq(|data.offsets| - 1, r requires 0 <= r < |data.offsets| - 1 => Utf8Text.Lossy(RowText(data, r)))
  }

  function FinishedData(data: AdaptiveData, textValid: bool): ColumnData
    requires !textValid ==> Sliceable(data)
  {
    match data
    case IntBuf(v) => Int64Data(v)
    case FloatBuf(v) => Float64Data(v)
    case StrBuf(offsets, chars) =>
      if textValid then Utf8Data(offsets, chars)
      else Utf8Data(Offsets(RepairedTexts(data)), Flatten(RepairedTexts(data)))
  }

  function RowFlags(len: nat, nulls: seq<nat>): (flags: seq<bool>)
    ensures |flags| == len
  {
    seq(len, k requires 0 <= k < len => k !in nulls)
  }

  /** `finish` slices only what it has to repair. */
  ghost predicate CanFinish(s: State) {
    !s.textValid ==> Sliceable(s.data)
  }

  /** The finished column of a built one. */
  function Finished(name: seq<Byte>, s: State): Column
    requires CanFinish(s)
  {
    var data := FinishedData(s.data, s.textValid);
    Column(Field(name, data.Type(), s.nulls != []), s.len,
           if s.nulls != [] then Some(Pack(RowFlags(s.len, s.nulls))) else None, data)
  }

  /** The null rows are ascending rows of the column, and hold the placeholder of its storage class. */
  ghost predicate WellFormed(s: State) {
    && (forall j :: 0 <= j < |s.nulls| ==> s.nulls[j] < s.len)
    && (forall i, j :: 0 <= i < j < |s.nulls| ==> s.nulls[i] < s.nulls[j])
    && match s.data
       case IntBuf(v) => |v| == s.len && forall r: nat :: r < s.len && r in s.nulls ==> v[r] == 0
       case FloatBuf(v) => |v| == s.len && forall r: nat :: r < s.len && r in s.nulls ==> v[r] == 0
       case StrBuf(offsets, chars) =>
         && |offsets| == s.len + 1
         && offsets[0] == 0
         && offsets[s.len] == U32(|chars|)
         && (forall r :: 0 <= r <= s.len ==> offsets[r] < TWO_TO_32)
         && forall r: nat :: r < s.len && r in s.nulls ==> offsets[r] == offsets[r + 1]
  }

  // ---- one more cell ----

  lemma FirstTextIs(cells: seq<Cell>)
    ensures (FirstText(cells) == |cells|) == !HasText(cells)
  {
    HasIs(cells);
  }

  lemma RenderedSnoc(num: Conversions, cells: seq<Cell>, c: Cell)
    requires HasText(cells) || c.IsText()
    ensures Rendered(num, cells + [c]) == Rendered(num, cells) + [RenderCell(num, c, false)]
  {
    var n := FirstText(cells);
    assert (cells + [c])[..|cells|] == cells;
    FirstTextIs(cells);
    assert FirstText(cells + [c]) == n;
    assert (cells + [c])[..n] == cells[..n];
  }

  lemma StrSnoc(texts: seq<seq<Byte>>, x: seq<Byte>)
    ensures StrOf(texts + [x]) == StrBuf(Offsets(texts) + [U32(|Flatten(texts) + x|)], Flatten(texts) + x)
  {
    OffsetsSnoc(texts, x);
    FlattenSnoc(texts, x);
  }

  function ClassOf(c: Cell): nat {
    if c.IsText() then 2 else if c.RealCell? then 1 else 0
  }

  /** A buffer of the right storage class with one more cell. */
  function Appended(num: Conversions, data: AdaptiveData, c: Cell): AdaptiveData {
    match data
    case IntBuf(v) => IntBuf(v + [IntOf(c)])
    case FloatBuf(v) => FloatBuf(v + [FloatOf(num, c)])
    case StrBuf(offsets, chars) =>
      var grown := chars + RenderCell(num, c, false);
      StrBuf(offsets + [U32(|grown|)], grown)
  }

  lemma PushedFlags(cells: seq<Cell>, c: Cell)
    ensures Class(cells + [c]) == if Class(cells) < ClassOf(c) then ClassOf(c) else Class(cells)
    ensures NullRows(cells + [c]) == NullRows(cells) + if c.NullCell? then [|cells|] else []
    ensures HasBlob(cells + [c]) == (HasBlob(cells) || c.BlobCell?)
    ensures Mixed(cells + [c]) == (Mixed(cells) || (!c.NullCell? && |NullRows(cells)| < |cells| && ClassOf(c) != Class(cells)))
  {
    NullRowsAre(cells);
    assert (cells + [c])[..|cells|] == cells;
  }

  /** One more cell: the class moves up to the cell's, and then the buffer grows in place. */
  lemma PushedCell(num: Conversions, cells: seq<Cell>, c: Cell)
    ensures Class(cells + [c]) == if Class(cells) < ClassOf(c) then ClassOf(c) else Class(cells)
    ensures DataAs(num, cells + [c], Class(cells + [c])) == Appended(num, DataAs(num, cells, Class(cells + [c])), c)
    ensures NullRows(cells + [c]) == NullRows(cells) + if c.NullCell? then [|cells|] else []
    ensures HasBlob(cells + [c]) == (HasBlob(cells) || c.BlobCell?)
    ensures Mixed(cells + [c]) == (Mixed(cells) || (!c.NullCell? && |NullRows(cells)| < |cells| && ClassOf(c) != Class(cells)))
  {
    PushedFlags(cells, c);
    assert (cells + [c])[..|cells|] == cells;
    var kind := Class(cells + [c]);
    if kind == 0 {
      assert Ints(cells + [c]) == Ints(cells) + [IntOf(c)];
    } else if kind == 1 {
      assert Floats(num, cells + [c]) == Floats(num, cells) + [FloatOf(num, c)];
    } else {
      RenderedSnoc(num, cells, c);
      StrSnoc(Rendered(num, cells), RenderCell(num, c, false));
    }
  }

  // ---- re-rendering a whole column ----

  /** `values` with the null rows left empty. */
  function Blanked(values: seq<seq<Byte>>, nulls: seq<nat>): (texts: seq<seq<Byte>>)
    ensures |texts| == |values|
  {
    seq(|values|, k requires 0 <= k < |values| => if k in nulls then [] else values[k])
  }

  function IntTexts(ints: seq<I64>): (ts: seq<seq<Byte>>)
    ensures |ts| == |ints|
  {
    seq(|ints|, k requires 0 <= k < |ints| => Decimal.IntText(ints[k]))
  }

  function FloatTexts(num: Conversions, floats: seq<F64>): (ts: seq<seq<Byte>>)
    ensures |ts| == |floats|
  {
    seq(|floats|, k requires 0 <= k < |floats| => num.f64Text(floats[k]))
  }

  /** Promotion to Utf8 renders what is buffered, which for an Int64 column is each integer itself. */
  lemma PromotedTexts(num: Conversions, cells: seq<Cell>)
    requires !HasText(cells)
    ensures Rendered(num, cells) == if HasReal(cells) then Blanked(FloatTexts(num, Floats(num, cells)), NullRows(cells))
                                    else Blanked(IntTexts(Ints(cells)), NullRows(cells))
  {
    FirstTextIs(cells);
    assert cells[..|cells|] == cells;
    NullFlags(cells, NullRows(cells));
    if HasReal(cells) {
      assert Rendered(num, cells) == Blanked(FloatTexts(num, Floats(num, cells)), NullRows(cells));
    } else {
      HasIs(cells);
      assert Rendered(num, cells) == Blanked(IntTexts(Ints(cells)), NullRows(cells));
    }
  }

  lemma NullFlags(cells: seq<Cell>, nulls: seq<nat>)
    requires nulls == NullRows(cells)
    ensures forall k: nat :: k < |cells| ==> (k in nulls) == cells[k].NullCell?
  {
    NullRowsAre(cells);
  }

  // ---- reordering ----

  /** A row of the column. */
  function RowValue(s: State, r: nat): Value
    requires Sliceable(s.data) && r < RowsOf(s.data)
  {
    if r in s.nulls then Null else
    match s.data
    case IntBuf(v) => IntValue(v[r])
    case FloatBuf(v) => FloatValue(v[r])
    case StrBuf(_, _) => TextValue(RowText(s.data, r))
  }

  function RowsOf(data: AdaptiveData): nat
    requires Sliceable(data)
  {
    match data
    case IntBuf(v) => |v|
    case FloatBuf(v) => |v|
    case StrBuf(offsets, _) => |offsets| - 1
  }

  predicate RowsIn(idx: seq<nat>, n: nat) {
    forall r :: 0 <= r < |idx| ==> idx[r] < n
  }

  function RowTexts(data: AdaptiveData, idx: seq<nat>): (ts: seq<seq<Byte>>)
    requires data.StrBuf? && Sliceable(data) && RowsIn(idx, RowsOf(data))
    ensures |ts| == |idx|
  {
    seq(|idx|, r requires 0 <= r < |idx| => RowText(data, idx[r]))
  }

  /** New row numbers of the nulls, ascending. */
  function MovedNulls(nulls: seq<nat>, idx: seq<nat>): seq<nat> {
    if idx == [] then [] else
      MovedNulls(nulls, idx[..|idx| - 1]) + if idx[|idx| - 1] in nulls then [|idx| - 1] else []
  }

  function MovedData(data: AdaptiveData, idx: seq<nat>): AdaptiveData
    requires Sliceable(data) && RowsIn(idx, RowsOf(data))
  {
    match data
    case IntBuf(v) => IntBuf(seq(|idx|, r requires 0 <= r < |idx| => v[idx[r]]))
    case FloatBuf(v) => FloatBuf(seq(|idx|, r requires 0 <= r < |idx| => v[idx[r]]))
    case StrBuf(_, _) => StrOf(RowTexts(data, idx))
  }

  /** The column with row `r` taken from row `idx[r]`. */
  function Moved(s: State, idx: seq<nat>): State
    requires Sliceable(s.data) && RowsIn(idx, RowsOf(s.data))
  {
    s.(data := MovedData(s.data, idx), nulls := MovedNulls(s.nulls, idx))
  }

  lemma {:induction false} MovedNullsAre(nulls: seq<nat>, idx: seq<nat>)
    ensures forall j :: 0 <= j < |MovedNulls(nulls, idx)| ==>
              MovedNulls(nulls, idx)[j] < |idx| && idx[MovedNulls(nulls, idx)[j]] in nulls
    ensures forall i, j :: 0 <= i < j < |MovedNulls(nulls, idx)| ==> MovedNulls(nulls, idx)[i] < MovedNulls(nulls, idx)[j]
    ensures forall r: nat :: r < |idx| && idx[r] in nulls ==> r in MovedNulls(nulls, idx)
  {
    if idx != [] {
      var init := idx[..|idx| - 1];
      MovedNullsAre(nulls, init);
      forall r: nat | r < |idx| && idx[r] in nulls ensures r in MovedNulls(nulls, idx) {
        if r < |init| {
          assert init[r] in nulls;
        }
      }
    }
  }

  // ---- every built column is well formed ----

  lemma EmptyText(texts: seq<seq<Byte>>, r: nat)
    requires r < |texts| && texts[r] == []
    ensures Offsets(texts)[r] == Offsets(texts)[r + 1]
  {
    assert texts[..r + 1] == texts[..r] + [texts[r]];
    FlattenSnoc(texts[..r], texts[r]);
  }

  lemma StrWellFormed(texts: seq<seq<Byte>>, s: State)
    requires s.data == StrOf(texts) && s.len == |texts|
    requires forall j :: 0 <= j < |s.nulls| ==> s.nulls[j] < s.len && texts[s.nulls[j]] == []
    requires forall i, j :: 0 <= i < j < |s.nulls| ==> s.nulls[i] < s.nulls[j]
    ensures WellFormed(s)
  {
    assert texts[..0] == [] && texts[..|texts|] == texts;
    forall r: nat | r < s.len && r in s.nulls ensures s.data.offsets[r] == s.data.offsets[r + 1] {
      EmptyText(texts, r);
    }
  }

  lemma HeldWellFormed(num: Conversions, cells: seq<Cell>, kind: nat, s: State)
    requires s.data == DataAs(num, cells, kind) && s.len == |cells| && s.nulls == NullRows(cells)
    ensures WellFormed(s)
  {
    NullRowsHold(cells, s.nulls);
    PlaceholdersHeld(num, cells, kind, s);
  }

  lemma PlaceholdersHeld(num: Conversions, cells: seq<Cell>, kind: nat, s: State)
    requires s.data == DataAs(num, cells, kind) && s.len == |cells|
    requires forall j :: 0 <= j < |s.nulls| ==> s.nulls[j] < |cells| && cells[s.nulls[j]].NullCell?
    requires forall i, j :: 0 <= i < j < |s.nulls| ==> s.nulls[i] < s.nulls[j]
    ensures WellFormed(s)
  {
    if kind >= 2 {
      StrWellFormed(Rendered(num, cells), s);
    }
  }

  lemma NullRowsHold(cells: seq<Cell>, nulls: seq<nat>)
    requires nulls == NullRows(cells)
    ensures forall j :: 0 <= j < |nulls| ==> nulls[j] < |cells| && cells[nulls[j]].NullCell?
    ensures forall i, j :: 0 <= i < j < |nulls| ==> nulls[i] < nulls[j]
  {
    NullRowsAre(cells);
  }

  /** Texts that stay below 2^32 bytes slice as they were packed. */
  lemma StrSlices(texts: seq<seq<Byte>>)
    requires |Flatten(texts)| < TWO_TO_32
    ensures Sliceable(StrOf(texts))
    ensures forall r :: 0 <= r < |texts| ==> RowText(StrOf(texts), r) == texts[r]
  {
    forall r | 0 <= r < |texts|
      ensures SpanInside(Offsets(texts), |Flatten(texts)|, r)
      ensures Flatten(texts)[Offsets(texts)[r]..Offsets(texts)[r + 1]] == texts[r]
    {
      OffsetsSlice(texts, r);
    }
  }
}
