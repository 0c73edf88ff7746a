/** Finished columns, their cell readers, and the typed builders (array.rs). */
module Columns {
  import opened Bytes
  import opened Bitmaps
  import Utf8Text

  datatype DataType = Int64 | Float64 | Bool | Utf8

  datatype ColumnData =
    | Int64Data(ints: seq<I64>)
    | Float64Data(floats: seq<F64>)
    | BoolData(bools: seq<bool>)
    | Utf8Data(offsets: seq<nat>, chars: seq<Byte>)
  {
    function Type(): DataType {
      match this
      case Int64Data(_) => Int64
      case Float64Data(_) => Float64
      case BoolData(_) => Bool
      case Utf8Data(_, _) => Utf8
    }
  }

  datatype Field = Field(name: seq<Byte>, dataType: DataType, nullable: bool)

  datatype Column = Column(field: Field, len: nat, validity: Option<seq<Byte>>, data: ColumnData)

  /** A logical cell. */
  datatype Value =
    | Null
    | IntValue(i: I64)
    | FloatValue(f: F64)
    | BoolValue(b: bool)
    | TextValue(text: seq<Byte>)

  // ---- cell readers ----

  /** What the readers index without checking: a bitmap covering every row, and ordered offsets inside the chars. */
  ghost predicate Readable(col: Column) {
    && (col.validity.Some? ==> col.len <= 8 * |col.validity.value|)
    && (col.data.Utf8Data? ==>
          forall r :: 0 <= r < |col.data.offsets| - 1 ==> SpanInside(col.data.offsets, |col.data.chars|, r))
  }

  predicate SpanInside(offsets: seq<nat>, size: nat, r: nat)
    requires r + 1 < |offsets|
  {
    offsets[r] <= offsets[r + 1] <= size
  }

  predicate IsValid(col: Column, row: nat)
    requires Readable(col)
  {
    row < col.len && (col.validity.Some? ==> BitAt(col.validity.value, row))
  }

  function ReadI64(col: Column, row: nat): Option<I64>
    requires Readable(col)
  {
    if IsValid(col, row) && col.data.Int64Data? && row < |col.data.ints| then Some(col.data.ints[row]) else None
  }

  function ReadF64(col: Column, row: nat): Option<F64>
    requires Readable(col)
  {
    if IsValid(col, row) && col.data.Float64Data? && row < |col.data.floats| then Some(col.data.floats[row]) else None
  }

  function ReadBool(col: Column, row: nat): Option<bool>
    requires Readable(col)
  {
    if IsValid(col, row) && col.data.BoolData? && row < |col.data.bools| then Some(col.data.bools[row]) else None
  }

  function ReadStr(col: Column, row: nat): Option<seq<Byte>>
    requires Readable(col)
  {
    if IsValid(col, row) && row < col.len && col.data.Utf8Data? && row + 1 < |col.data.offsets| then
      assert SpanInside(col.data.offsets, |col.data.chars|, row);
      var text := col.data.chars[col.data.offsets[row]..col.data.offsets[row + 1]];
      if Utf8Text.Valid(text) then Some(text) else None
    else None
  }

  /** The one reader that answers at `row`, or Null when none does. */
  function CellAt(col: Column, row: nat): Value
    requires Readable(col)
  {
    match (ReadI64(col, row), ReadF64(col, row), ReadBool(col, row), ReadStr(col, row))
    case (Some(i), _, _, _) => IntValue(i)
    case (_, Some(f), _, _) => FloatValue(f)
    case (_, _, Some(b), _) => BoolValue(b)
    case (_, _, _, Some(s)) => TextValue(s)
    case _ => Null
  }

  // ---- the column a list of cells stands for ----

  predicate Fits(t: DataType, v: Value) {
    match v
    case Null => true
    case IntValue(_) => t == Int64
    case FloatValue(_) => t == Float64
    case BoolValue(_) => t == Bool
    case TextValue(_) => t == Utf8
  }

  predicate AllFit(t: DataType, cells: seq<Value>) {
    forall k :: 0 <= k < |cells| ==> Fits(t, cells[k])
  }

  function ValidFlags(cells: seq<Value>): (flags: seq<bool>)
    ensures |flags| == |cells|
  {
    seq(|cells|, k requires 0 <= k < |cells| => cells[k] != Null)
  }

  function Texts(cells: seq<Value>): (ts: seq<seq<Byte>>)
    ensures |ts| == |cells|
  {
    seq(|cells|, k requires 0 <= k < |cells| => if cells[k].TextValue? then cells[k].text else [])
  }

  function DataOf(t: DataType, cells: seq<Value>): ColumnData {
    match t
    case Int64 => Int64Data(seq(|cells|, k requires 0 <= k < |cells| => if cells[k].IntValue? then cells[k].i else 0))
    case Float64 => Float64Data(seq(|cells|, k requires 0 <= k < |cells| => if cells[k].FloatValue? then cells[k].f else 0))
    case Bool => BoolData(seq(|cells|, k requires 0 <= k < |cells| => cells[k].BoolValue? && cells[k].b))
    case Utf8 => Utf8Data(Offsets(Texts(cells)), Flatten(Texts(cells)))
  }

  function ValidityOf(flags: seq<bool>): Option<seq<Byte>> {
    if false in flags then Some(Pack(flags)) else None
  }

  /** Placeholders in the null slots, a bitmap exactly when some slot is null. */
  function ColumnOf(name: seq<Byte>, t: DataType, cells: seq<Value>): Column {
    Column(Field(name, t, Null in cells), |cells|, ValidityOf(ValidFlags(cells)), DataOf(t, cells))
  }

  lemma NullFlags(cells: seq<Value>)
    ensures (Null in cells) == (false in ValidFlags(cells))
  {
    var flags := ValidFlags(cells);
    if Null in cells {
      var k :| 0 <= k < |cells| && cells[k] == Null;
      assert !flags[k];
    }
    if false in flags {
      var k :| 0 <= k < |flags| && !flags[k];
      assert cells[k] == Null;
    }
  }

  /** Reading a built column back gives every cell, whatever the mix of values and nulls. */
  lemma ReadBack(name: seq<Byte>, t: DataType, cells: seq<Value>, row: nat)
    requires AllFit(t, cells) && row < |cells|
    requires t == Utf8 ==> |Flatten(Texts(cells))| < TWO_TO_32
    requires forall k :: 0 <= k < |cells| && cells[k].TextValue? ==> Utf8Text.Valid(cells[k].text)
    ensures Readable(ColumnOf(name, t, cells))
    ensures CellAt(ColumnOf(name, t, cells), row) == cells[row]
  {
    var col := ColumnOf(name, t, cells);
    var flags := ValidFlags(cells);
    PackPacks(flags);
    NullFlags(cells);
    if t == Utf8 {
      forall r | 0 <= r < |cells| ensures SpanInside(col.data.offsets, |col.data.chars|, r) {
        OffsetsSlice(Texts(cells), r);
      }
      OffsetsSlice(Texts(cells), row);
    }
    assert Readable(col);
    assert IsValid(col, row) == flags[row] by {
      if col.validity.Some? {
        assert BitAt(Pack(flags), row) == flags[row];
      } else {
        assert flags[row] in flags;
      }
    }
    assert Fits(t, cells[row]);
  }

  // ---- builders ----

  /** A bit-packed bitmap builder (LSB-first). */
  class BitmapBuilder {
    var bits: seq<Byte>
    var len: nat
    var anyUnset: bool
    ghost var flags: seq<bool>

    ghost predicate Valid()
      reads this
    {
      && Packs(bits, flags)
      && len == |flags|
      && anyUnset == (false in flags)
    }

    constructor ()
      ensures Valid() && flags == []
    {
      bits, len, anyUnset, flags := [], 0, false, [];
    }

    method Push(value: bool)
      requires Valid()
      modifies this
      ensures Valid() && flags == old(flags) + [value]
    {
      PushBitPacks(bits, flags, value);
      if len % 8 == 0 {
        bits := bits + [0];
      }
      if value {
        Pow2Eight();
        BitBounds(bits[len / 8], len % 8, 8);
        bits := bits[len / 8 := SetBit(bits[len / 8], len % 8)];
      } else {
        anyUnset := true;
      }
      len := len + 1;
      flags := flags + [value];
    }
  }

  datatype PushResult = Pushed | Mismatch(expected: DataType)

  /** Builds one column of a fixed type, a cell at a time. */
  class ColumnBuilder {
    var data: ColumnData
    const validity: BitmapBuilder
    const intToFloat: I64 -> F64
    ghost var cells: seq<Value>

    ghost predicate Valid()
      reads this, validity
    {
      && validity.Valid()
      && validity.flags == ValidFlags(cells)
      && AllFit(data.Type(), cells)
      && data == DataOf(data.Type(), cells)
    }

    constructor (t: DataType, intToFloat: I64 -> F64)
      ensures Valid() && cells == [] && data.Type() == t
      ensures fresh(validity)
    {
      data := match t
        case Int64 => Int64Data([])
        case Float64 => Float64Data([])
        case Bool => BoolData([])
        case Utf8 => Utf8Data([0], []);
      this.intToFloat := intToFloat;
      cells := [];
      validity := new BitmapBuilder();
      new;
      assert data == DataOf(t, cells);
    }

    method PushI64(v: I64) returns (r: PushResult)
      requires Valid()
      modifies this, validity
      ensures Valid() && data.Type() == old(data.Type())
      ensures data.Int64Data? ==> r == Pushed && cells == old(cells) + [IntValue(v)]
      ensures data.Float64Data? ==> r == Pushed && cells == old(cells) + [FloatValue(intToFloat(v))]
      ensures !data.Int64Data? && !data.Float64Data? ==> r == Mismatch(data.Type()) && cells == old(cells)
    {
      match data
      case Int64Data(ints) =>
        data := Int64Data(ints + [v]);
        validity.Push(true);
        cells := cells + [IntValue(v)];
        r := Pushed;
      case Float64Data(floats) =>
        data := Float64Data(floats + [intToFloat(v)]);
        validity.Push(true);
        cells := cells + [FloatValue(intToFloat(v))];
        r := Pushed;
      case _ =>
        r := Mismatch(data.Type());
    }

    method PushF64(v: F64) returns (r: PushResult)
      requires Valid()
      modifies this, validity
      ensures Valid() && data.Type() == old(data.Type())
      ensures data.Float64Data? ==> r == Pushed && cells == old(cells) + [FloatValue(v)]
      ensures !data.Float64Data? ==> r == Mismatch(data.Type()) && cells == old(cells)
    {
      match data
      case Float64Data(floats) =>
        data := Float64Data(floats + [v]);
        validity.Push(true);
        cells := cells + [FloatValue(v)];
        r := Pushed;
      case _ =>
        r := Mismatch(data.Type());
    }

    method PushBool(v: bool) returns (r: PushResult)
      requires Valid()
      modifies this, validity
      ensures Valid() && data.Type() == old(data.Type())
      ensures data.BoolData? ==> r == Pushed && cells == old(cells) + [BoolValue(v)]
      ensures !data.BoolData? ==> r == Mismatch(data.Type()) && cells == old(cells)
    {
      match data
      case BoolData(bools) =>
        data := BoolData(bools + [v]);
        validity.Push(true);
        cells := cells + [BoolValue(v)];
        r := Pushed;
      case _ =>
        r := Mismatch(data.Type());
    }

    method PushStr(v: seq<Byte>) returns (r: PushResult)
      requires Valid()
      modifies this, validity
      ensures Valid() && data.Type() == old(data.Type())
      ensures data.Utf8Data? ==> r == Pushed && cells == old(cells) + [TextValue(v)]
      ensures !data.Utf8Data? ==> r == Mismatch(data.Type()) && cells == old(cells)
    {
      match data
      case Utf8Data(offsets, chars) =>
        TextsSnoc(cells, TextValue(v));
        data := Utf8Data(offsets + [U32(|chars + v|)], chars + v);
        validity.Push(true);
        cells := cells + [TextValue(v)];
        r := Pushed;
      case _ =>
        r := Mismatch(data.Type());
    }

    method PushNull()
      requires Valid()
      modifies this, validity
      ensures Valid() && data.Type() == old(data.Type()) && cells == old(cells) + [Null]
    {
      match data {
        case Int64Data(ints) => data := Int64Data(ints + [0]);
        case Float64Data(floats) => data := Float64Data(floats + [0]);
        case BoolData(bools) => data := BoolData(bools + [false]);
        case Utf8Data(offsets, chars) =>
          TextsSnoc(cells, Null);
          data := Utf8Data(offsets + [U32(|chars|)], chars);
      }
      validity.Push(false);
      cells := cells + [Null];
    }

    method Finish(name: seq<Byte>) returns (col: Column)
      requires Valid()
      ensures col == ColumnOf(name, data.Type(), cells)
    {
      NullFlags(cells);
      PackPacks(validity.flags);
      PacksUnique(validity.bits, Pack(validity.flags), validity.flags);
      var len := match data
        case Int64Data(ints) => |ints|
        case Float64Data(floats) => |floats|
        case BoolData(bools) => |bools|
        case Utf8Data(offsets, _) => |offsets| - 1;
      col := Column(Field(name, data.Type(), validity.anyUnset), len,
                    if validity.anyUnset then Some(validity.bits) else None, data);
    }
  }

  lemma TextsSnoc(cells: seq<Value>, v: Value)
    ensures var x := if v.TextValue? then v.text else [];
            && Offsets(Texts(cells + [v])) == Offsets(Texts(cells)) + [U32(|Flatten(Texts(cells)) + x|)]
            && Flatten(Texts(cells + [v])) == Flatten(Texts(cells)) + x
  {
    var x := if v.TextValue? then v.text else [];
    assert Texts(cells + [v]) == Texts(cells) + [x];
    OffsetsSnoc(Texts(cells), x);
    FlattenSnoc(Texts(cells), x);
  }

  /** What a finished column holds in the slots the readers never answer: zeros, false and empty texts. A bitmap is there
      exactly when some slot is null, and then the field says so. */
  lemma NullSlots(name: seq<Byte>, t: DataType, cells: seq<Value>, k: nat)
    requires k < |cells| && cells[k] == Null
    ensures var col := ColumnOf(name, t, cells);
            && col.len == |cells| && col.field.nullable && col.validity.Some? && |col.validity.value| == (|cells| + 7) / 8
            && match col.data
               case Int64Data(v) => v[k] == 0
               case Float64Data(v) => v[k] == 0
               case BoolData(v) => !v[k]
               case Utf8Data(offsets, _) => offsets[k] == offsets[k + 1]
  {
    assert ValidFlags(cells)[k] == false;
    if t == Utf8 {
      var texts := Texts(cells);
      assert texts[..k + 1] == texts[..k] + [texts[k]];
      FlattenSnoc(texts[..k], texts[k]);
    }
  }

  lemma NoNullSlots(name: seq<Byte>, t: DataType, cells: seq<Value>)
    requires forall k :: 0 <= k < |cells| ==> cells[k] != Null
    ensures !ColumnOf(name, t, cells).field.nullable && ColumnOf(name, t, cells).validity == None
  {
  }

  /** Past the last row every reader answers nothing. */
  lemma NothingBeyond(col: Column, row: nat)
    requires Readable(col) && row >= col.len
    ensures ReadI64(col, row) == None && ReadF64(col, row) == None && ReadBool(col, row) == None && ReadStr(col, row) == None
  {
  }
}
