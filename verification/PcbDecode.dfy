/** `decode`, and the round trip through the wire. */
module PcbDecode {
  import opened Bytes
  import opened Bitmaps
  import opened Columns
  import opened Pcb
  import Utf8Text

  datatype CodecError =
    | TooSmall
    | BadMagic
    | UnsupportedVersion(version: nat)
    | TruncatedDirectory
    | UnsupportedType(code: Byte)
    | OutOfRange(slot: Slot)
    | NameNotUtf8

  /** A decode step ends with a value, with an error, or by indexing out of a buffer (a Rust panic). */
  datatype Outcome<+T> = Ok(value: T) | Err(error: CodecError) | Panic {
    predicate IsFailure() { !Ok? }
    function PropagateFailure<U>(): Outcome<U>
      requires IsFailure()
    {
      match this
      case Err(e) => Outcome.Err(e)
      case Panic => Outcome.Panic
    }
    function Extract(): T
      requires Ok?
    {
      value
    }
  }

  function U32At(bytes: seq<Byte>, pos: nat): nat
    requires pos + 4 <= |bytes|
  {
    FromLe(bytes[pos..pos + 4])
  }

  function SlotAt(bytes: seq<Byte>, pos: nat): Slot
    requires pos + 8 <= |bytes|
  {
    Slot(U32At(bytes, pos), U32At(bytes, pos + 4))
  }

  /** `slice` */
  function Slice(bytes: seq<Byte>, s: Slot): Outcome<seq<Byte>> {
    if s.off + s.len <= |bytes| then Ok(bytes[s.off..s.off + s.len]) else Err(OutOfRange(s))
  }

  function TypeOf(code: Byte): Outcome<DataType> {
    match code
    case 0 => Ok(Int64)
    case 1 => Ok(Float64)
    case 2 => Ok(Bool)
    case 3 => Ok(Utf8)
    case _ => Err(UnsupportedType(code))
  }

  function I64sIn(raw: seq<Byte>, n: nat): seq<I64>
    requires 8 * n <= |raw|
  {
    seq(n, r requires 0 <= r < n => BitsI64(FromLe(raw[8 * r..8 * r + 8])))
  }

  function F64sIn(raw: seq<Byte>, n: nat): seq<F64>
    requires 8 * n <= |raw|
  {
    seq(n, r requires 0 <= r < n => BitsF64(FromLe(raw[8 * r..8 * r + 8])))
  }

  function U32sIn(raw: seq<Byte>, n: nat): seq<nat>
    requires 4 * n <= |raw|
  {
    seq(n, r requires 0 <= r < n => FromLe(raw[4 * r..4 * r + 4]))
  }

  function PayloadIn(t: DataType, raw: seq<Byte>, chars: Outcome<seq<Byte>>, nrows: nat): Outcome<ColumnData> {
    match t
    case Int64 => if 8 * nrows <= |raw| then Ok(Int64Data(I64sIn(raw, nrows))) else Panic
    case Float64 => if 8 * nrows <= |raw| then Ok(Float64Data(F64sIn(raw, nrows))) else Panic
    case Bool => if nrows <= 8 * |raw| then Ok(BoolData(Unpack(raw, nrows))) else Panic
    case Utf8 =>
      if 4 * (nrows + 1) <= |raw| then
        var text :- chars;
        Ok(Utf8Data(U32sIn(raw, nrows + 1), text))
      else Panic
  }

  /** The directory entry at `base`. */
  function EntryIn(bytes: seq<Byte>, base: nat): Entry
    requires base + COLDIR_LEN <= |bytes|
  {
    Entry(SlotAt(bytes, base), bytes[base + 8], bytes[base + 9],
          SlotAt(bytes, base + 12), SlotAt(bytes, base + 20), SlotAt(bytes, base + 28))
  }

  function ValidityIn(bytes: seq<Byte>, e: Entry): Outcome<Option<seq<Byte>>> {
    if e.flags % 2 == 1 then
      var bits :- Slice(bytes, e.validity);
      Ok(Some(bits))
    else Ok(None)
  }

  /** The column an entry describes. */
  function ColumnOfEntry(bytes: seq<Byte>, e: Entry, nrows: nat): Outcome<Column> {
    var t :- TypeOf(e.dtype);
    var name :- Slice(bytes, e.name);
    if !Utf8Text.Valid(name) then Err(NameNotUtf8) else
      var validity :- ValidityIn(bytes, e);
      var raw :- Slice(bytes, e.buf1);
      var data :- PayloadIn(t, raw, Slice(bytes, e.buf2), nrows);
      Ok(Column(Field(name, t, e.flags % 2 == 1), nrows, validity, data))
  }

  function ColumnIn(bytes: seq<Byte>, base: nat, nrows: nat): Outcome<Column> {
    if base + COLDIR_LEN > |bytes| then Err(TruncatedDirectory) else ColumnOfEntry(bytes, EntryIn(bytes, base), nrows)
  }

  /** The first `n` results of `at`, or the first failure among them. */
  function Collect<T>(at: nat -> Outcome<T>, n: nat): Outcome<seq<T>> {
    if n == 0 then Ok([]) else
      var init :- Collect(at, n - 1);
      var last :- at(n - 1);
      Ok(init + [last])
  }

  function ColumnsAt(bytes: seq<Byte>, dirOff: nat, nrows: nat): nat -> Outcome<Column> {
    (i: nat) => ColumnIn(bytes, dirOff + i * COLDIR_LEN, nrows)
  }

  function ColumnsIn(bytes: seq<Byte>, dirOff: nat, nrows: nat, ncols: nat): Outcome<seq<Column>> {
    Collect(ColumnsAt(bytes, dirOff, nrows), ncols)
  }

  function FieldsOf(cols: seq<Column>): seq<Field> {
    seq(|cols|, i requires 0 <= i < |cols| => cols[i].field)
  }

  /** The batch a buffer decodes to. */
  function BatchIn(bytes: seq<Byte>): Outcome<Batch> {
    if |bytes| < HEADER_LEN then Err(TooSmall)
    else if bytes[..4] != MAGIC then Err(BadMagic)
    else if FromLe(bytes[4..6]) != VERSION then Err(UnsupportedVersion(FromLe(bytes[4..6])))
    else
      var nrows := U32At(bytes, 12);
      var cols :- ColumnsIn(bytes, U32At(bytes, 16), nrows, U32At(bytes, 8));
      Ok(Batch(FieldsOf(cols), nrows, cols))
  }

  // ---- the loops ----

  method ReadI64s(raw: seq<Byte>, nrows: nat) returns (r: Outcome<seq<I64>>)
    ensures r == if 8 * nrows <= |raw| then Ok(I64sIn(raw, nrows)) else Panic
  {
    var v: seq<I64> := [];
    for i := 0 to nrows
      invariant 8 * i <= |raw| && v == I64sIn(raw, i)
    {
      var o := i * 8;
      if o + 8 > |raw| {
        return Panic;
      }
      v := v + [BitsI64(FromLe(raw[o..o + 8]))];
    }
    return Ok(v);
  }

  method ReadF64s(raw: seq<Byte>, nrows: nat) returns (r: Outcome<seq<F64>>)
    ensures r == if 8 * nrows <= |raw| then Ok(F64sIn(raw, nrows)) else Panic
  {
    var v: seq<F64> := [];
    for i := 0 to nrows
      invariant 8 * i <= |raw| && v == F64sIn(raw, i)
    {
      var o := i * 8;
      if o + 8 > |raw| {
        return Panic;
      }
      v := v + [BitsF64(FromLe(raw[o..o + 8]))];
    }
    return Ok(v);
  }

  method ReadBools(raw: seq<Byte>, nrows: nat) returns (r: Outcome<seq<bool>>)
    ensures r == if nrows <= 8 * |raw| then Ok(Unpack(raw, nrows)) else Panic
  {
    var v: seq<bool> := [];
    for i := 0 to nrows
      invariant i <= 8 * |raw| && v == Unpack(raw, i)
    {
      if i / 8 >= |raw| {
        return Panic;
      }
      v := v + [TestBit(raw[i / 8], i % 8)];
    }
    return Ok(v);
  }

  method ReadU32s(raw: seq<Byte>, n: nat) returns (r: Outcome<seq<nat>>)
    ensures r == if 4 * n <= |raw| then Ok(U32sIn(raw, n)) else Panic
  {
    var v: seq<nat> := [];
    for i := 0 to n
      invariant 4 * i <= |raw| && v == U32sIn(raw, i)
    {
      var o := i * 4;
      if o + 4 > |raw| {
        return Panic;
      }
      v := v + [FromLe(raw[o..o + 4])];
    }
    return Ok(v);
  }

  method ReadPayload(t: DataType, raw: seq<Byte>, chars: Outcome<seq<Byte>>, nrows: nat)
    returns (r: Outcome<ColumnData>)
    ensures r == PayloadIn(t, raw, chars, nrows)
  {
    match t
    case Int64 =>
      var v :- ReadI64s(raw, nrows);
      return Ok(Int64Data(v));
    case Float64 =>
      var v :- ReadF64s(raw, nrows);
      return Ok(Float64Data(v));
    case Bool =>
      var v :- ReadBools(raw, nrows);
      return Ok(BoolData(v));
    case Utf8 =>
      var offsets :- ReadU32s(raw, nrows + 1);
      var text :- chars;
      return Ok(Utf8Data(offsets, text));
  }

  method DecodeColumn(bytes: seq<Byte>, base: nat, nrows: nat) returns (r: Outcome<Column>)
    ensures r == ColumnIn(bytes, base, nrows)
  {
    if base + COLDIR_LEN > |bytes| {
      return Err(TruncatedDirectory);
    }
    var e := EntryIn(bytes, base);
    var t :- TypeOf(e.dtype);
    var name :- Slice(bytes, e.name);
    if !Utf8Text.Valid(name) {
      return Err(NameNotUtf8);
    }
    var hasValidity := e.flags % 2 == 1;
    var validity := None;
    if hasValidity {
      var bits :- Slice(bytes, e.validity);
      validity := Some(bits);
    }
    var raw :- Slice(bytes, e.buf1);
    var data :- ReadPayload(t, raw, Slice(bytes, e.buf2), nrows);
    return Ok(Column(Field(name, t, hasValidity), nrows, validity, data));
  }

  method DecodeColumns(bytes: seq<Byte>, dirOff: nat, nrows: nat, ncols: nat) returns (r: Outcome<seq<Column>>)
    ensures r == ColumnsIn(bytes, dirOff, nrows, ncols)
  {
    var columns: seq<Column> := [];
    for i := 0 to ncols
      invariant ColumnsIn(bytes, dirOff, nrows, i) == Ok(columns)
    {
      var column := DecodeColumn(bytes, dirOff + i * COLDIR_LEN, nrows);
      ColumnStep(bytes, dirOff, nrows, i, columns, ncols, column);
      match column
      case Ok(last) => columns := columns + [last];
      case Err(e) => return Err(e);
      case Panic => return Panic;
    }
    return Ok(columns);
  }

  /** Decode a PCB byte buffer. */
  method Decode(bytes: seq<Byte>) returns (r: Outcome<Batch>)
    ensures r == BatchIn(bytes)
  {
    if |bytes| < HEADER_LEN {
      return Err(TooSmall);
    }
    if bytes[..4] != MAGIC {
      return Err(BadMagic);
    }
    var version := FromLe(bytes[4..6]);
    if version != VERSION {
      return Err(UnsupportedVersion(version));
    }
    var ncols, nrows, dirOff := U32At(bytes, 8), U32At(bytes, 12), U32At(bytes, 16);
    var columns :- DecodeColumns(bytes, dirOff, nrows, ncols);
    return Ok(Batch(FieldsOf(columns), nrows, columns));
  }

  lemma ColumnStep(bytes: seq<Byte>, dirOff: nat, nrows: nat, i: nat, init: seq<Column>, ncols: nat, column: Outcome<Column>)
    requires i < ncols && ColumnsIn(bytes, dirOff, nrows, i) == Ok(init)
    requires column == ColumnIn(bytes, dirOff + i * COLDIR_LEN, nrows)
    ensures match column
            case Ok(last) => ColumnsIn(bytes, dirOff, nrows, i + 1) == Ok(init + [last])
            case Err(e) => ColumnsIn(bytes, dirOff, nrows, ncols) == Err(e)
            case Panic => ColumnsIn(bytes, dirOff, nrows, ncols) == Panic
  {
    CollectStep(ColumnsAt(bytes, dirOff, nrows), i, init, ncols);
  }

  /** One more result: it extends those so far, or its failure is the outcome. */
  lemma CollectStep<T>(at: nat -> Outcome<T>, i: nat, init: seq<T>, n: nat)
    requires i < n && Collect(at, i) == Ok(init)
    ensures match at(i)
            case Ok(last) => Collect(at, i + 1) == Ok(init + [last])
            case Err(e) => Collect(at, n) == Err(e)
            case Panic => Collect(at, n) == Panic
  {
    FailureSticks(at, i + 1, n);
  }

  /** The first failure decides the outcome. */
  lemma {:induction false} FailureSticks<T>(at: nat -> Outcome<T>, i: nat, n: nat)
    requires i <= n
    ensures Collect(at, i).Err? ==> Collect(at, n) == Collect(at, i)
    ensures Collect(at, i).Panic? ==> Collect(at, n).Panic?
  {
    if i < n {
      FailureSticks(at, i, n - 1);
    }
  }

  // ---- round trip ----

  predicate PayloadSized(data: ColumnData, nrows: nat) {
    match data
    case Int64Data(v) => |v| == nrows
    case Float64Data(v) => |v| == nrows
    case BoolData(v) => |v| == nrows
    case Utf8Data(offsets, _) => |offsets| == nrows + 1 && forall i :: 0 <= i <= nrows ==> offsets[i] < TWO_TO_32
  }

  predicate WellFormedColumn(col: Column, nrows: nat) {
    && Utf8Text.Valid(col.field.name)
    && col.field.dataType == col.data.Type()
    && col.field.nullable == col.validity.Some?
    && col.len == nrows
    && PayloadSized(col.data, nrows)
  }

  predicate WellFormed(b: Batch) {
    && b.schema == FieldsOf(b.columns)
    && forall i :: 0 <= i < |b.columns| ==> WellFormedColumn(b.columns[i], b.numRows)
  }

  predicate SlotFits(s: Slot) { s.off < TWO_TO_32 && s.len < TWO_TO_32 }

  predicate EntryFits(e: Entry) {
    SlotFits(e.name) && SlotFits(e.validity) && SlotFits(e.buf1) && SlotFits(e.buf2)
  }

  function EntriesOf(b: Batch): (es: seq<Entry>)
    ensures |es| == |b.columns|
  {
    Entries(b.columns, NamesOff(|b.columns|), DataOff(b.columns))
  }

  /** Every number the encoder narrows to a u32 survives it. */
  predicate Fits(b: Batch) {
    && |b.columns| < TWO_TO_32 && b.numRows < TWO_TO_32
    && forall i :: 0 <= i < |b.columns| ==> EntryFits(EntriesOf(b)[i])
  }

  lemma EntryFields(e: Entry)
    requires EntryFits(e)
    ensures var bs := EntryBytes(e);
            && bs[8] == e.dtype && bs[9] == e.flags
            && SlotAt(bs, 0) == e.name && SlotAt(bs, 12) == e.validity
            && SlotAt(bs, 20) == e.buf1 && SlotAt(bs, 28) == e.buf2
  {
    var z := Zeros(COLDIR_LEN);
    var a := PutSlot(z, 0, e.name);
    var b := Put(a, 8, [e.dtype, e.flags]);
    var c := PutSlot(b, 12, e.validity);
    var d := PutSlot(c, 20, e.buf1);
    var bs := PutSlot(d, 28, e.buf2);
    assert bs == EntryBytes(e);
    assert bs[0..4] == a[0..4] && bs[4..8] == a[4..8];
    assert bs[12..16] == c[12..16] && bs[16..20] == c[16..20];
    assert bs[20..24] == d[20..24] && bs[24..28] == d[24..28];
    SlotRoundTrip(e.name);
    SlotRoundTrip(e.validity);
    SlotRoundTrip(e.buf1);
    SlotRoundTrip(e.buf2);
  }

  lemma SlotRoundTrip(s: Slot)
    requires SlotFits(s)
    ensures FromLe(Le(U32(s.off), 4)) == s.off && FromLe(Le(U32(s.len), 4)) == s.len
  {
    U32RoundTrip(s.off);
    U32RoundTrip(s.len);
  }

  lemma HeaderFields(ncols: nat, nrows: nat)
    requires ncols < TWO_TO_32 && nrows < TWO_TO_32
    ensures var bs := HeaderBytes(ncols, nrows);
            && bs[..4] == MAGIC && FromLe(bs[4..6]) == VERSION
            && U32At(bs, 8) == ncols && U32At(bs, 12) == nrows && U32At(bs, 16) == HEADER_LEN
  {
    var a := Put(Zeros(HEADER_LEN), 0, MAGIC);
    var version := Le(VERSION, 2);
    var b := Put(a, 4, version);
    var c := Put(b, 6, Le(0, 2));
    var d := PutU32(c, 8, ncols);
    var e := PutU32(d, 12, nrows);
    var bs := PutU32(e, 16, HEADER_LEN);
    assert bs == HeaderBytes(ncols, nrows);
    assert bs[..4] == a[0..4] == MAGIC;
    assert bs[4..6] == b[4..6] == version;
    assert bs[8..12] == d[8..12] && bs[12..16] == e[12..16];
    Pow256Values();
    LeRoundTrip(VERSION, 2);
    U32RoundTrip(ncols);
    U32RoundTrip(nrows);
    U32RoundTrip(HEADER_LEN);
  }

  /** Reading inside a shown part reads the part. */
  lemma SliceShown(out: seq<Byte>, base: nat, part: seq<Byte>, lo: nat, hi: nat)
    requires Shows(out, base, part) && lo <= hi <= |part|
    ensures out[base + lo..base + hi] == part[lo..hi]
  {
  }

  lemma {:induction false} FixedWidth(cells: seq<seq<Byte>>, w: nat)
    requires forall i :: 0 <= i < |cells| ==> |cells[i]| == w
    ensures |Flatten(cells)| == w * |cells|
  {
    if cells != [] {
      FixedWidth(cells[1..], w);
      assert w * |cells| == w + w * (|cells| - 1);
    }
  }

  lemma CellInside(cells: seq<seq<Byte>>, w: nat, r: nat)
    requires r < |cells| && forall i :: 0 <= i < |cells| ==> |cells[i]| == w
    ensures w * r + w <= |Flatten(cells)| && Flatten(cells)[w * r..w * r + w] == cells[r]
  {
    FixedWidth(cells[..r], w);
    FlattenSlice(cells, r);
  }

  lemma I64sRoundTrip(v: seq<I64>)
    ensures |Flatten(I64Cells(v))| == 8 * |v| && I64sIn(Flatten(I64Cells(v)), |v|) == v
  {
    FixedWidth(I64Cells(v), 8);
    var back := I64sIn(Flatten(I64Cells(v)), |v|);
    forall r | 0 <= r < |v| ensures back[r] == v[r] {
      CellInside(I64Cells(v), 8, r);
      U64RoundTrip(I64Bits(v[r]));
      I64BitsBack(v[r]);
    }
  }

  lemma F64sRoundTrip(v: seq<F64>)
    ensures |Flatten(F64Cells(v))| == 8 * |v| && F64sIn(Flatten(F64Cells(v)), |v|) == v
  {
    FixedWidth(F64Cells(v), 8);
    var back := F64sIn(Flatten(F64Cells(v)), |v|);
    forall r | 0 <= r < |v| ensures back[r] == v[r] {
      CellInside(F64Cells(v), 8, r);
      U64RoundTrip(v[r]);
    }
  }

  lemma U32sRoundTrip(v: seq<nat>)
    requires forall r :: 0 <= r < |v| ==> v[r] < TWO_TO_32
    ensures |Flatten(U32Cells(v))| == 4 * |v| && U32sIn(Flatten(U32Cells(v)), |v|) == v
  {
    FixedWidth(U32Cells(v), 4);
    var back := U32sIn(Flatten(U32Cells(v)), |v|);
    forall r | 0 <= r < |v| ensures back[r] == v[r] {
      CellInside(U32Cells(v), 4, r);
      U32RoundTrip(v[r]);
    }
  }

  lemma PayloadRoundTrip(data: ColumnData, nrows: nat, chars: Outcome<seq<Byte>>)
    requires PayloadSized(data, nrows)
    requires data.Utf8Data? ==> chars == Ok(data.chars)
    ensures PayloadIn(data.Type(), Buf1(data), chars, nrows) == Ok(data)
  {
    match data
    case Int64Data(v) => I64sRoundTrip(v);
    case Float64Data(v) => F64sRoundTrip(v);
    case BoolData(v) => UnpackPack(v);
    case Utf8Data(offsets, _) => U32sRoundTrip(offsets);
  }

  // ---- where each column's parts are ----

  function ColumnStart(cols: seq<Column>, i: nat, p: nat): nat
    requires i <= |cols|
  {
    EndOf(DataRegions(cols[..i], p), p)
  }

  lemma {:induction false} DataCount(cols: seq<Column>, p: nat)
    ensures |DataRegions(cols, p)| == 6 * |cols|
  {
    if cols != [] {
      DataCount(cols[..|cols| - 1], p);
    }
  }

  lemma SixOf(whole: seq<Region>, first: seq<Region>, last: seq<Region>, n: nat, i: nat)
    requires whole == first + last && |last| == 6 && |first| == 6 * n && i <= n
    ensures 6 * i + 6 <= |whole| && (i < n ==> 6 * i + 6 <= |first|)
    ensures whole[6 * i..6 * i + 6] == if i < n then first[6 * i..6 * i + 6] else last
  {
  }

  lemma DataSplit(cols: seq<Column>, p: nat)
    requires cols != []
    ensures DataRegions(cols, p) ==
            DataRegions(cols[..|cols| - 1], p) + ColumnRegions(cols[|cols| - 1], ColumnStart(cols, |cols| - 1, p))
  {
  }

  lemma {:induction false} ColumnSlice(cols: seq<Column>, p: nat, i: nat)
    requires i < |cols|
    ensures 6 * i + 6 <= |DataRegions(cols, p)|
    ensures DataRegions(cols, p)[6 * i..6 * i + 6] == ColumnRegions(cols[i], ColumnStart(cols, i, p))
  {
    var n := |cols| - 1;
    var init := cols[..n];
    DataCount(init, p);
    DataSplit(cols, p);
    SixOf(DataRegions(cols, p), DataRegions(init, p), ColumnRegions(cols[n], ColumnStart(cols, n, p)), n, i);
    if i < n {
      ColumnSlice(init, p, i);
      SameStart(cols, p, n, i);
    }
  }

  lemma SameStart(cols: seq<Column>, p: nat, n: nat, i: nat)
    requires i < n <= |cols|
    ensures cols[..n][i] == cols[i] && ColumnStart(cols[..n], i, p) == ColumnStart(cols, i, p)
  {
    assert cols[..n][..i] == cols[..i];
  }

  lemma DataRegionAt(cols: seq<Column>, p: nat, i: nat, k: nat)
    requires i < |cols| && k < 6
    ensures |DataRegions(cols, p)| == 6 * |cols|
    ensures DataRegions(cols, p)[6 * i + k] == ColumnRegions(cols[i], ColumnStart(cols, i, p))[k]
  {
    DataCount(cols, p);
    ColumnSlice(cols, p, i);
    assert DataRegions(cols, p)[6 * i..6 * i + 6][k] == DataRegions(cols, p)[6 * i + k];
  }

  lemma {:induction false} NameRegionAt(cols: seq<Column>, np: nat, i: nat)
    requires i < |cols|
    ensures NameRegions(cols, np)[i] == Region(EndOf(NameRegions(cols[..i], np), np), cols[i].field.name)
  {
    var init := cols[..|cols| - 1];
    if i < |init| {
      NameRegionAt(init, np, i);
      assert init[..i] == cols[..i];
    }
  }

  lemma {:induction false} EntryAt(cols: seq<Column>, np: nat, p: nat, i: nat)
    requires i < |cols|
    ensures Entries(cols, np, p)[i]
         == EntryOf(cols[i], Slot(EndOf(NameRegions(cols[..i], np), np), |cols[i].field.name|), ColumnStart(cols, i, p))
  {
    var init := cols[..|cols| - 1];
    if i < |init| {
      EntryAt(init, np, p, i);
      assert init[..i] == cols[..i];
    }
  }

  lemma TailIndex(names: seq<Region>, pad: Region, data: seq<Region>, end: Region, j: nat)
    ensures j < |names| ==> (names + [pad] + data + [end])[j] == names[j]
    ensures j < |data| ==> (names + [pad] + data + [end])[|names| + 1 + j] == data[j]
  {
  }

  lemma LaterShown(head: seq<Region>, tail: seq<Region>, j: nat)
    requires Tiled(head + tail, 0) && j < |tail|
    ensures ShowsRegion(BytesOf(head + tail), tail, j)
  {
    var rs := head + tail;
    assert rs[|head| + j] == tail[j];
    RegionHolds(rs, 0, |head| + j);
  }

  /** Region `j` after the directory shows in the image. */
  lemma TailShown(b: Batch, j: nat)
    requires j < |Tail(b.columns)|
    ensures ShowsRegion(Image(b), Tail(b.columns), j)
  {
    RegionsTile(b);
    LaterShown(Head(b), Tail(b.columns), j);
  }

  /** Region `k` of column `i`, among the regions after the directory. */
  lemma DataInTail(cols: seq<Column>, i: nat, k: nat) returns (j: nat)
    requires i < |cols| && k < 6
    ensures j < |Tail(cols)| && Tail(cols)[j] == ColumnRegions(cols[i], ColumnStart(cols, i, DataOff(cols)))[k]
  {
    var np := NamesOff(|cols|);
    var names, data := NameRegions(cols, np), DataRegions(cols, DataOff(cols));
    var at := 6 * i + k;
    DataRegionAt(cols, DataOff(cols), i, k);
    TailIndex(names, PadAt(EndOf(names, np)), data, PadAt(EndOf(data, DataOff(cols))), at);
    j := |names| + 1 + at;
  }

  lemma SameRegion(bytes: seq<Byte>, rs: seq<Region>, j: nat, qs: seq<Region>, k: nat)
    requires j < |rs| && k < |qs| && rs[j] == qs[k] && ShowsRegion(bytes, rs, j)
    ensures ShowsRegion(bytes, qs, k)
  {
  }

  /** Region `k` of column `i` shows in the image. */
  lemma DataShown(b: Batch, i: nat, k: nat)
    requires i < |b.columns| && k < 6
    ensures ShowsRegion(Image(b), ColumnRegions(b.columns[i], ColumnStart(b.columns, i, DataOff(b.columns))), k)
  {
    var j := DataInTail(b.columns, i, k);
    TailShown(b, j);
    SameRegion(Image(b), Tail(b.columns), j, ColumnRegions(b.columns[i], ColumnStart(b.columns, i, DataOff(b.columns))), k);
  }

  lemma NameShown(b: Batch, i: nat)
    requires i < |b.columns|
    ensures Shows(Image(b), EntriesOf(b)[i].name.off, b.columns[i].field.name)
    ensures EntriesOf(b)[i].name.len == |b.columns[i].field.name|
  {
    var np := NamesOff(|b.columns|);
    var names := NameRegions(b.columns, np);
    var data := DataRegions(b.columns, DataOff(b.columns));
    NameRegionAt(b.columns, np, i);
    EntryAt(b.columns, np, DataOff(b.columns), i);
    TailIndex(names, PadAt(EndOf(names, np)), data, PadAt(EndOf(data, DataOff(b.columns))), i);
    TailShown(b, i);
  }

  lemma DirectoryShown(header: Region, es: seq<Entry>, tail: seq<Region>, i: nat)
    requires Tiled([header] + DirRegions(es) + tail, 0) && i < |es|
    ensures Shows(BytesOf([header] + DirRegions(es) + tail), NamesOff(i), EntryBytes(es[i]))
  {
    var rs := [header] + DirRegions(es) + tail;
    var entry := DirRegions(es)[i];
    assert entry == Region(NamesOff(i), EntryBytes(es[i]));
    assert rs[1 + i] == entry;
    RegionHolds(rs, 0, 1 + i);
  }

  lemma EntryShown(b: Batch, i: nat)
    requires i < |b.columns|
    ensures Shows(Image(b), NamesOff(i), EntryBytes(EntriesOf(b)[i]))
  {
    RegionsTile(b);
    DirectoryShown(Region(0, HeaderBytes(|b.columns|, b.numRows)), EntriesOf(b), Tail(b.columns), i);
  }

  lemma HeaderShown(b: Batch)
    ensures Shows(Image(b), 0, HeaderBytes(|b.columns|, b.numRows))
  {
    RegionsTile(b);
    RegionHolds(Regions(b), 0, 0);
  }

  lemma SlotsRead(bytes: seq<Byte>, base: nat, e: Entry)
    requires Shows(bytes, base, EntryBytes(e)) && EntryFits(e)
    ensures bytes[base + 8] == e.dtype && bytes[base + 9] == e.flags
    ensures SlotAt(bytes, base) == e.name && SlotAt(bytes, base + 12) == e.validity
    ensures SlotAt(bytes, base + 20) == e.buf1 && SlotAt(bytes, base + 28) == e.buf2
  {
    EntryFields(e);
    var part := EntryBytes(e);
    SliceShown(bytes, base, part, 0, 4);
    SliceShown(bytes, base, part, 4, 8);
    SliceShown(bytes, base, part, 12, 16);
    SliceShown(bytes, base, part, 16, 20);
    SliceShown(bytes, base, part, 20, 24);
    SliceShown(bytes, base, part, 24, 28);
    SliceShown(bytes, base, part, 28, 32);
    SliceShown(bytes, base, part, 32, 36);
  }

  lemma SliceReads(bytes: seq<Byte>, off: nat, part: seq<Byte>)
    requires Shows(bytes, off, part)
    ensures Slice(bytes, Slot(off, |part|)) == Ok(part)
  {
    SliceShown(bytes, off, part, 0, |part|);
    assert part[0..|part|] == part;
  }

  /** The slots of the entry at `base` slice out a column's parts. */
  ghost predicate PartsAt(bytes: seq<Byte>, base: nat, col: Column) {
    && base + COLDIR_LEN <= |bytes|
    && bytes[base + 8] == TypeCode(col.field.dataType) && bytes[base + 9] == Flags(col)
    && Slice(bytes, SlotAt(bytes, base)) == Ok(col.field.name)
    && (col.validity.Some? ==> Slice(bytes, SlotAt(bytes, base + 12)) == Ok(col.validity.value))
    && Slice(bytes, SlotAt(bytes, base + 20)) == Ok(Buf1(col.data))
    && (col.data.Utf8Data? ==> Slice(bytes, SlotAt(bytes, base + 28)) == Ok(col.data.chars))
  }

  lemma ColumnFromParts(bytes: seq<Byte>, base: nat, col: Column, nrows: nat)
    requires WellFormedColumn(col, nrows) && PartsAt(bytes, base, col)
    ensures ColumnIn(bytes, base, nrows) == Ok(col)
  {
    PayloadRoundTrip(col.data, nrows, Slice(bytes, SlotAt(bytes, base + 28)));
  }

  lemma PartsRead(bytes: seq<Byte>, base: nat, col: Column, name: Slot, p: nat)
    requires EntryFits(EntryOf(col, name, p)) && Shows(bytes, base, EntryBytes(EntryOf(col, name, p)))
    requires name.len == |col.field.name| && Shows(bytes, name.off, col.field.name)
    requires forall k :: 0 <= k < 6 ==> ShowsRegion(bytes, ColumnRegions(col, p), k)
    ensures PartsAt(bytes, base, col)
  {
    var rs := ColumnRegions(col, p);
    SlotsRead(bytes, base, EntryOf(col, name, p));
    SliceReads(bytes, name.off, col.field.name);
    assert ShowsRegion(bytes, rs, 1) && ShowsRegion(bytes, rs, 3) && ShowsRegion(bytes, rs, 5);
    SliceReads(bytes, rs[1].off, rs[1].bytes);
    SliceReads(bytes, rs[3].off, rs[3].bytes);
    SliceReads(bytes, rs[5].off, rs[5].bytes);
  }

  lemma ColumnShown(b: Batch, i: nat, p: nat)
    requires i < |b.columns| && p == ColumnStart(b.columns, i, DataOff(b.columns))
    ensures var name := EntriesOf(b)[i].name;
            && EntriesOf(b)[i] == EntryOf(b.columns[i], name, p)
            && name.len == |b.columns[i].field.name| && Shows(Image(b), name.off, b.columns[i].field.name)
    ensures forall k :: 0 <= k < 6 ==> ShowsRegion(Image(b), ColumnRegions(b.columns[i], p), k)
  {
    EntryAt(b.columns, NamesOff(|b.columns|), DataOff(b.columns), i);
    NameShown(b, i);
    forall k | 0 <= k < 6 ensures ShowsRegion(Image(b), ColumnRegions(b.columns[i], p), k) {
      DataShown(b, i, k);
    }
  }

  /** In the image, every directory entry leads to its column's parts. */
  lemma PartsShown(b: Batch, i: nat)
    requires Fits(b) && i < |b.columns|
    ensures PartsAt(Image(b), NamesOff(i), b.columns[i])
  {
    var p := ColumnStart(b.columns, i, DataOff(b.columns));
    ColumnShown(b, i, p);
    EntryShown(b, i);
    assert EntryFits(EntriesOf(b)[i]);
    PartsRead(Image(b), NamesOff(i), b.columns[i], EntriesOf(b)[i].name, p);
  }

  lemma {:induction false} CollectAll<T>(at: nat -> Outcome<T>, vs: seq<T>, n: nat)
    requires n <= |vs| && forall i: nat :: i < |vs| ==> at(i) == Ok(vs[i])
    ensures Collect(at, n) == Ok(vs[..n])
  {
    if n > 0 {
      CollectAll(at, vs, n - 1);
      assert vs[..n] == vs[..n - 1] + [vs[n - 1]];
    }
  }

  ghost predicate EachPartAt(bytes: seq<Byte>, cols: seq<Column>) {
    forall i: nat :: i < |cols| ==> PartsAt(bytes, NamesOff(i), cols[i])
  }

  lemma ColumnsFromParts(bytes: seq<Byte>, cols: seq<Column>, nrows: nat)
    requires EachPartAt(bytes, cols) && forall i :: 0 <= i < |cols| ==> WellFormedColumn(cols[i], nrows)
    ensures ColumnsIn(bytes, HEADER_LEN, nrows, |cols|) == Ok(cols)
  {
    var at := ColumnsAt(bytes, HEADER_LEN, nrows);
    forall i: nat | i < |cols| ensures at(i) == Ok(cols[i]) {
      ColumnFromParts(bytes, NamesOff(i), cols[i], nrows);
    }
    CollectAll(at, cols, |cols|);
    assert cols[..|cols|] == cols;
  }

  lemma BatchFrom(bytes: seq<Byte>, b: Batch)
    requires |b.columns| < TWO_TO_32 && b.numRows < TWO_TO_32 && WellFormed(b)
    requires Shows(bytes, 0, HeaderBytes(|b.columns|, b.numRows))
    requires EachPartAt(bytes, b.columns)
    ensures BatchIn(bytes) == Ok(b)
  {
    assert HeaderAt(bytes, |b.columns|, b.numRows) by {
      HeaderRead(bytes, |b.columns|, b.numRows);
    }
    assert ColumnsIn(bytes, HEADER_LEN, b.numRows, |b.columns|) == Ok(b.columns) by {
      ColumnsFromParts(bytes, b.columns, b.numRows);
    }
  }

  ghost predicate HeaderAt(bytes: seq<Byte>, ncols: nat, nrows: nat) {
    && HEADER_LEN <= |bytes| && bytes[..4] == MAGIC && FromLe(bytes[4..6]) == VERSION
    && U32At(bytes, 8) == ncols && U32At(bytes, 12) == nrows && U32At(bytes, 16) == HEADER_LEN
  }

  lemma HeaderRead(bytes: seq<Byte>, ncols: nat, nrows: nat)
    requires ncols < TWO_TO_32 && nrows < TWO_TO_32 && Shows(bytes, 0, HeaderBytes(ncols, nrows))
    ensures HeaderAt(bytes, ncols, nrows)
  {
    var part := HeaderBytes(ncols, nrows);
    HeaderFields(ncols, nrows);
    SliceShown(bytes, 0, part, 0, 4);
    SliceShown(bytes, 0, part, 4, 6);
    SliceShown(bytes, 0, part, 8, 12);
    SliceShown(bytes, 0, part, 12, 16);
    SliceShown(bytes, 0, part, 16, 20);
  }

  lemma ImageDecodes(b: Batch)
    requires WellFormed(b) && Fits(b)
    ensures BatchIn(Image(b)) == Ok(b)
  {
    HeaderShown(b);
    forall i: nat | i < |b.columns| ensures PartsAt(Image(b), NamesOff(i), b.columns[i]) {
      PartsShown(b, i);
    }
    assert EachPartAt(Image(b), b.columns);
    BatchFrom(Image(b), b);
  }

  /** Under the u32 limits, decoding an encoded batch gives the batch back, for exactly the well-formed batches. */
  lemma RoundTrip(b: Batch)
    requires Fits(b)
    ensures BatchIn(Image(b)) == Ok(b) <==> WellFormed(b)
  {
    if WellFormed(b) {
      ImageDecodes(b);
    } else if BatchIn(Image(b)) == Ok(b) {
      DecodedWellFormed(Image(b), b);
    }
  }

  lemma ColumnInWellFormed(bytes: seq<Byte>, base: nat, nrows: nat)
    ensures var r := ColumnIn(bytes, base, nrows);
            r.Ok? ==> WellFormedColumn(r.value, nrows)
  {
    var r := ColumnIn(bytes, base, nrows);
    if r.Ok? && r.value.data.Utf8Data? {
      forall i | 0 <= i <= nrows ensures r.value.data.offsets[i] < TWO_TO_32 {
        var raw := Slice(bytes, SlotAt(bytes, base + 20)).value;
        FromLeBound(raw[4 * i..4 * i + 4]);
        Pow256Values();
      }
    }
  }

  lemma {:induction false} CollectEach<T>(at: nat -> Outcome<T>, n: nat)
    ensures Collect(at, n).Ok? ==> |Collect(at, n).value| == n
    ensures Collect(at, n).Ok? ==> forall i: nat :: i < n ==> at(i) == Ok(Collect(at, n).value[i])
  {
    if n > 0 {
      CollectEach(at, n - 1);
    }
  }

  lemma ColumnsInWellFormed(bytes: seq<Byte>, dirOff: nat, nrows: nat, n: nat, cols: seq<Column>)
    requires ColumnsIn(bytes, dirOff, nrows, n) == Ok(cols)
    ensures forall i :: 0 <= i < |cols| ==> WellFormedColumn(cols[i], nrows)
  {
    var at := ColumnsAt(bytes, dirOff, nrows);
    CollectEach(at, n);
    forall i: nat | i < |cols| ensures WellFormedColumn(cols[i], nrows) {
      assert at(i) == Ok(cols[i]);
      ColumnInWellFormed(bytes, dirOff + i * COLDIR_LEN, nrows);
    }
  }

  /** Whatever decodes is well-formed, with a row count that fits a u32. */
  lemma DecodedWellFormed(bytes: seq<Byte>, b: Batch)
    requires BatchIn(bytes) == Ok(b)
    ensures WellFormed(b) && b.numRows < TWO_TO_32
  {
    ColumnsInWellFormed(bytes, U32At(bytes, 16), U32At(bytes, 12), U32At(bytes, 8), b.columns);
    FromLeBound(bytes[12..16]);
    Pow256Values();
  }
}
