/** The PCB format byte by byte, independent of the encoder's regions and the decoder's readers (schema.rs, codec.rs). */
module PcbLayout {
  import opened Bytes
  import opened Bitmaps
  import opened Columns
  import opened Pcb
  import opened PcbDecode
  import Utf8Text

  // ---- the format ----

  /** A little-endian u32. */
  function Word(out: seq<Byte>, at: nat): nat
    requires at + 4 <= |out|
  {
    var a: int, b: int, c: int, d: int := out[at], out[at + 1], out[at + 2], out[at + 3];
    a + 0x100 * b + 0x1_0000 * c + 0x100_0000 * d
  }

  /** A little-endian u64. */
  function Long(out: seq<Byte>, at: nat): nat
    requires at + 8 <= |out|
  {
    Word(out, at) + 0x1_0000_0000 * Word(out, at + 4)
  }

  const BIT_VALUES: seq<nat> := [1, 2, 4, 8, 16, 32, 64, 128]

  /** Bit 0 is the lowest. */
  predicate Bit(b: Byte, k: nat)
    requires k < 8
  {
    b / BIT_VALUES[k] % 2 == 1
  }

  predicate Zero(out: seq<Byte>, lo: nat, hi: nat)
    requires hi <= |out|
  {
    forall x :: lo <= x < hi ==> out[x] == 0
  }

  predicate PayloadLaid(raw: seq<Byte>, data: ColumnData) {
    match data
    case Int64Data(v) =>
      |raw| == 8 * |v| &&
      forall r :: 0 <= r < |v| ==> Long(raw, 8 * r) as int == v[r] as int + if v[r] < 0 then 0x1_0000_0000_0000_0000 else 0
    case Float64Data(v) => |raw| == 8 * |v| && forall r :: 0 <= r < |v| ==> Long(raw, 8 * r) == v[r]
    case BoolData(v) =>
      |raw| == (|v| + 7) / 8 && forall k :: 0 <= k < 8 * |raw| ==> Bit(raw[k / 8], k % 8) == (k < |v| && v[k])
    case Utf8Data(offsets, _) =>
      |raw| == 4 * |offsets| && forall r :: 0 <= r < |offsets| ==> Word(raw, 4 * r) == offsets[r] % 0x1_0000_0000
  }

  /** What lies at the offset and of the length that the two u32 at `at` give. */
  function Referred(out: seq<Byte>, at: nat): Option<seq<Byte>>
    requires at + 8 <= |out|
  {
    var off, len := Word(out, at), Word(out, at + 4);
    if off + len <= |out| then Some(out[off..off + len]) else None
  }

  predicate Ascii(chars: seq<Byte>) { forall k :: 0 <= k < |chars| ==> chars[k] < 128 }

  /** A directory entry of 40 bytes, and the parts of the column it leads to. */
  predicate ColumnLaid(out: seq<Byte>, at: nat, col: Column) {
    && at + 40 <= |out|
    && Referred(out, at) == Some(col.field.name)
    && out[at + 8] == (match col.field.dataType case Int64 => 0 case Float64 => 1 case Bool => 2 case Utf8 => 3)
    && out[at + 9] == (if col.validity.Some? then 1 else 0)
                      + (if col.data.Utf8Data? && Ascii(col.data.chars) then 2 else 0)
    && Zero(out, at + 10, at + 12)
    && (if col.validity.Some? then Word(out, at + 12) % 8 == 0 && Referred(out, at + 12) == col.validity
        else Zero(out, at + 12, at + 20))
    && Word(out, at + 20) % 8 == 0 && Referred(out, at + 20).Some?
    && PayloadLaid(Referred(out, at + 20).value, col.data)
    && (if col.data.Utf8Data? then Word(out, at + 28) % 8 == 0 && Referred(out, at + 28) == Some(col.data.chars)
        else Zero(out, at + 28, at + 36))
    && Zero(out, at + 36, at + 40)
  }

  /** Magic "PCB1", version 1, counts, the directory behind a header of 24 bytes. */
  predicate HeaderLaid(out: seq<Byte>, ncols: nat, nrows: nat) {
    && 24 <= |out|
    && out[0] == 80 && out[1] == 67 && out[2] == 66 && out[3] == 49
    && out[4] == 1 && Zero(out, 5, 8)
    && Word(out, 8) == ncols && Word(out, 12) == nrows && Word(out, 16) == 24
    && Zero(out, 20, 24)
  }

  /** `out` is the batch on the wire. */
  ghost predicate Laid(out: seq<Byte>, b: Batch) {
    && |out| % 8 == 0
    && HeaderLaid(out, |b.columns|, b.numRows)
    && forall i: nat :: i < |b.columns| ==> EntryHolds(out, i, b.columns[i])
  }

  ghost predicate EntryHolds(out: seq<Byte>, i: nat, col: Column) { ColumnLaid(out, 24 + 40 * i, col) }

  // ---- numbers and bits ----

  lemma WordIs(out: seq<Byte>, at: nat)
    requires at + 4 <= |out|
    ensures Word(out, at) == FromLe(out[at..at + 4]) == U32At(out, at)
  {
    var bs := out[at..at + 4];
    assert bs[1..][1..][1..][1..] == [];
    assert FromLe(bs[1..][1..][1..]) == bs[3];
    assert FromLe(bs[1..][1..]) == bs[2] + 256 * FromLe(bs[1..][1..][1..]);
    assert FromLe(bs[1..]) == bs[1] + 256 * FromLe(bs[1..][1..]);
  }

  lemma {:induction false} FromLeConcat(a: seq<Byte>, b: seq<Byte>)
    ensures FromLe(a + b) == FromLe(a) + Pow256(|a|) * FromLe(b)
  {
    if a == [] {
      assert a + b == b;
    } else {
      FromLeConcat(a[1..], b);
      assert (a + b)[1..] == a[1..] + b;
      Distribute(a[0], FromLe(a[1..]), Pow256(|a| - 1), FromLe(b));
    }
  }

  lemma Distribute(x: nat, y: nat, p: nat, z: nat)
    ensures x + 256 * (y + p * z) == x + 256 * y + (256 * p) * z
  {
  }

  lemma LongIs(out: seq<Byte>, at: nat)
    requires at + 8 <= |out|
    ensures Long(out, at) == FromLe(out[at..at + 8])
  {
    WordIs(out, at);
    WordIs(out, at + 4);
    assert out[at..at + 8] == out[at..at + 4] + out[at + 4..at + 8];
    FromLeConcat(out[at..at + 4], out[at + 4..at + 8]);
    Pow256Values();
  }

  lemma HalfOf(n: nat, k: nat)
    requires k < 7
    ensures n / 2 / BIT_VALUES[k] == n / BIT_VALUES[k + 1]
  {
    if k == 0 {
      assert n / 2 / 1 == n / 2;
    } else if k == 1 {
      assert n / 2 / 2 == n / 4;
    } else if k == 2 {
      assert n / 2 / 4 == n / 8;
    } else if k == 3 {
      assert n / 2 / 8 == n / 16;
    } else if k == 4 {
      assert n / 2 / 16 == n / 32;
    } else if k == 5 {
      assert n / 2 / 32 == n / 64;
    } else {
      assert n / 2 / 64 == n / 128;
    }
  }

  lemma {:induction false} BitIs(b: nat, k: nat)
    requires k < 8
    ensures TestBit(b, k) == (b / BIT_VALUES[k] % 2 == 1)
  {
    if k > 0 {
      BitIs(b / 2, k - 1);
      HalfOf(b, k - 1);
    } else {
      assert b / 1 == b;
    }
  }

  lemma {:induction false} FromLeInjective(a: seq<Byte>, b: seq<Byte>)
    requires |a| == |b| && FromLe(a) == FromLe(b)
    ensures a == b
  {
    if a != [] {
      FromLeInjective(a[1..], b[1..]);
      assert a == [a[0]] + a[1..] && b == [b[0]] + b[1..];
    }
  }

  // ---- payloads ----

  lemma I64Laid(v: seq<I64>)
    ensures PayloadLaid(Flatten(I64Cells(v)), Int64Data(v))
  {
    var raw := Flatten(I64Cells(v));
    FixedWidth(I64Cells(v), 8);
    forall r | 0 <= r < |v| ensures Long(raw, 8 * r) == I64Bits(v[r]) {
      CellInside(I64Cells(v), 8, r);
      LongIs(raw, 8 * r);
      U64RoundTrip(I64Bits(v[r]));
    }
  }

  lemma F64Laid(v: seq<F64>)
    ensures PayloadLaid(Flatten(F64Cells(v)), Float64Data(v))
  {
    var raw := Flatten(F64Cells(v));
    FixedWidth(F64Cells(v), 8);
    forall r | 0 <= r < |v| ensures Long(raw, 8 * r) == v[r] {
      CellInside(F64Cells(v), 8, r);
      LongIs(raw, 8 * r);
      U64RoundTrip(v[r]);
    }
  }

  lemma U32Laid(v: seq<nat>, chars: seq<Byte>)
    ensures PayloadLaid(Flatten(U32Cells(v)), Utf8Data(v, chars))
  {
    var raw := Flatten(U32Cells(v));
    FixedWidth(U32Cells(v), 4);
    forall r | 0 <= r < |v| ensures Word(raw, 4 * r) == U32(v[r]) {
      CellInside(U32Cells(v), 4, r);
      WordIs(raw, 4 * r);
      U32RoundTrip(v[r]);
    }
  }

  lemma BoolLaidIff(raw: seq<Byte>, v: seq<bool>)
    ensures PayloadLaid(raw, BoolData(v)) <==> Packs(raw, v)
  {
    forall k: nat | k < 8 * |raw| ensures BitAt(raw, k) == Bit(raw[k / 8], k % 8) {
      BitIs(raw[k / 8], k % 8);
    }
    if PayloadLaid(raw, BoolData(v)) {
      forall k | 0 <= k < 8 * |raw| ensures BitAt(raw, k) == (k < |v| && v[k]) {
        assert Bit(raw[k / 8], k % 8) == (k < |v| && v[k]);
      }
    }
    if Packs(raw, v) {
      forall k | 0 <= k < 8 * |raw| ensures Bit(raw[k / 8], k % 8) == (k < |v| && v[k]) {
        assert BitAt(raw, k) == (k < |v| && v[k]);
      }
    }
  }

  lemma SameLongs(a: seq<Byte>, b: seq<Byte>, n: nat)
    requires |a| == |b| == 8 * n && forall r :: 0 <= r < n ==> Long(a, 8 * r) == Long(b, 8 * r)
    ensures a == b
  {
    forall x | 0 <= x < |a| ensures a[x] == b[x] {
      var at := 8 * (x / 8);
      assert Long(a, 8 * (x / 8)) == Long(b, 8 * (x / 8));
      LongIs(a, at);
      LongIs(b, at);
      FromLeInjective(a[at..at + 8], b[at..at + 8]);
      assert a[x] == a[at..at + 8][x - at] && b[x] == b[at..at + 8][x - at];
    }
  }

  lemma SameWords(a: seq<Byte>, b: seq<Byte>, n: nat)
    requires |a| == |b| == 4 * n && forall r :: 0 <= r < n ==> Word(a, 4 * r) == Word(b, 4 * r)
    ensures a == b
  {
    forall x | 0 <= x < |a| ensures a[x] == b[x] {
      var at := 4 * (x / 4);
      assert Word(a, 4 * (x / 4)) == Word(b, 4 * (x / 4));
      WordIs(a, at);
      WordIs(b, at);
      FromLeInjective(a[at..at + 4], b[at..at + 4]);
      assert a[x] == a[at..at + 4][x - at] && b[x] == b[at..at + 4][x - at];
    }
  }

  /** The format leaves no choice: the payload is the encoder's buffer. */
  lemma PayloadLaidIff(raw: seq<Byte>, data: ColumnData)
    ensures PayloadLaid(raw, data) <==> raw == Buf1(data)
  {
    match data
    case Int64Data(v) =>
      I64Laid(v);
      if PayloadLaid(raw, data) { SameLongs(raw, Buf1(data), |v|); }
    case Float64Data(v) =>
      F64Laid(v);
      if PayloadLaid(raw, data) { SameLongs(raw, Buf1(data), |v|); }
    case BoolData(v) =>
      PackPacks(v);
      BoolLaidIff(raw, v);
      if Packs(raw, v) { PacksUnique(raw, Pack(v), v); }
    case Utf8Data(offsets, chars) =>
      U32Laid(offsets, chars);
      if PayloadLaid(raw, data) { SameWords(raw, Buf1(data), |offsets|); }
  }

  // ---- the image is laid out so ----

  lemma ReferredIs(out: seq<Byte>, at: nat)
    requires at + 8 <= |out|
    ensures Referred(out, at) == match Slice(out, SlotAt(out, at)) case Ok(part) => Some(part) case _ => None
  {
    WordIs(out, at);
    WordIs(out, at + 4);
  }

  lemma SlotZero(out: seq<Byte>, at: nat)
    requires at + 8 <= |out| && SlotAt(out, at) == Slot(0, 0)
    ensures Zero(out, at, at + 8)
  {
    WordIs(out, at);
    WordIs(out, at + 4);
  }

  lemma SpareBytes(e: Entry)
    ensures Zero(EntryBytes(e), 10, 12) && Zero(EntryBytes(e), 36, 40)
  {
  }

  lemma HeaderSpare(ncols: nat, nrows: nat)
    ensures var bs := HeaderBytes(ncols, nrows); bs[4] == 1 && Zero(bs, 5, 8) && Zero(bs, 20, 24)
  {
  }

  lemma Aligned(col: Column, name: Slot, p: nat)
    ensures var e := EntryOf(col, name, p);
            && (col.validity.Some? ==> e.validity.off % 8 == 0) && (col.validity.None? ==> e.validity == Slot(0, 0))
            && e.buf1.off % 8 == 0
            && (col.data.Utf8Data? ==> e.buf2.off % 8 == 0) && (!col.data.Utf8Data? ==> e.buf2 == Slot(0, 0))
  {
  }

  /** An optional buffer and its slot. */
  lemma OptionalLaid(out: seq<Byte>, at: nat, slot: Slot, part: Option<seq<Byte>>)
    requires at + 8 <= |out| && SlotAt(out, at) == slot
    requires if part.Some? then slot.off % 8 == 0 && Slice(out, slot) == Ok(part.value) else slot == Slot(0, 0)
    ensures if part.Some? then Word(out, at) % 8 == 0 && Referred(out, at) == part else Zero(out, at, at + 8)
  {
    ReferredIs(out, at);
    WordIs(out, at);
    if part.None? { SlotZero(out, at); }
  }

  lemma SpareShown(out: seq<Byte>, at: nat, e: Entry)
    requires Shows(out, at, EntryBytes(e))
    ensures Zero(out, at + 10, at + 12) && Zero(out, at + 36, at + 40)
  {
    SpareBytes(e);
    assert forall x :: at <= x < at + 40 ==> out[x] == EntryBytes(e)[x - at];
  }

  lemma FlagsAre(col: Column)
    ensures Flags(col) as int == (if col.validity.Some? then 1 else 0)
                                 + (if col.data.Utf8Data? && Ascii(col.data.chars) then 2 else 0)
  {
  }

  lemma EntryLaid(out: seq<Byte>, at: nat, col: Column, name: Slot, p: nat)
    requires EntryFits(EntryOf(col, name, p)) && Shows(out, at, EntryBytes(EntryOf(col, name, p)))
    requires PartsAt(out, at, col)
    ensures ColumnLaid(out, at, col)
  {
    var e := EntryOf(col, name, p);
    SlotsRead(out, at, e);
    Aligned(col, name, p);
    SpareShown(out, at, e);
    FlagsAre(col);
    ReferredIs(out, at);
    OptionalLaid(out, at + 12, e.validity, col.validity);
    OptionalLaid(out, at + 20, e.buf1, Some(Buf1(col.data)));
    OptionalLaid(out, at + 28, e.buf2, if col.data.Utf8Data? then Some(col.data.chars) else None);
    PayloadLaidIff(Buf1(col.data), col.data);
  }

  lemma HeaderOfImage(out: seq<Byte>, ncols: nat, nrows: nat)
    requires ncols < TWO_TO_32 && nrows < TWO_TO_32 && Shows(out, 0, HeaderBytes(ncols, nrows))
    ensures HeaderLaid(out, ncols, nrows)
  {
    HeaderRead(out, ncols, nrows);
    HeaderSpare(ncols, nrows);
    assert out[..4][0] == out[0] && out[..4][1] == out[1] && out[..4][2] == out[2] && out[..4][3] == out[3];
    WordIs(out, 8);
    WordIs(out, 12);
    WordIs(out, 16);
    assert forall x :: 0 <= x < 24 ==> out[x] == HeaderBytes(ncols, nrows)[x];
  }

  lemma EntryHeld(out: seq<Byte>, i: nat, col: Column, e: Entry, p: nat)
    requires e == EntryOf(col, e.name, p) && EntryFits(e) && Shows(out, NamesOff(i), EntryBytes(e))
    requires PartsAt(out, NamesOff(i), col)
    ensures EntryHolds(out, i, col)
  {
    assert NamesOff(i) == 24 + 40 * i;
    EntryLaid(out, NamesOff(i), col, e.name, p);
  }

  lemma ImageColumnLaid(b: Batch, i: nat)
    requires PcbDecode.Fits(b) && i < |b.columns|
    ensures EntryHolds(Image(b), i, b.columns[i])
  {
    var p, e := ColumnStart(b.columns, i, DataOff(b.columns)), EntriesOf(b)[i];
    assert e == EntryOf(b.columns[i], e.name, p) by { ColumnShown(b, i, p); }
    assert Shows(Image(b), NamesOff(i), EntryBytes(e)) by { EntryShown(b, i); }
    assert PartsAt(Image(b), NamesOff(i), b.columns[i]) by { PartsShown(b, i); }
    assert EntryFits(e);
    EntryHeld(Image(b), i, b.columns[i], e, p);
  }

  /** What the encoder writes, byte by byte. */
  lemma ImageLaid(b: Batch)
    requires PcbDecode.Fits(b)
    ensures Laid(Image(b), b)
  {
    RegionsTile(b);
    HeaderShown(b);
    HeaderOfImage(Image(b), |b.columns|, b.numRows);
    forall i: nat | i < |b.columns| ensures EntryHolds(Image(b), i, b.columns[i]) {
      ImageColumnLaid(b, i);
    }
  }

  // ---- whatever is laid out so decodes ----

  lemma PartsFromLaid(out: seq<Byte>, at: nat, col: Column)
    requires ColumnLaid(out, at, col)
    ensures PartsAt(out, at, col)
  {
    ReferredIs(out, at);
    ReferredIs(out, at + 12);
    ReferredIs(out, at + 20);
    ReferredIs(out, at + 28);
    PayloadLaidIff(Referred(out, at + 20).value, col.data);
  }

  lemma EachFromLaid(out: seq<Byte>, b: Batch)
    requires Laid(out, b)
    ensures EachPartAt(out, b.columns)
  {
    forall i: nat | i < |b.columns| ensures PartsAt(out, NamesOff(i), b.columns[i]) {
      assert NamesOff(i) == 24 + 40 * i;
      assert EntryHolds(out, i, b.columns[i]);
      PartsFromLaid(out, 24 + 40 * i, b.columns[i]);
    }
  }

  /** Any bytes that hold a well-formed batch decode to it, whoever wrote them and wherever its parts lie. */
  lemma LaidDecodes(out: seq<Byte>, b: Batch)
    requires Laid(out, b) && WellFormed(b)
    ensures BatchIn(out) == Ok(b)
  {
    EachFromLaid(out, b);
    assert ColumnsIn(out, HEADER_LEN, b.numRows, |b.columns|) == Ok(b.columns) by {
      ColumnsFromParts(out, b.columns, b.numRows);
    }
    HeaderFromLaid(out, |b.columns|, b.numRows);
  }

  lemma TwoBytes(a: Byte, b: Byte)
    ensures FromLe([a, b]) == a as int + 256 * (b as int)
  {
    assert [a, b][1..] == [b] && [b][1..] == [] && FromLe([]) == 0;
    assert FromLe([b]) == b as int + 256 * FromLe([]);
  }

  lemma HeaderFromLaid(out: seq<Byte>, ncols: nat, nrows: nat)
    requires HeaderLaid(out, ncols, nrows)
    ensures HeaderAt(out, ncols, nrows)
  {
    WordIs(out, 8);
    WordIs(out, 12);
    WordIs(out, 16);
    TwoBytes(out[4], out[5]);
    assert out[4..6] == [out[4], out[5]] && FromLe(out[4..6]) == 1;
    assert out[..4] == [out[0], out[1], out[2], out[3]];
  }

  // ---- what the decoder refuses ----

  /** Too short for a header, another magic, another version; then, of the first entry, one that does not fit, an unknown
      type, a name or a buffer that lies outside. */
  lemma DecodeRefuses(out: seq<Byte>)
    ensures |out| < 24 ==> BatchIn(out) == Err(TooSmall)
    ensures |out| >= 24 && !(out[0] == 80 && out[1] == 67 && out[2] == 66 && out[3] == 49) ==> BatchIn(out) == Err(BadMagic)
    ensures |out| >= 24 && out[0] == 80 && out[1] == 67 && out[2] == 66 && out[3] == 49 && !(out[4] == 1 && out[5] == 0) ==>
              BatchIn(out) == Err(UnsupportedVersion(out[4] as int + 256 * (out[5] as int)))
  {
    if |out| >= 24 {
      assert out[..4] == [out[0], out[1], out[2], out[3]];
      assert out[4..6] == [out[4], out[5]];
      TwoBytes(out[4], out[5]);
    }
  }

  lemma EntryRefused(out: seq<Byte>, base: nat, nrows: nat)
    ensures base + 40 > |out| ==> ColumnIn(out, base, nrows) == Err(TruncatedDirectory)
    ensures base + 40 <= |out| && out[base + 8] > 3 ==> ColumnIn(out, base, nrows) == Err(UnsupportedType(out[base + 8]))
    ensures base + 40 <= |out| && out[base + 8] <= 3 && Referred(out, base).None? ==>
              ColumnIn(out, base, nrows) == Err(OutOfRange(Slot(Word(out, base), Word(out, base + 4))))
    ensures base + 40 <= |out| && out[base + 8] <= 3 && Referred(out, base).Some? && !Utf8Text.Valid(Referred(out, base).value) ==>
              ColumnIn(out, base, nrows) == Err(NameNotUtf8)
  {
    if base + 40 <= |out| {
      ReferredIs(out, base);
      WordIs(out, base);
      WordIs(out, base + 4);
    }
  }

  /** A buffer that is there but too short for the rows is indexed beyond its end. */
  lemma ShortPayload(t: DataType, raw: seq<Byte>, chars: Outcome<seq<Byte>>, nrows: nat)
    ensures (t == Int64 || t == Float64) && |raw| < 8 * nrows ==> PayloadIn(t, raw, chars, nrows) == Panic
    ensures t == Bool && |raw| < (nrows + 7) / 8 ==> PayloadIn(t, raw, chars, nrows) == Panic
    ensures t == Utf8 && |raw| < 4 * (nrows + 1) ==> PayloadIn(t, raw, chars, nrows) == Panic
    ensures t == Utf8 && |raw| >= 4 * (nrows + 1) && chars.Err? ==> PayloadIn(t, raw, chars, nrows) == Err(chars.error)
  {
  }
}
