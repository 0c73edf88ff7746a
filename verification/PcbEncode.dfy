/** `encode`: grows the buffer region by region, then patches header and directory in place. */
module PcbEncode {
  import opened Bytes
  import opened Bitmaps
  import opened Columns
  import opened Pcb
  import PcbDecode
  import PcbLayout
  import Utf8Text

  /** `align8` */
  method Align8(v: seq<Byte>) returns (out: seq<Byte>)
    ensures out == v + PadAt(|v|).bytes
  {
    out := v;
    while |out| % 8 != 0
      invariant |v| <= |out| <= |v| + Gap(|v|)
      invariant out == v + Zeros(|out| - |v|)
      decreases |v| + Gap(|v|) - |out|
    {
      out := out + [0];
    }
  }

  /** The packed flags so far: whole bytes, plus the byte being filled. */
  function Pending(out: seq<Byte>, byte: Byte, j: nat): seq<Byte> {
    if j % 8 == 0 then out else out + [byte]
  }

  /** One flag into the byte being filled; the byte is flushed when its eighth bit is in. */
  method PackOne(out: seq<Byte>, byte: Byte, j: nat, flag: bool) returns (out': seq<Byte>, byte': Byte)
    requires |out| == j / 8 && (j % 8 == 0 ==> byte == 0)
    ensures |out'| == (j + 1) / 8 && ((j + 1) % 8 == 0 ==> byte' == 0)
    ensures Pending(out', byte', j + 1) == PushBit(Pending(out, byte, j), j, flag)
  {
    Pow2Eight();
    BitBounds(byte, j % 8, 8);
    byte' := if flag then SetBit(byte, j % 8) else byte;
    assert out + [byte'] == PushBit(Pending(out, byte, j), j, flag);
    if j % 8 == 7 {
      out', byte' := out + [byte'], 0;
      assert (j + 1) % 8 == 0;
    } else {
      out' := out;
      assert (j + 1) % 8 != 0 && (j + 1) / 8 == j / 8;
    }
  }

  lemma PackStep(flags: seq<bool>, j: nat)
    requires j < |flags|
    ensures Pack(flags[..j + 1]) == PushBit(Pack(flags[..j]), j, flags[j])
  {
    assert flags[..j + 1][..j] == flags[..j];
  }

  /** Eight flags to a byte, and a partial last byte flushed at the end. */
  method PackBools(values: seq<bool>) returns (out: seq<Byte>)
    ensures out == Pack(values)
  {
    out := [];
    var byte: Byte := 0;
    for j := 0 to |values|
      invariant |out| == j / 8 && (j % 8 == 0 ==> byte == 0)
      invariant Pending(out, byte, j) == Pack(values[..j])
    {
      PackStep(values, j);
      out, byte := PackOne(out, byte, j, values[j]);
    }
    if |values| % 8 != 0 {
      out := out + [byte];
    }
    assert values[..|values|] == values;
  }

  /** `extend_le!` on 64-bit values: one loop, the bytes of each value in order. */
  method ExtendCells(v: seq<Byte>, cells: seq<seq<Byte>>) returns (out: seq<Byte>)
    ensures out == v + Flatten(cells)
  {
    out := v;
    for i := 0 to |cells|
      invariant out == v + Flatten(cells[..i])
    {
      FlattenSnoc(cells[..i], cells[i]);
      assert cells[..i + 1] == cells[..i] + [cells[i]];
      out := out + cells[i];
    }
    assert cells[..|cells|] == cells;
  }

  method AppendBuf1(v: seq<Byte>, data: ColumnData) returns (out: seq<Byte>)
    ensures out == v + Buf1(data)
  {
    match data
    case Int64Data(ints) =>
      out := ExtendCells(v, I64Cells(ints));
    case Float64Data(floats) =>
      out := ExtendCells(v, F64Cells(floats));
    case BoolData(bools) =>
      var packed := PackBools(bools);
      out := v + packed;
    case Utf8Data(offsets, _) =>
      out := ExtendCells(v, U32Cells(offsets));
  }

  /** A buffer that may be absent, after its pad; where it went. */
  method AppendIf(v: seq<Byte>, present: bool, bytes: seq<Byte>) returns (out: seq<Byte>, slot: Slot)
    requires !present ==> bytes == []
    ensures var pad := PadIf(present, |v|);
            && out == v + pad.bytes + bytes
            && slot == SlotIf(present, Region(pad.End(), bytes))
  {
    out, slot := v, Slot(0, 0);
    if present {
      out := Align8(out);
      slot := Slot(|out|, |bytes|);
      out := out + bytes;
    }
  }

  /** One column: its regions appended, its directory entry returned. */
  method AppendColumn(v: seq<Byte>, col: Column, name: Slot) returns (out: seq<Byte>, entry: Entry)
    ensures out == v + BytesOf(ColumnRegions(col, |v|))
    ensures entry == EntryOf(col, name, |v|)
  {
    ghost var rs := ColumnRegions(col, |v|);
    var validity, buf2;
    out, validity := AppendIf(v, col.validity.Some?, if col.validity.Some? then col.validity.value else []);
    var flags := if col.validity.Some? then FLAG_VALIDITY else 0;
    if col.data.Utf8Data? && Utf8Text.IsAscii(col.data.chars) {
      flags := flags + FLAG_ASCII;
    }
    assert |out| == rs[1].End();
    out := Align8(out);
    var off := |out|;
    out := AppendBuf1(out, col.data);
    var buf1 := Slot(off, |out| - off);
    assert |out| == rs[3].End();
    out, buf2 := AppendIf(out, col.data.Utf8Data?, if col.data.Utf8Data? then col.data.chars else []);
    assert out == v + rs[0].bytes + rs[1].bytes + rs[2].bytes + rs[3].bytes + rs[4].bytes + rs[5].bytes;
    SixBytes(rs);
    ShiftLeft(v, rs[0].bytes, rs[1].bytes, rs[2].bytes, rs[3].bytes, rs[4].bytes, rs[5].bytes);
    entry := Entry(name, TypeCode(col.field.dataType), flags, validity, buf1, buf2);
  }

  lemma ShiftLeft(v: seq<Byte>, a: seq<Byte>, b: seq<Byte>, c: seq<Byte>, d: seq<Byte>, e: seq<Byte>, f: seq<Byte>)
    ensures v + a + b + c + d + e + f == v + (a + b + c + d + e + f)
  {
  }

  /** The names region, and where each name went. */
  method AppendNames(v: seq<Byte>, cols: seq<Column>) returns (out: seq<Byte>, spans: seq<Slot>)
    ensures out == v + BytesOf(NameRegions(cols, |v|)) && |out| == EndOf(NameRegions(cols, |v|), |v|)
    ensures |spans| == |cols| && forall j :: 0 <= j < |cols| ==> spans[j] == NameSlot(cols, |v|, j)
  {
    out, spans := v, [];
    for i := 0 to |cols|
      invariant out == v + BytesOf(NameRegions(cols[..i], |v|)) && |out| == EndOf(NameRegions(cols[..i], |v|), |v|)
      invariant |spans| == i && forall j :: 0 <= j < i ==> spans[j] == NameSlot(cols, |v|, j)
    {
      var name := cols[i].field.name;
      NamesUnfold(cols, |v|, i);
      SnocBytes(v, NameRegions(cols[..i], |v|), Region(|out|, name));
      assert Slot(|out|, |name|) == NameSlot(cols, |v|, i);
      spans := spans + [Slot(|out|, |name|)];
      out := out + name;
    }
    assert cols[..|cols|] == cols;
  }

  function NameSlot(cols: seq<Column>, p: nat, j: nat): Slot
    requires j < |cols|
  {
    Slot(EndOf(NameRegions(cols[..j], p), p), |cols[j].field.name|)
  }

  lemma NamesUnfold(cols: seq<Column>, p: nat, i: nat)
    requires i < |cols|
    ensures var init := NameRegions(cols[..i], p);
            NameRegions(cols[..i + 1], p) == init + [Region(EndOf(init, p), cols[i].field.name)]
  {
    assert cols[..i + 1][..i] == cols[..i];
  }

  lemma SnocBytes(v: seq<Byte>, init: seq<Region>, r: Region)
    ensures v + BytesOf(init + [r]) == v + BytesOf(init) + r.bytes
    ensures forall lo: nat :: EndOf(init + [r], lo) == r.End()
  {
    assert (init + [r])[..|init|] == init;
    assert v + (BytesOf(init) + r.bytes) == (v + BytesOf(init)) + r.bytes;
  }

  /** The data region, and one directory entry accumulated per column. */
  method AppendData(v: seq<Byte>, cols: seq<Column>, spans: seq<Slot>, ghost np: nat)
    returns (out: seq<Byte>, entries: seq<Entry>)
    requires |spans| == |cols| && forall j :: 0 <= j < |cols| ==> spans[j] == NameSlot(cols, np, j)
    ensures out == v + BytesOf(DataRegions(cols, |v|)) && |out| == EndOf(DataRegions(cols, |v|), |v|)
    ensures entries == Entries(cols, np, |v|)
  {
    out, entries := v, [];
    for i := 0 to |cols|
      invariant out == v + BytesOf(DataRegions(cols[..i], |v|)) && |out| == EndOf(DataRegions(cols[..i], |v|), |v|)
      invariant entries == Entries(cols[..i], np, |v|)
    {
      assert cols[..i + 1][..i] == cols[..i];
      DataStep(v, cols, i);
      ghost var p := |out|;
      var entry;
      out, entry := AppendColumn(out, cols[i], spans[i]);
      assert entry == EntryOf(cols[i], NameSlot(cols, np, i), p);
      entries := entries + [entry];
    }
    assert cols[..|cols|] == cols;
  }

  lemma DataStep(v: seq<Byte>, cols: seq<Column>, i: nat)
    requires i < |cols|
    ensures var p := EndOf(DataRegions(cols[..i], |v|), |v|);
            && v + BytesOf(DataRegions(cols[..i + 1], |v|))
               == v + BytesOf(DataRegions(cols[..i], |v|)) + BytesOf(ColumnRegions(cols[i], p))
            && EndOf(DataRegions(cols[..i + 1], |v|), |v|) == p + |BytesOf(ColumnRegions(cols[i], p))|
  {
    assert cols[..i + 1][..i] == cols[..i];
    var init := DataRegions(cols[..i], |v|);
    var p := EndOf(init, |v|);
    BytesOfConcat(init, ColumnRegions(cols[i], p));
    ColumnTiled(cols[i], p);
    TiledLength(ColumnRegions(cols[i], p), p);
    var whole := DataRegions(cols[..i + 1], |v|);
    assert whole == init + ColumnRegions(cols[i], p);
    assert whole[|whole| - 1] == ColumnRegions(cols[i], p)[5];
  }

  /** Room for header and directory, then names and data; the directory entries to patch in. */
  method EncodeBody(cols: seq<Column>) returns (out: seq<Byte>, entries: seq<Entry>)
    ensures out == Zeros(NamesOff(|cols|)) + BytesOf(Tail(cols))
    ensures entries == Entries(cols, NamesOff(|cols|), DataOff(cols))
  {
    var namesOff := NamesOff(|cols|);
    var spans;
    out := Zeros(namesOff);
    out, spans := AppendNames(out, cols);
    out := Align8(out);
    assert |out| == DataOff(cols);
    out, entries := AppendData(out, cols, spans, namesOff);
    out := Align8(out);
    ghost var names := NameRegions(cols, namesOff);
    ghost var data := DataRegions(cols, DataOff(cols));
    ShiftFour(Zeros(namesOff), BytesOf(names), PadAt(EndOf(names, namesOff)).bytes,
              BytesOf(data), PadAt(EndOf(data, DataOff(cols))).bytes);
    TailBytes(cols);
  }

  lemma ShiftFour(v: seq<Byte>, a: seq<Byte>, b: seq<Byte>, c: seq<Byte>, d: seq<Byte>)
    ensures v + a + b + c + d == v + (a + b + c + d)
  {
  }

  ghost predicate ShowsEntry(out: seq<Byte>, es: seq<Entry>, j: nat)
    requires j < |es|
  {
    Shows(out, NamesOff(j), EntryBytes(es[j]))
  }

  /** The first `i` entries are in; everything outside them is as in `v`. */
  ghost predicate DirectoryUpTo(v: seq<Byte>, out: seq<Byte>, es: seq<Entry>, i: nat)
    requires i <= |es|
  {
    && |out| == |v|
    && (forall j :: 0 <= j < i ==> ShowsEntry(out, es, j))
    && forall x :: 0 <= x < |v| && !(HEADER_LEN <= x < NamesOff(i)) ==> out[x] == v[x]
  }

  lemma DirectoryStep(v: seq<Byte>, out: seq<Byte>, es: seq<Entry>, i: nat)
    requires i < |es| && NamesOff(i + 1) <= |v| && Shows(v, NamesOff(i), Zeros(COLDIR_LEN))
    requires DirectoryUpTo(v, out, es, i)
    ensures DirectoryUpTo(v, PutEntry(out, NamesOff(i), es[i]), es, i + 1)
  {
    var next := PutEntry(out, NamesOff(i), es[i]);
    assert Shows(out, NamesOff(i), Zeros(COLDIR_LEN));
    PutEntryShows(out, NamesOff(i), es[i]);
    forall j | 0 <= j < i + 1 ensures ShowsEntry(next, es, j) {
      if j < i {
        assert ShowsEntry(out, es, j);
        assert NamesOff(j) + COLDIR_LEN <= NamesOff(i);
      }
    }
  }

  /** The directory, patched entry by entry over its zeroed slots. */
  method PatchDirectory(v: seq<Byte>, es: seq<Entry>) returns (out: seq<Byte>)
    requires NamesOff(|es|) <= |v| && forall x :: HEADER_LEN <= x < NamesOff(|es|) ==> v[x] == 0
    ensures DirectoryUpTo(v, out, es, |es|)
  {
    out := v;
    for i := 0 to |es|
      invariant DirectoryUpTo(v, out, es, i)
    {
      var base := HEADER_LEN + i * COLDIR_LEN;
      assert base == NamesOff(i) && NamesOff(i + 1) == base + COLDIR_LEN <= NamesOff(|es|);
      DirectoryStep(v, out, es, i);
      out := PutEntry(out, base, es[i]);
    }
  }

  /** Header and directory patched over their zeroed room; what follows stays. */
  method PatchHead(v: seq<Byte>, ncols: nat, nrows: nat, es: seq<Entry>, ghost tail: seq<Byte>)
    returns (out: seq<Byte>)
    requires v == Zeros(NamesOff(|es|)) + tail
    ensures |out| == |v|
    ensures Shows(out, 0, HeaderBytes(ncols, nrows)) && Shows(out, NamesOff(|es|), tail)
    ensures forall j :: 0 <= j < |es| ==> ShowsEntry(out, es, j)
  {
    PutHeaderShows(v, ncols, nrows);
    out := PutHeader(v, ncols, nrows);
    out := PatchDirectory(out, es);
  }

  /** Encode a batch into a PCB byte buffer. */
  method Encode(b: Batch) returns (out: seq<Byte>)
    ensures out == Image(b)
    ensures PcbDecode.Fits(b) ==> PcbLayout.Laid(out, b)
  {
    var entries;
    out, entries := EncodeBody(b.columns);
    ghost var tail := BytesOf(Tail(b.columns));
    out := PatchHead(out, |b.columns|, b.numRows, entries, tail);
    HeadShows(Region(0, HeaderBytes(|b.columns|, b.numRows)), entries, out);
    HeadTiled(b);
    TailTiled(b.columns);
    TilingFromParts(Head(b), Tail(b.columns), out);
    assert PcbDecode.Fits(b) ==> PcbLayout.Laid(Image(b), b) by {
      if PcbDecode.Fits(b) { PcbLayout.ImageLaid(b); }
    }
  }

  lemma HeadShows(header: Region, es: seq<Entry>, out: seq<Byte>)
    requires Shows(out, header.off, header.bytes)
    requires forall j :: 0 <= j < |es| ==> ShowsEntry(out, es, j)
    ensures forall k :: 0 <= k <= |es| ==> ShowsRegion(out, [header] + DirRegions(es), k)
  {
    var head := [header] + DirRegions(es);
    forall k | 0 <= k <= |es| ensures ShowsRegion(out, head, k) {
      if k > 0 {
        assert ShowsEntry(out, es, k - 1);
      }
    }
  }

  lemma TailBytes(cols: seq<Column>)
    ensures var np := NamesOff(|cols|);
            var data := DataRegions(cols, DataOff(cols));
            BytesOf(Tail(cols)) == BytesOf(NameRegions(cols, np)) + PadAt(EndOf(NameRegions(cols, np), np)).bytes
                                   + BytesOf(data) + PadAt(EndOf(data, DataOff(cols))).bytes
  {
    var np := NamesOff(|cols|);
    FourBytes(NameRegions(cols, np), PadAt(EndOf(NameRegions(cols, np), np)), DataRegions(cols, DataOff(cols)),
              PadAt(EndOf(DataRegions(cols, DataOff(cols)), DataOff(cols))));
  }

  lemma FourBytes(a: seq<Region>, b: Region, c: seq<Region>, d: Region)
    ensures BytesOf(a + [b] + c + [d]) == BytesOf(a) + b.bytes + BytesOf(c) + d.bytes
  {
    assert (a + [b])[..|a|] == a;
    BytesOfConcat(a + [b], c);
    assert (a + [b] + c + [d])[..|a| + 1 + |c|] == a + [b] + c;
  }
}
