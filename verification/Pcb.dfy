/** The PCB wire layout (codec.rs) as a tiling of the buffer by regions. */
module Pcb {
  import opened Bytes
  import opened Bitmaps
  import opened Columns
  import Utf8Text

  const MAGIC: seq<Byte> := [80, 67, 66, 49]
  const VERSION := 1
  const HEADER_LEN := 24
  const COLDIR_LEN := 40
  const FLAG_VALIDITY: Byte := 1
  const FLAG_ASCII: Byte := 2

  datatype Batch = Batch(schema: seq<Field>, numRows: nat, columns: seq<Column>)

  /** An absolute position and a length. */
  datatype Slot = Slot(off: nat, len: nat)

  datatype Entry = Entry(name: Slot, dtype: Byte, flags: Byte, validity: Slot, buf1: Slot, buf2: Slot)

  /** A stretch of the buffer and what it holds. */
  datatype Region = Region(off: nat, bytes: seq<Byte>) {
    function End(): nat { off + |bytes| }
  }

  // ---- tilings ----

  function EndOf(rs: seq<Region>, lo: nat): nat {
    if rs == [] then lo else rs[|rs| - 1].End()
  }

  /** The regions follow one another from `lo` without gap or overlap. */
  ghost predicate Tiled(rs: seq<Region>, lo: nat) {
    rs == [] || (Tiled(rs[..|rs| - 1], lo) && rs[|rs| - 1].off == EndOf(rs[..|rs| - 1], lo))
  }

  function BytesOf(rs: seq<Region>): seq<Byte> {
    if rs == [] then [] else BytesOf(rs[..|rs| - 1]) + rs[|rs| - 1].bytes
  }

  lemma {:induction false} TiledLength(rs: seq<Region>, lo: nat)
    requires Tiled(rs, lo)
    ensures EndOf(rs, lo) == lo + |BytesOf(rs)|
  {
    if rs != [] {
      TiledLength(rs[..|rs| - 1], lo);
    }
  }

  lemma {:induction false} TiledConcat(a: seq<Region>, b: seq<Region>, lo: nat)
    requires Tiled(a, lo) && Tiled(b, EndOf(a, lo))
    ensures Tiled(a + b, lo) && EndOf(a + b, lo) == EndOf(b, EndOf(a, lo))
  {
    if b == [] {
      assert a + b == a;
    } else {
      TiledConcat(a, b[..|b| - 1], lo);
      assert (a + b)[..|a + b| - 1] == a + b[..|b| - 1];
    }
  }

  lemma {:induction false} BytesOfConcat(a: seq<Region>, b: seq<Region>)
    ensures BytesOf(a + b) == BytesOf(a) + BytesOf(b)
  {
    if b == [] {
      assert a + b == a;
    } else {
      assert (a + b)[..|a + b| - 1] == a + b[..|b| - 1];
      BytesOfConcat(a, b[..|b| - 1]);
    }
  }

  /** `part` shows at `base` in `out`. */
  ghost predicate Shows(out: seq<Byte>, base: nat, part: seq<Byte>) {
    base + |part| <= |out| && forall x :: base <= x < base + |part| ==> out[x] == part[x - base]
  }

  /** `out` shows region `k` at its place. */
  ghost predicate ShowsRegion(out: seq<Byte>, rs: seq<Region>, k: nat)
    requires k < |rs|
  {
    Shows(out, rs[k].off, rs[k].bytes)
  }

  lemma ShowsWithin(out: seq<Byte>, a: nat, part: seq<Byte>, b: nat, sub: seq<Byte>)
    requires Shows(out, a, part) && Shows(part, b, sub)
    ensures Shows(out, a + b, sub)
  {
  }

  /** Every region of a tiling shows its own bytes, at its own place. */
  lemma {:induction false} RegionHolds(rs: seq<Region>, lo: nat, k: nat)
    requires Tiled(rs, lo) && k < |rs|
    ensures lo <= rs[k].off && Shows(BytesOf(rs), rs[k].off - lo, rs[k].bytes)
  {
    var init := rs[..|rs| - 1];
    TiledLength(init, lo);
    if k < |init| {
      RegionHolds(init, lo, k);
      assert Shows(BytesOf(rs), 0, BytesOf(init));
      ShowsWithin(BytesOf(rs), 0, BytesOf(init), rs[k].off - lo, rs[k].bytes);
    } else {
      assert rs[k].off - lo == |BytesOf(init)|;
    }
  }

  lemma ShownByte(rs: seq<Region>, out: seq<Byte>, x: nat)
    requires Tiled(rs, 0) && x < EndOf(rs, 0) == |out| == |BytesOf(rs)|
    requires forall k :: 0 <= k < |rs| ==> ShowsRegion(out, rs, k)
    ensures out[x] == BytesOf(rs)[x]
  {
    var k := TiledCovers(rs, 0, x);
    RegionHolds(rs, 0, k);
    assert ShowsRegion(out, rs, k);
  }

  /** A buffer that shows every region of a tiling is that tiling's bytes. */
  lemma TilingDetermines(rs: seq<Region>, out: seq<Byte>)
    requires Tiled(rs, 0) && |out| == EndOf(rs, 0)
    requires forall k :: 0 <= k < |rs| ==> ShowsRegion(out, rs, k)
    ensures out == BytesOf(rs)
  {
    TiledLength(rs, 0);
    var bytes := BytesOf(rs);
    forall x | 0 <= x < |out| ensures out[x] == bytes[x] {
      ShownByte(rs, out, x);
    }
  }

  lemma ShowsTail(tail: seq<Region>, lo: nat, out: seq<Byte>, k: nat)
    requires Tiled(tail, lo) && Shows(out, lo, BytesOf(tail)) && k < |tail|
    ensures Shows(out, tail[k].off, tail[k].bytes)
  {
    RegionHolds(tail, lo, k);
    ShowsWithin(out, lo, BytesOf(tail), tail[k].off - lo, tail[k].bytes);
  }

  /** The same, when the later regions are already known to lie there as one run. */
  lemma TilingFromParts(head: seq<Region>, tail: seq<Region>, out: seq<Byte>)
    requires Tiled(head, 0) && Tiled(tail, EndOf(head, 0))
    requires |out| == EndOf(head, 0) + |BytesOf(tail)|
    requires forall k :: 0 <= k < |head| ==> ShowsRegion(out, head, k)
    requires Shows(out, EndOf(head, 0), BytesOf(tail))
    ensures out == BytesOf(head + tail)
  {
    var lo := EndOf(head, 0);
    TiledConcat(head, tail, 0);
    TiledLength(tail, lo);
    TiledLength(head + tail, 0);
    var rs := head + tail;
    forall k | 0 <= k < |rs| ensures ShowsRegion(out, rs, k) {
      if k < |head| {
        assert rs[k] == head[k] && ShowsRegion(out, head, k);
      } else {
        assert rs[k] == tail[k - |head|];
        ShowsTail(tail, lo, out, k - |head|);
      }
    }
    TilingDetermines(rs, out);
  }

  /** Every position of a tiling lies in some region. */
  lemma {:induction false} TiledCovers(rs: seq<Region>, lo: nat, x: nat) returns (k: nat)
    requires Tiled(rs, lo) && lo <= x < EndOf(rs, lo)
    ensures k < |rs| && rs[k].off <= x < rs[k].End()
  {
    var init := rs[..|rs| - 1];
    if x < EndOf(init, lo) {
      k := TiledCovers(init, lo, x);
    } else {
      k := |rs| - 1;
    }
  }

  // ---- payloads ----

  function I64Cells(vs: seq<I64>): seq<seq<Byte>> {
    seq(|vs|, i requires 0 <= i < |vs| => Le(I64Bits(vs[i]), 8))
  }

  function F64Cells(vs: seq<F64>): seq<seq<Byte>> {
    seq(|vs|, i requires 0 <= i < |vs| => Le(vs[i], 8))
  }

  function U32Cells(vs: seq<nat>): seq<seq<Byte>> {
    seq(|vs|, i requires 0 <= i < |vs| => Le(U32(vs[i]), 4))
  }

  function Buf1(data: ColumnData): seq<Byte> {
    match data
    case Int64Data(vs) => Flatten(I64Cells(vs))
    case Float64Data(vs) => Flatten(F64Cells(vs))
    case BoolData(vs) => Pack(vs)
    case Utf8Data(offsets, _) => Flatten(U32Cells(offsets))
  }

  function TypeCode(t: DataType): Byte {
    match t
    case Int64 => 0
    case Float64 => 1
    case Bool => 2
    case Utf8 => 3
  }

  function Flags(col: Column): Byte {
    (if col.validity.Some? then FLAG_VALIDITY else 0)
    + (if col.data.Utf8Data? && Utf8Text.IsAscii(col.data.chars) then FLAG_ASCII else 0)
  }

  function PadAt(p: nat): Region { Region(p, Zeros(Gap(p))) }

  // ---- one column's regions, starting at `p`: absent buffers are empty regions without a pad ----

  function PadIf(present: bool, p: nat): Region { if present then PadAt(p) else Region(p, []) }

  function ColumnRegions(col: Column, p: nat): (rs: seq<Region>)
    ensures |rs| == 6
  {
    var pad0 := PadIf(col.validity.Some?, p);
    var bits := Region(pad0.End(), if col.validity.Some? then col.validity.value else []);
    var pad1 := PadAt(bits.End());
    var buf1 := Region(pad1.End(), Buf1(col.data));
    var pad2 := PadIf(col.data.Utf8Data?, buf1.End());
    var buf2 := Region(pad2.End(), if col.data.Utf8Data? then col.data.chars else []);
    [pad0, bits, pad1, buf1, pad2, buf2]
  }

  function SlotIf(present: bool, r: Region): Slot { if present then Slot(r.off, |r.bytes|) else Slot(0, 0) }

  function EntryOf(col: Column, name: Slot, p: nat): Entry {
    var rs := ColumnRegions(col, p);
    Entry(name, TypeCode(col.field.dataType), Flags(col),
          SlotIf(col.validity.Some?, rs[1]), SlotIf(true, rs[3]), SlotIf(col.data.Utf8Data?, rs[5]))
  }

  // ---- the whole buffer ----

  function DataRegions(cols: seq<Column>, p: nat): seq<Region> {
    if cols == [] then [] else
      var init := DataRegions(cols[..|cols| - 1], p);
      init + ColumnRegions(cols[|cols| - 1], EndOf(init, p))
  }

  function NameRegions(cols: seq<Column>, p: nat): (rs: seq<Region>)
    ensures |rs| == |cols|
  {
    if cols == [] then [] else
      var init := NameRegions(cols[..|cols| - 1], p);
      init + [Region(EndOf(init, p), cols[|cols| - 1].field.name)]
  }

  /** Directory entries: names from `np`, data from `p`. */
  function Entries(cols: seq<Column>, np: nat, p: nat): (es: seq<Entry>)
    ensures |es| == |cols|
  {
    if cols == [] then [] else
      var init := cols[..|cols| - 1];
      var last := cols[|cols| - 1];
      Entries(init, np, p)
      + [EntryOf(last, Slot(EndOf(NameRegions(init, np), np), |last.field.name|), EndOf(DataRegions(init, p), p))]
  }

  /** `out[at..at + |bs|].copy_from_slice(bs)` */
  function Put(out: seq<Byte>, at: nat, bs: seq<Byte>): (r: seq<Byte>)
    requires at + |bs| <= |out|
    ensures |r| == |out|
    ensures forall i :: 0 <= i < |out| ==> r[i] == if at <= i < at + |bs| then bs[i - at] else out[i]
    ensures r[at..at + |bs|] == bs
  {
    seq(|out|, i requires 0 <= i < |out| => if at <= i < at + |bs| then bs[i - at] else out[i])
  }

  function PutU32(out: seq<Byte>, at: nat, n: nat): (r: seq<Byte>)
    requires at + 4 <= |out|
    ensures |r| == |out|
    ensures forall x :: 0 <= x < |out| && !(at <= x < at + 4) ==> r[x] == out[x]
    ensures r[at..at + 4] == Le(U32(n), 4)
  {
    Put(out, at, Le(U32(n), 4))
  }

  function PutSlot(out: seq<Byte>, at: nat, s: Slot): (r: seq<Byte>)
    requires at + 8 <= |out|
    ensures |r| == |out|
    ensures forall x :: 0 <= x < |out| && !(at <= x < at + 8) ==> r[x] == out[x]
    ensures r[at..at + 4] == Le(U32(s.off), 4) && r[at + 4..at + 8] == Le(U32(s.len), 4)
  {
    PutU32(PutU32(out, at, s.off), at + 4, s.len)
  }

  /** The fields of a directory entry, at their offsets from `base`. */
  function PutEntry(out: seq<Byte>, base: nat, e: Entry): (r: seq<Byte>)
    requires base + COLDIR_LEN <= |out|
    ensures |r| == |out|
  {
    var named := Put(PutSlot(out, base, e.name), base + 8, [e.dtype, e.flags]);
    PutSlot(PutSlot(PutSlot(named, base + 12, e.validity), base + 20, e.buf1), base + 28, e.buf2)
  }

  function PutHeader(out: seq<Byte>, ncols: nat, nrows: nat): (r: seq<Byte>)
    requires HEADER_LEN <= |out|
    ensures |r| == |out|
  {
    var magic := Put(Put(Put(out, 0, MAGIC), 4, Le(VERSION, 2)), 6, Le(0, 2));
    PutU32(PutU32(PutU32(magic, 8, ncols), 12, nrows), 16, HEADER_LEN)
  }

  function EntryBytes(e: Entry): (bs: seq<Byte>)
    ensures |bs| == COLDIR_LEN
  {
    PutEntry(Zeros(COLDIR_LEN), 0, e)
  }

  function HeaderBytes(ncols: nat, nrows: nat): (bs: seq<Byte>)
    ensures |bs| == HEADER_LEN
  {
    PutHeader(Zeros(HEADER_LEN), ncols, nrows)
  }

  /** Writing at a place inside `part` writes at that place inside `out`, and nowhere else. */
  lemma PutShows(out: seq<Byte>, base: nat, part: seq<Byte>, at: nat, bs: seq<Byte>)
    requires Shows(out, base, part) && at + |bs| <= |part|
    ensures Shows(Put(out, base + at, bs), base, Put(part, at, bs))
    ensures forall x :: 0 <= x < |out| && !(base <= x < base + |part|) ==> Put(out, base + at, bs)[x] == out[x]
  {
  }

  lemma PutSlotShows(out: seq<Byte>, base: nat, part: seq<Byte>, at: nat, s: Slot)
    requires Shows(out, base, part) && at + 8 <= |part|
    ensures Shows(PutSlot(out, base + at, s), base, PutSlot(part, at, s))
    ensures forall x :: 0 <= x < |out| && !(base <= x < base + |part|) ==> PutSlot(out, base + at, s)[x] == out[x]
  {
    PutShows(out, base, part, at, Le(U32(s.off), 4));
    PutShows(PutU32(out, base + at, s.off), base, PutU32(part, at, s.off), at + 4, Le(U32(s.len), 4));
  }

  /** The entry's fields over zeros are the entry; nothing else changes. */
  lemma PutEntryShows(out: seq<Byte>, base: nat, e: Entry)
    requires Shows(out, base, Zeros(COLDIR_LEN))
    ensures Shows(PutEntry(out, base, e), base, EntryBytes(e))
    ensures forall x :: 0 <= x < |out| && !(base <= x < base + COLDIR_LEN) ==> PutEntry(out, base, e)[x] == out[x]
  {
    var o, z := out, Zeros(COLDIR_LEN);
    PutSlotShows(o, base, z, 0, e.name);
    o, z := PutSlot(o, base, e.name), PutSlot(z, 0, e.name);
    PutShows(o, base, z, 8, [e.dtype, e.flags]);
    o, z := Put(o, base + 8, [e.dtype, e.flags]), Put(z, 8, [e.dtype, e.flags]);
    PutSlotShows(o, base, z, 12, e.validity);
    o, z := PutSlot(o, base + 12, e.validity), PutSlot(z, 12, e.validity);
    PutSlotShows(o, base, z, 20, e.buf1);
    o, z := PutSlot(o, base + 20, e.buf1), PutSlot(z, 20, e.buf1);
    PutSlotShows(o, base, z, 28, e.buf2);
  }

  lemma PutHeaderShows(out: seq<Byte>, ncols: nat, nrows: nat)
    requires Shows(out, 0, Zeros(HEADER_LEN))
    ensures Shows(PutHeader(out, ncols, nrows), 0, HeaderBytes(ncols, nrows))
    ensures forall x :: HEADER_LEN <= x < |out| ==> PutHeader(out, ncols, nrows)[x] == out[x]
  {
    var o, z := out, Zeros(HEADER_LEN);
    PutShows(o, 0, z, 0, MAGIC);
    o, z := Put(o, 0, MAGIC), Put(z, 0, MAGIC);
    PutShows(o, 0, z, 4, Le(VERSION, 2));
    o, z := Put(o, 4, Le(VERSION, 2)), Put(z, 4, Le(VERSION, 2));
    PutShows(o, 0, z, 6, Le(0, 2));
    o, z := Put(o, 6, Le(0, 2)), Put(z, 6, Le(0, 2));
    PutShows(o, 0, z, 8, Le(U32(ncols), 4));
    o, z := PutU32(o, 8, ncols), PutU32(z, 8, ncols);
    PutShows(o, 0, z, 12, Le(U32(nrows), 4));
    o, z := PutU32(o, 12, nrows), PutU32(z, 12, nrows);
    PutShows(o, 0, z, 16, Le(U32(HEADER_LEN), 4));
  }

  function DirRegions(es: seq<Entry>): (rs: seq<Region>)
    ensures |rs| == |es|
  {
    seq(|es|, i requires 0 <= i < |es| => Region(HEADER_LEN + COLDIR_LEN * i, EntryBytes(es[i])))
  }

  function NamesOff(ncols: nat): nat { HEADER_LEN + COLDIR_LEN * ncols }

  /** Where the column data starts: the aligned end of the names. */
  function DataOff(cols: seq<Column>): nat {
    var np := NamesOff(|cols|);
    PadAt(EndOf(NameRegions(cols, np), np)).End()
  }

  function Head(b: Batch): seq<Region> {
    [Region(0, HeaderBytes(|b.columns|, b.numRows))]
    + DirRegions(Entries(b.columns, NamesOff(|b.columns|), DataOff(b.columns)))
  }

  /** Everything after the directory. */
  function Tail(cols: seq<Column>): seq<Region> {
    var np := NamesOff(|cols|);
    var names := NameRegions(cols, np);
    var data := DataRegions(cols, DataOff(cols));
    names + [PadAt(EndOf(names, np))] + data + [PadAt(EndOf(data, DataOff(cols)))]
  }

  function Regions(b: Batch): seq<Region> { Head(b) + Tail(b.columns) }

  /** The PCB buffer of a batch. */
  function Image(b: Batch): seq<Byte> { BytesOf(Regions(b)) }

  // ---- the regions tile the buffer ----

  lemma ColumnTiled(col: Column, p: nat)
    ensures Tiled(ColumnRegions(col, p), p)
  {
    var rs := ColumnRegions(col, p);
    assert rs[..6] == rs;
    for k := 0 to 6
      invariant Tiled(rs[..k], p)
    {
      assert k > 0 ==> rs[..k][k - 1] == rs[k - 1];
      TiledSnoc(rs[..k], rs[k], p);
      assert rs[..k] + [rs[k]] == rs[..k + 1];
    }
  }

  lemma TiledSnoc(rs: seq<Region>, r: Region, lo: nat)
    requires Tiled(rs, lo) && r.off == EndOf(rs, lo)
    ensures Tiled(rs + [r], lo)
  {
    assert (rs + [r])[..|rs|] == rs;
  }

  lemma SixBytes(rs: seq<Region>)
    requires |rs| == 6
    ensures BytesOf(rs) == rs[0].bytes + rs[1].bytes + rs[2].bytes + rs[3].bytes + rs[4].bytes + rs[5].bytes
  {
    assert rs[..5][..4] == rs[..4] && rs[..4][..3] == rs[..3] && rs[..3][..2] == rs[..2] && rs[..2][..1] == rs[..1];
    assert rs[..1] == [rs[0]];
    assert BytesOf(rs[..1]) == rs[0].bytes;
    assert BytesOf(rs[..2]) == rs[0].bytes + rs[1].bytes;
    assert BytesOf(rs[..3]) == BytesOf(rs[..2]) + rs[2].bytes;
    assert BytesOf(rs[..4]) == BytesOf(rs[..3]) + rs[3].bytes;
    assert BytesOf(rs[..5]) == BytesOf(rs[..4]) + rs[4].bytes;
  }

  lemma {:induction false} DataTiled(cols: seq<Column>, p: nat)
    ensures Tiled(DataRegions(cols, p), p)
  {
    if cols != [] {
      var init := DataRegions(cols[..|cols| - 1], p);
      DataTiled(cols[..|cols| - 1], p);
      ColumnTiled(cols[|cols| - 1], EndOf(init, p));
      TiledConcat(init, ColumnRegions(cols[|cols| - 1], EndOf(init, p)), p);
    }
  }

  lemma {:induction false} NamesTiled(cols: seq<Column>, p: nat)
    ensures Tiled(NameRegions(cols, p), p)
  {
    if cols != [] {
      var init := NameRegions(cols[..|cols| - 1], p);
      NamesTiled(cols[..|cols| - 1], p);
      TiledSnoc(init, Region(EndOf(init, p), cols[|cols| - 1].field.name), p);
    }
  }

  lemma {:induction false} DirTiled(es: seq<Entry>)
    ensures Tiled(DirRegions(es), HEADER_LEN) && EndOf(DirRegions(es), HEADER_LEN) == NamesOff(|es|)
  {
    if es != [] {
      var init := es[..|es| - 1];
      DirTiled(init);
      assert DirRegions(es)[..|init|] == DirRegions(init);
    }
  }

  lemma HeadTiled(b: Batch)
    ensures Tiled(Head(b), 0) && EndOf(Head(b), 0) == NamesOff(|b.columns|)
  {
    var es := Entries(b.columns, NamesOff(|b.columns|), DataOff(b.columns));
    DirTiled(es);
    TiledSnoc([], Region(0, HeaderBytes(|b.columns|, b.numRows)), 0);
    TiledConcat([Region(0, HeaderBytes(|b.columns|, b.numRows))], DirRegions(es), 0);
  }

  lemma TailTiled(cols: seq<Column>)
    ensures Tiled(Tail(cols), NamesOff(|cols|))
  {
    var np := NamesOff(|cols|);
    var names := NameRegions(cols, np);
    var pad := [PadAt(EndOf(names, np))];
    var data := DataRegions(cols, DataOff(cols));
    NamesTiled(cols, np);
    TiledSnoc(names, pad[0], np);
    DataTiled(cols, DataOff(cols));
    TiledConcat(names + pad, data, np);
    TiledSnoc(names + pad + data, PadAt(EndOf(data, DataOff(cols))), np);
  }

  lemma TailEndsAligned(cols: seq<Column>, lo: nat)
    ensures EndOf(Tail(cols), lo) % 8 == 0
  {
    var end := EndOf(DataRegions(cols, DataOff(cols)), DataOff(cols));
    assert Tail(cols)[|Tail(cols)| - 1] == PadAt(end);
  }

  /** Header, directory, names, pads and payloads cover the buffer, each byte once, and end 8-aligned. */
  lemma RegionsTile(b: Batch)
    ensures Tiled(Regions(b), 0)
    ensures EndOf(Regions(b), 0) == |Image(b)| && |Image(b)| % 8 == 0
  {
    HeadTiled(b);
    TailTiled(b.columns);
    TiledConcat(Head(b), Tail(b.columns), 0);
    TiledLength(Regions(b), 0);
    TailEndsAligned(b.columns, EndOf(Head(b), 0));
  }
}
