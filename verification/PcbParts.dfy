/** `encode_parts`: the two-pass encoder that fills an uninitialised buffer from scan chunks. */
module PcbParts {
  import opened Bytes
  import opened Columns
  import opened Pcb
  import PcbDecode
  import PcbLayout
  import Utf8Text

  /** A chunk of text cells: u32 offsets with their leading 0, and the chars. */
  datatype TextPart = TextPart(offsets: seq<nat>, chars: seq<Byte>) {
    predicate Valid() { |offsets| >= 1 && forall i :: 0 <= i < |offsets| ==> offsets[i] < TWO_TO_32 }
  }

  datatype ColParts =
    | IntParts(ints: seq<seq<I64>>)
    | FloatParts(floats: seq<seq<F64>>)
    | Utf8Parts(texts: seq<TextPart>, ascii: bool)

  // ---- what the chunks concatenate to ----

  function CharsOf(parts: seq<TextPart>): seq<Byte> {
    if parts == [] then [] else CharsOf(parts[..|parts| - 1]) + parts[|parts| - 1].chars
  }

  /** The offsets of a chunk, moved behind `base` bytes (u32 arithmetic). */
  function Shifted(offsets: seq<nat>, base: nat): (r: seq<nat>)
    ensures |r| == |offsets|
  {
    seq(|offsets|, i requires 0 <= i < |offsets| => U32(offsets[i] + U32(base)))
  }

  function OffsetsOf(parts: seq<TextPart>): seq<nat>
    requires forall k :: 0 <= k < |parts| ==> parts[k].Valid()
  {
    if parts == [] then [0] else
      var init := parts[..|parts| - 1];
      assert parts[|parts| - 1].Valid();
      OffsetsOf(init) + Shifted(parts[|parts| - 1].offsets[1..], |CharsOf(init)|)
  }

  predicate Sized(col: ColParts, nrows: nat) {
    match col
    case IntParts(ints) => |Flatten(ints)| == nrows
    case FloatParts(floats) => |Flatten(floats)| == nrows
    case Utf8Parts(texts, ascii) =>
      && (forall k :: 0 <= k < |texts| ==> texts[k].Valid())
      && |OffsetsOf(texts)| == nrows + 1
      && ascii == Utf8Text.IsAscii(CharsOf(texts))
  }

  function Merged(col: ColParts, nrows: nat): ColumnData
    requires Sized(col, nrows)
  {
    match col
    case IntParts(ints) => Int64Data(Flatten(ints))
    case FloatParts(floats) => Float64Data(Flatten(floats))
    case Utf8Parts(texts, _) => Utf8Data(OffsetsOf(texts), CharsOf(texts))
  }

  function MergedColumn(name: seq<Byte>, col: ColParts, nrows: nat): Column
    requires Sized(col, nrows)
  {
    var data := Merged(col, nrows);
    Column(Field(name, data.Type(), false), nrows, None, data)
  }

  function MergedColumns(names: seq<seq<Byte>>, cols: seq<ColParts>, nrows: nat): (cs: seq<Column>)
    requires |names| == |cols| && forall c :: 0 <= c < |cols| ==> Sized(cols[c], nrows)
    ensures |cs| == |cols|
  {
    seq(|cols|, c requires 0 <= c < |cols| => MergedColumn(names[c], cols[c], nrows))
  }

  /** The batch of the concatenated chunks. */
  function MergedBatch(names: seq<seq<Byte>>, cols: seq<ColParts>, nrows: nat): Batch
    requires |names| == |cols| && forall c :: 0 <= c < |cols| ==> Sized(cols[c], nrows)
  {
    var columns := MergedColumns(names, cols, nrows);
    Batch(PcbDecode.FieldsOf(columns), nrows, columns)
  }

  // ---- pass 1: layout ----

  datatype Layout = Layout(dtype: Byte, flags: Byte, buf1: Slot, buf2: Slot)

  function LayoutOf(col: Column, p: nat): Layout {
    var e := EntryOf(col, Slot(0, 0), p);
    Layout(e.dtype, e.flags, e.buf1, e.buf2)
  }

  function GapAt(p: nat): seq<Slot> { if Gap(p) > 0 then [Slot(p, Gap(p))] else [] }

  function ColumnPads(col: Column, p: nat): seq<Slot> {
    var rs := ColumnRegions(col, p);
    GapAt(rs[1].End()) + if col.data.Utf8Data? then GapAt(rs[3].End()) else []
  }

  function PadsOf(cols: seq<Column>, p: nat): seq<Slot> {
    if cols == [] then [] else
      var init := cols[..|cols| - 1];
      PadsOf(init, p) + ColumnPads(cols[|cols| - 1], EndOf(DataRegions(init, p), p))
  }

  method Align(pos: nat, pads: seq<Slot>) returns (pos': nat, pads': seq<Slot>)
    ensures pos' == PadAt(pos).End() && pads' == pads + GapAt(pos)
  {
    var pad := (8 - pos % 8) % 8;
    pos', pads' := pos, pads;
    if pad > 0 {
      pads' := pads + [Slot(pos, pad)];
      pos' := pos + pad;
    }
  }

  lemma MergedSizes(col: ColParts, nrows: nat)
    requires Sized(col, nrows)
    ensures var size := |Buf1(Merged(col, nrows))|;
            match col
            case IntParts(_) => size == nrows * 8
            case FloatParts(_) => size == nrows * 8
            case Utf8Parts(_, _) => size == (nrows + 1) * 4
  {
    match Merged(col, nrows)
    case Int64Data(v) => PcbDecode.FixedWidth(I64Cells(v), 8);
    case Float64Data(v) => PcbDecode.FixedWidth(F64Cells(v), 8);
    case BoolData(_) =>
    case Utf8Data(offsets, _) => PcbDecode.FixedWidth(U32Cells(offsets), 4);
  }

  method CharsLen(texts: seq<TextPart>) returns (n: nat)
    ensures n == |CharsOf(texts)|
  {
    n := 0;
    for k := 0 to |texts|
      invariant n == |CharsOf(texts[..k])|
    {
      assert texts[..k + 1][..k] == texts[..k];
      n := n + |texts[k].chars|;
    }
    assert texts[..|texts|] == texts;
  }

  method PlanColumn(col: ColParts, nrows: nat, pos: nat, pads: seq<Slot>, ghost name: seq<Byte>)
    returns (pos': nat, pads': seq<Slot>, lay: Layout)
    requires Sized(col, nrows)
    ensures var c := MergedColumn(name, col, nrows);
            && pos' == ColumnRegions(c, pos)[5].End()
            && pads' == pads + ColumnPads(c, pos)
            && lay == LayoutOf(c, pos)
  {
    MergedSizes(col, nrows);
    pos', pads' := Align(pos, pads);
    var off := pos';
    match col {
      case IntParts(_) =>
        pos' := pos' + nrows * 8;
        lay := Layout(0, 0, Slot(off, nrows * 8), Slot(0, 0));
      case FloatParts(_) =>
        pos' := pos' + nrows * 8;
        lay := Layout(1, 0, Slot(off, nrows * 8), Slot(0, 0));
      case Utf8Parts(texts, ascii) =>
        pos' := pos' + (nrows + 1) * 4;
        pos', pads' := Align(pos', pads');
        var off2 := pos';
        var dataLen := CharsLen(texts);
        pos' := pos' + dataLen;
        lay := Layout(3, if ascii then FLAG_ASCII else 0, Slot(off, (nrows + 1) * 4), Slot(off2, dataLen));
    }
  }

  /** The plan of the first `i` columns. */
  ghost predicate Planned(cs: seq<Column>, start: nat, i: nat, pos: nat, pads: seq<Slot>, layouts: seq<Layout>)
    requires i <= |cs|
  {
    && pos == PcbDecode.ColumnStart(cs, i, start)
    && pads == PadsOf(cs[..i], start)
    && |layouts| == i
    && forall j :: 0 <= j < i ==> layouts[j] == LayoutOf(cs[j], PcbDecode.ColumnStart(cs, j, start))
  }

  lemma PlannedStep(cs: seq<Column>, start: nat, i: nat, pos: nat, pads: seq<Slot>, layouts: seq<Layout>)
    requires i < |cs| && Planned(cs, start, i, pos, pads, layouts)
    ensures Planned(cs, start, i + 1, ColumnRegions(cs[i], pos)[5].End(), pads + ColumnPads(cs[i], pos),
                    layouts + [LayoutOf(cs[i], pos)])
  {
    PlanStep(cs, i, start);
  }

  method Plan(names: seq<seq<Byte>>, cols: seq<ColParts>, nrows: nat, start: nat)
    returns (pos: nat, pads: seq<Slot>, layouts: seq<Layout>)
    requires |names| == |cols| && forall c :: 0 <= c < |cols| ==> Sized(cols[c], nrows)
    ensures Planned(MergedColumns(names, cols, nrows), start, |cols|, pos, pads, layouts)
  {
    ghost var cs := MergedColumns(names, cols, nrows);
    pos, pads, layouts := start, [], [];
    for i := 0 to |cols|
      invariant Planned(cs, start, i, pos, pads, layouts)
    {
      PlannedStep(cs, start, i, pos, pads, layouts);
      var lay;
      pos, pads, lay := PlanColumn(cols[i], nrows, pos, pads, names[i]);
      layouts := layouts + [lay];
    }
  }

  lemma PlanStep(cs: seq<Column>, i: nat, start: nat)
    requires i < |cs|
    ensures var p := PcbDecode.ColumnStart(cs, i, start);
            && PcbDecode.ColumnStart(cs, i + 1, start) == ColumnRegions(cs[i], p)[5].End()
            && PadsOf(cs[..i + 1], start) == PadsOf(cs[..i], start) + ColumnPads(cs[i], p)
  {
    assert cs[..i + 1][..i] == cs[..i];
    var p := PcbDecode.ColumnStart(cs, i, start);
    var whole := DataRegions(cs[..i + 1], start);
    assert whole == DataRegions(cs[..i], start) + ColumnRegions(cs[i], p);
    assert whole[|whole| - 1] == ColumnRegions(cs[i], p)[5];
  }

  // ---- pass 2: filling the buffer ----

  method WriteAt(out: array<Byte>, pos: nat, bs: seq<Byte>)
    requires pos + |bs| <= out.Length
    modifies out
    ensures out[..] == Put(old(out[..]), pos, bs)
  {
    forall i | 0 <= i < |bs| {
      out[pos + i] := bs[i];
    }
  }

  lemma PutConcat(s: seq<Byte>, pos: nat, a: seq<Byte>, b: seq<Byte>)
    requires pos + |a| + |b| <= |s|
    ensures Put(Put(s, pos, a), pos + |a|, b) == Put(s, pos, a + b)
  {
  }

  lemma {:induction false} FlattenPrefix<T>(parts: seq<seq<T>>, k: nat)
    requires k < |parts|
    ensures Flatten(parts[..k + 1]) == Flatten(parts[..k]) + parts[k]
    ensures |Flatten(parts[..k + 1])| <= |Flatten(parts)|
  {
    assert parts[..k + 1] == parts[..k] + [parts[k]];
    FlattenSnoc(parts[..k], parts[k]);
    FlattenSlice(parts, k);
  }

  /** Chunks written one after another. */
  method WriteParts(out: array<Byte>, pos: nat, parts: seq<seq<Byte>>)
    requires pos + |Flatten(parts)| <= out.Length
    modifies out
    ensures out[..] == Put(old(out[..]), pos, Flatten(parts))
  {
    var dst := pos;
    assert Put(out[..], pos, []) == out[..];
    for k := 0 to |parts|
      invariant |Flatten(parts[..k])| <= |Flatten(parts)|
      invariant dst == pos + |Flatten(parts[..k])|
      invariant out[..] == Put(old(out[..]), pos, Flatten(parts[..k]))
    {
      FlattenPrefix(parts, k);
      dst := WriteNext(out, pos, dst, Flatten(parts[..k]), parts[k], old(out[..]));
    }
    assert parts[..|parts|] == parts;
  }

  function I64Parts(ints: seq<seq<I64>>): seq<seq<Byte>> {
    seq(|ints|, k requires 0 <= k < |ints| => Flatten(I64Cells(ints[k])))
  }

  function F64Parts(floats: seq<seq<F64>>): seq<seq<Byte>> {
    seq(|floats|, k requires 0 <= k < |floats| => Flatten(F64Cells(floats[k])))
  }

  lemma {:induction false} I64PartsBytes(ints: seq<seq<I64>>)
    ensures Flatten(I64Parts(ints)) == Flatten(I64Cells(Flatten(ints)))
  {
    if ints != [] {
      I64PartsBytes(ints[1..]);
      assert I64Parts(ints)[1..] == I64Parts(ints[1..]);
      assert I64Cells(ints[0] + Flatten(ints[1..])) == I64Cells(ints[0]) + I64Cells(Flatten(ints[1..]));
      FlattenConcat(I64Cells(ints[0]), I64Cells(Flatten(ints[1..])));
    }
  }

  lemma {:induction false} F64PartsBytes(floats: seq<seq<F64>>)
    ensures Flatten(F64Parts(floats)) == Flatten(F64Cells(Flatten(floats)))
  {
    if floats != [] {
      F64PartsBytes(floats[1..]);
      assert F64Parts(floats)[1..] == F64Parts(floats[1..]);
      assert F64Cells(floats[0] + Flatten(floats[1..])) == F64Cells(floats[0]) + F64Cells(Flatten(floats[1..]));
      FlattenConcat(F64Cells(floats[0]), F64Cells(Flatten(floats[1..])));
    }
  }

  predicate AllValid(texts: seq<TextPart>) { forall k :: 0 <= k < |texts| ==> texts[k].Valid() }

  /** One chunk's offsets, moved; the first chunk's are copied as they are. */
  function RestCells(part: TextPart, base: nat): seq<seq<Byte>>
    requires part.Valid()
  {
    U32Cells(if base == 0 then part.offsets[1..] else Shifted(part.offsets[1..], base))
  }

  lemma RestCellsShifted(part: TextPart, base: nat)
    requires part.Valid()
    ensures RestCells(part, U32(base)) == U32Cells(Shifted(part.offsets[1..], base))
  {
    var rest := part.offsets[1..];
    if U32(base) == 0 {
      assert Shifted(rest, base) == rest;
    } else {
      assert Shifted(rest, U32(base)) == Shifted(rest, base);
    }
  }

  /** The u32 running byte base before chunk `k`. */
  function BaseAt(texts: seq<TextPart>, k: nat): nat
    requires k <= |texts|
  {
    if k == 0 then 0 else U32(BaseAt(texts, k - 1) + |texts[k - 1].chars|)
  }

  /** The runs of offset bytes up to chunk `k`: the leading 0, then each chunk's own, moved. */
  function OffsetRuns(texts: seq<TextPart>, k: nat): (r: seq<seq<Byte>>)
    requires k <= |texts| && AllValid(texts)
    ensures |r| == k + 1
  {
    if k == 0 then [Le(0, 4)] else
      OffsetRuns(texts, k - 1) + [Flatten(RestCells(texts[k - 1], BaseAt(texts, k - 1)))]
  }

  lemma {:induction false} BaseIs(texts: seq<TextPart>, k: nat)
    requires k <= |texts|
    ensures BaseAt(texts, k) == U32(|CharsOf(texts[..k])|)
  {
    if k > 0 {
      BaseIs(texts, k - 1);
      assert texts[..k][..k - 1] == texts[..k - 1];
      U32Wraps(|CharsOf(texts[..k - 1])|, |texts[k - 1].chars|);
    }
  }

  lemma {:induction false} OffsetRunsBytes(texts: seq<TextPart>, k: nat)
    requires k <= |texts| && AllValid(texts)
    ensures Flatten(OffsetRuns(texts, k)) == Flatten(U32Cells(OffsetsOf(texts[..k])))
  {
    if k == 0 {
      assert U32Cells([0]) == [Le(0, 4)];
    } else {
      OffsetRunsBytes(texts, k - 1);
      BaseIs(texts, k - 1);
      OffsetsSnoc(texts, k - 1);
      FlattenSnoc(OffsetRuns(texts, k - 1), Flatten(RestCells(texts[k - 1], BaseAt(texts, k - 1))));
      MovedBytes(OffsetsOf(texts[..k - 1]), texts[k - 1], |CharsOf(texts[..k - 1])|);
    }
  }

  lemma OffsetsSnoc(texts: seq<TextPart>, k: nat)
    requires k < |texts| && AllValid(texts)
    ensures OffsetsOf(texts[..k + 1]) == OffsetsOf(texts[..k]) + Shifted(texts[k].offsets[1..], |CharsOf(texts[..k])|)
  {
    assert texts[..k + 1][..k] == texts[..k];
  }

  lemma OffsetRunsAll(texts: seq<TextPart>)
    requires AllValid(texts)
    ensures Flatten(OffsetRuns(texts, |texts|)) == Flatten(U32Cells(OffsetsOf(texts)))
  {
    OffsetRunsBytes(texts, |texts|);
    assert texts[..|texts|] == texts;
  }

  lemma MovedBytes(before: seq<nat>, part: TextPart, base: nat)
    requires part.Valid()
    ensures Flatten(U32Cells(before + Shifted(part.offsets[1..], base)))
         == Flatten(U32Cells(before)) + Flatten(RestCells(part, U32(base)))
  {
    var moved := Shifted(part.offsets[1..], base);
    assert U32Cells(before + moved) == U32Cells(before) + U32Cells(moved);
    FlattenConcat(U32Cells(before), U32Cells(moved));
    RestCellsShifted(part, base);
  }

  method MoveOffsets(texts: seq<TextPart>) returns (runs: seq<seq<Byte>>)
    requires AllValid(texts)
    ensures runs == OffsetRuns(texts, |texts|)
  {
    var base := 0;
    runs := [Le(0, 4)];
    for k := 0 to |texts|
      invariant runs == OffsetRuns(texts, k)
      invariant base == BaseAt(texts, k)
    {
      runs := runs + [Flatten(RestCells(texts[k], base))];
      base := U32(base + |texts[k].chars|);
      assert base == BaseAt(texts, k + 1);
    }
  }

  method WriteOffsets(out: array<Byte>, pos: nat, texts: seq<TextPart>)
    requires AllValid(texts) && pos + |Flatten(U32Cells(OffsetsOf(texts)))| <= out.Length
    modifies out
    ensures out[..] == Put(old(out[..]), pos, Flatten(U32Cells(OffsetsOf(texts))))
  {
    var runs := MoveOffsets(texts);
    OffsetRunsAll(texts);
    WriteParts(out, pos, runs);
  }

  /** The next chunk behind what is already written. */
  method WriteNext(out: array<Byte>, ghost pos: nat, dst: nat, ghost done: seq<Byte>, bs: seq<Byte>, ghost was: seq<Byte>)
    returns (dst': nat)
    requires dst == pos + |done| && dst + |bs| <= out.Length == |was|
    requires out[..] == Put(was, pos, done)
    modifies out
    ensures dst' == dst + |bs| && out[..] == Put(was, pos, done + bs)
  {
    PutConcat(was, pos, done, bs);
    WriteAt(out, dst, bs);
    dst' := dst + |bs|;
  }

  function CharParts(texts: seq<TextPart>): (r: seq<seq<Byte>>)
    ensures |r| == |texts|
  {
    seq(|texts|, k requires 0 <= k < |texts| => texts[k].chars)
  }

  lemma {:induction false} CharPartsBytes(texts: seq<TextPart>)
    ensures Flatten(CharParts(texts)) == CharsOf(texts)
  {
    if texts != [] {
      var init := texts[..|texts| - 1];
      CharPartsBytes(init);
      assert CharParts(texts) == CharParts(init) + [texts[|texts| - 1].chars];
      FlattenSnoc(CharParts(init), texts[|texts| - 1].chars);
    }
  }

  /** One column's payload task. */
  method FillColumn(out: array<Byte>, col: ColParts, nrows: nat, lay: Layout)
    requires Sized(col, nrows)
    requires lay.buf1.off + |Buf1(Merged(col, nrows))| <= out.Length
    requires col.Utf8Parts? ==> lay.buf2.off + |CharsOf(col.texts)| <= out.Length
    modifies out
    ensures var first := Put(old(out[..]), lay.buf1.off, Buf1(Merged(col, nrows)));
            out[..] == if col.Utf8Parts? then Put(first, lay.buf2.off, CharsOf(col.texts)) else first
  {
    match col
    case IntParts(ints) =>
      I64PartsBytes(ints);
      WriteParts(out, lay.buf1.off, I64Parts(ints));
    case FloatParts(floats) =>
      F64PartsBytes(floats);
      WriteParts(out, lay.buf1.off, F64Parts(floats));
    case Utf8Parts(texts, _) =>
      WriteOffsets(out, lay.buf1.off, texts);
      CharPartsBytes(texts);
      WriteParts(out, lay.buf2.off, CharParts(texts));
  }

  // ---- the buffer agrees with the image, stretch by stretch ----

  /** `s` shows on [lo, hi) what `img` does. */
  ghost predicate Agrees(s: seq<Byte>, img: seq<Byte>, lo: nat, hi: nat) {
    |s| == |img| && forall x :: lo <= x < hi && x < |img| ==> s[x] == img[x]
  }

  ghost predicate SlotAgrees(s: seq<Byte>, img: seq<Byte>, slot: Slot) {
    Agrees(s, img, slot.off, slot.off + slot.len)
  }

  // ---- every gap and payload of the plan, in the image ----

  /** What the zero-filled gaps must be: shown by the image as zeros, and all the gaps there are. */
  ghost predicate PadsRight(pads: seq<Slot>, cols: seq<Column>, p: nat, img: seq<Byte>) {
    && (forall j :: 0 <= j < |pads| ==> Shows(img, pads[j].off, Zeros(pads[j].len)))
    && forall i: nat, k: nat :: i < |cols| && (k == 2 || k == 4) ==> PadListed(pads, cols, p, i, k)
  }

  ghost predicate PadListed(pads: seq<Slot>, cols: seq<Column>, p: nat, i: nat, k: nat)
    requires i < |cols| && k < 6
  {
    var r := ColumnRegions(cols[i], PcbDecode.ColumnStart(cols, i, p))[k];
    r.bytes == [] || Slot(r.off, |r.bytes|) in pads
  }

  ghost predicate ColumnShows(img: seq<Byte>, cols: seq<Column>, p: nat, i: nat)
    requires i < |cols|
  {
    forall k :: 0 <= k < 6 ==> ShowsRegion(img, ColumnRegions(cols[i], PcbDecode.ColumnStart(cols, i, p)), k)
  }

  lemma StartOfInit(cols: seq<Column>, n: nat, i: nat, p: nat)
    requires i < n <= |cols|
    ensures PcbDecode.ColumnStart(cols[..n], i, p) == PcbDecode.ColumnStart(cols, i, p)
    ensures cols[..n][i] == cols[i]
  {
    assert cols[..n][..i] == cols[..i];
  }

  lemma GapShows(img: seq<Byte>, q: nat)
    requires Shows(img, q, Zeros(Gap(q)))
    ensures forall j :: 0 <= j < |GapAt(q)| ==> Shows(img, GapAt(q)[j].off, Zeros(GapAt(q)[j].len))
    ensures PadAt(q).bytes == [] || Slot(q, |PadAt(q).bytes|) in GapAt(q)
  {
  }

  lemma ColumnPadsRight(col: Column, q: nat, img: seq<Byte>)
    requires forall k :: 0 <= k < 6 ==> ShowsRegion(img, ColumnRegions(col, q), k)
    ensures forall j :: 0 <= j < |ColumnPads(col, q)| ==>
      Shows(img, ColumnPads(col, q)[j].off, Zeros(ColumnPads(col, q)[j].len))
    ensures forall k :: k == 2 || k == 4 ==>
      var r := ColumnRegions(col, q)[k];
      r.bytes == [] || Slot(r.off, |r.bytes|) in ColumnPads(col, q)
  {
    var rs := ColumnRegions(col, q);
    assert ShowsRegion(img, rs, 2) && ShowsRegion(img, rs, 4);
    GapShows(img, rs[1].End());
    if col.data.Utf8Data? {
      GapShows(img, rs[3].End());
    }
  }

  lemma {:induction false} PadsAreRight(cols: seq<Column>, p: nat, img: seq<Byte>)
    requires forall i: nat :: i < |cols| ==> ColumnShows(img, cols, p, i)
    ensures PadsRight(PadsOf(cols, p), cols, p, img)
  {
    if cols != [] {
      var n := |cols| - 1;
      var init := cols[..n];
      forall i: nat | i < n ensures ColumnShows(img, init, p, i) {
        StartOfInit(cols, n, i, p);
        assert ColumnShows(img, cols, p, i);
      }
      PadsAreRight(init, p, img);
      assert ColumnShows(img, cols, p, n);
      var q := PcbDecode.ColumnStart(cols, n, p);
      ColumnPadsRight(cols[n], q, img);
      forall i: nat, k: nat | i < n && (k == 2 || k == 4) ensures PadListed(PadsOf(init, p), cols, p, i, k) {
        StartOfInit(cols, n, i, p);
        assert PadListed(PadsOf(init, p), init, p, i, k);
      }
      PadsRightMore(PadsOf(init, p), ColumnPads(cols[n], q), cols, p, img);
    }
  }

  lemma PadsRightMore(init: seq<Slot>, last: seq<Slot>, cols: seq<Column>, p: nat, img: seq<Byte>)
    requires cols != []
    requires forall j :: 0 <= j < |init| ==> Shows(img, init[j].off, Zeros(init[j].len))
    requires forall j :: 0 <= j < |last| ==> Shows(img, last[j].off, Zeros(last[j].len))
    requires forall i: nat, k: nat :: i < |cols| - 1 && (k == 2 || k == 4) ==> PadListed(init, cols, p, i, k)
    requires PadListed(last, cols, p, |cols| - 1, 2) && PadListed(last, cols, p, |cols| - 1, 4)
    ensures PadsRight(init + last, cols, p, img)
  {
    forall i: nat, k: nat | i < |cols| && (k == 2 || k == 4) ensures PadListed(init + last, cols, p, i, k) {
      assert PadListed(if i < |cols| - 1 then init else last, cols, p, i, k);
    }
  }

  // ---- the whole fill ----

  /** The first `n` pads agree. */
  ghost predicate PadsAgree(s: seq<Byte>, img: seq<Byte>, pads: seq<Slot>, n: nat)
    requires n <= |pads|
  {
    forall j :: 0 <= j < n ==> SlotAgrees(s, img, pads[j])
  }

  function RegionSlot(r: Region): Slot { Slot(r.off, |r.bytes|) }

  ghost predicate PayloadAgrees(s: seq<Byte>, img: seq<Byte>, cols: seq<Column>, p: nat, i: nat)
    requires i < |cols|
  {
    var rs := ColumnRegions(cols[i], PcbDecode.ColumnStart(cols, i, p));
    SlotAgrees(s, img, RegionSlot(rs[3])) && SlotAgrees(s, img, RegionSlot(rs[5]))
  }

  /** Nothing that agreed before `s'` was made stops agreeing. */
  ghost predicate Keeps(s: seq<Byte>, s': seq<Byte>, img: seq<Byte>) {
    |s| == |s'| == |img| && forall x :: 0 <= x < |img| ==> s[x] == img[x] ==> s'[x] == img[x]
  }

  lemma KeepsPut(s: seq<Byte>, img: seq<Byte>, pos: nat, bs: seq<Byte>)
    requires |s| == |img| && Shows(img, pos, bs)
    ensures Keeps(s, Put(s, pos, bs), img) && Agrees(Put(s, pos, bs), img, pos, pos + |bs|)
  {
  }

  lemma RegionByteAgrees(s: seq<Byte>, img: seq<Byte>, cols: seq<Column>, p: nat, pads: seq<Slot>, i: nat, k: nat,
                         x: nat)
    requires |s| == |img| && i < |cols| && k < 6 && x < |img|
    requires cols[i].validity.None? && PayloadAgrees(s, img, cols, p, i)
    requires PadsAgree(s, img, pads, |pads|) && (k == 2 || k == 4 ==> PadListed(pads, cols, p, i, k))
    requires var r := ColumnRegions(cols[i], PcbDecode.ColumnStart(cols, i, p))[k]; r.off <= x < r.End()
    ensures s[x] == img[x]
  {
    var r := ColumnRegions(cols[i], PcbDecode.ColumnStart(cols, i, p))[k];
    if k == 2 || k == 4 {
      var g :| 0 <= g < |pads| && pads[g] == Slot(r.off, |r.bytes|);
      assert SlotAgrees(s, img, pads[g]);
    }
  }

  /** The column and the region a data byte falls into. */
  lemma DataByteAt(cols: seq<Column>, p: nat, x: nat) returns (i: nat, k: nat)
    requires p <= x < EndOf(DataRegions(cols, p), p)
    ensures i < |cols| && k < 6
    ensures var r := ColumnRegions(cols[i], PcbDecode.ColumnStart(cols, i, p))[k]; r.off <= x < r.End()
  {
    DataTiled(cols, p);
    var j := TiledCovers(DataRegions(cols, p), p, x);
    assert cols != [];
    PcbDecode.DataRegionAt(cols, p, 0, 0);
    i, k := j / 6, j % 6;
    PcbDecode.DataRegionAt(cols, p, i, k);
  }

  lemma DataByteAgrees(s: seq<Byte>, img: seq<Byte>, cols: seq<Column>, p: nat, pads: seq<Slot>, x: nat)
    requires |s| == |img| && p <= x < EndOf(DataRegions(cols, p), p) && x < |img|
    requires PadsRight(pads, cols, p, img) && PadsAgree(s, img, pads, |pads|)
    requires forall i: nat :: i < |cols| ==> cols[i].validity.None? && PayloadAgrees(s, img, cols, p, i)
    ensures s[x] == img[x]
  {
    var i, k := DataByteAt(cols, p, x);
    assert PayloadAgrees(s, img, cols, p, i);
    assert k == 2 || k == 4 ==> PadListed(pads, cols, p, i, k);
    RegionByteAgrees(s, img, cols, p, pads, i, k, x);
  }

  lemma KeptAgrees(s: seq<Byte>, s': seq<Byte>, img: seq<Byte>, slot: Slot)
    requires Keeps(s, s', img) && SlotAgrees(s, img, slot)
    ensures SlotAgrees(s', img, slot)
  {
  }

  method FillPads(out: array<Byte>, pads: seq<Slot>, ghost img: seq<Byte>)
    requires out.Length == |img| && forall j :: 0 <= j < |pads| ==> Shows(img, pads[j].off, Zeros(pads[j].len))
    modifies out
    ensures PadsAgree(out[..], img, pads, |pads|) && Keeps(old(out[..]), out[..], img)
  {
    for j := 0 to |pads|
      invariant PadsAgree(out[..], img, pads, j) && Keeps(old(out[..]), out[..], img)
    {
      ghost var was := out[..];
      KeepsPut(was, img, pads[j].off, Zeros(pads[j].len));
      WriteAt(out, pads[j].off, Zeros(pads[j].len));
      forall i | 0 <= i < j + 1 ensures SlotAgrees(out[..], img, pads[i]) {
        if i < j {
          KeptAgrees(was, out[..], img, pads[i]);
        }
      }
    }
  }

  /** Every column's payload task, in any order. */
  method FillPayloads(out: array<Byte>, cols: seq<ColParts>, nrows: nat, layouts: seq<Layout>, order: seq<nat>,
                      ghost cs: seq<Column>, ghost p: nat, ghost img: seq<Byte>)
    requires out.Length == |img| && |layouts| == |cols| == |cs|
    requires forall t :: 0 <= t < |order| ==> order[t] < |cols|
    requires forall i: nat :: i < |cols| ==> TaskReady(cols, nrows, layouts, cs, p, img, i)
    modifies out
    ensures forall t :: 0 <= t < |order| ==> PayloadAgrees(out[..], img, cs, p, order[t])
    ensures Keeps(old(out[..]), out[..], img)
  {
    for t := 0 to |order|
      invariant Paid(out[..], img, cs, p, order, t)
      invariant Keeps(old(out[..]), out[..], img)
    {
      ghost var was := out[..];
      var i := order[t];
      assert TaskReady(cols, nrows, layouts, cs, p, img, i);
      FillTask(out, cols, nrows, layouts, i, cs, p, img);
      PaidMore(was, out[..], img, cs, p, order, t);
    }
  }

  /** The first `t` tasks are done. */
  ghost predicate Paid(s: seq<Byte>, img: seq<Byte>, cs: seq<Column>, p: nat, order: seq<nat>, t: nat) {
    t <= |order| && forall u :: 0 <= u < t ==> order[u] < |cs| && PayloadAgrees(s, img, cs, p, order[u])
  }

  lemma PaidMore(s: seq<Byte>, s': seq<Byte>, img: seq<Byte>, cs: seq<Column>, p: nat, order: seq<nat>, t: nat)
    requires t < |order| && order[t] < |cs| && Paid(s, img, cs, p, order, t) && Keeps(s, s', img)
    requires PayloadAgrees(s', img, cs, p, order[t])
    ensures Paid(s', img, cs, p, order, t + 1)
  {
    forall u | 0 <= u < t ensures order[u] < |cs| && PayloadAgrees(s', img, cs, p, order[u]) {
      KeptPayload(s, s', img, cs, p, order[u]);
    }
  }

  lemma KeptPayload(s: seq<Byte>, s': seq<Byte>, img: seq<Byte>, cs: seq<Column>, p: nat, i: nat)
    requires i < |cs| && Keeps(s, s', img) && PayloadAgrees(s, img, cs, p, i)
    ensures PayloadAgrees(s', img, cs, p, i)
  {
    var rs := ColumnRegions(cs[i], PcbDecode.ColumnStart(cs, i, p));
    KeptAgrees(s, s', img, RegionSlot(rs[3]));
    KeptAgrees(s, s', img, RegionSlot(rs[5]));
  }

  /** Column `i` is planned where the image shows it. */
  ghost predicate TaskReady(cols: seq<ColParts>, nrows: nat, layouts: seq<Layout>, cs: seq<Column>, p: nat,
                            img: seq<Byte>, i: nat)
    requires i < |cols| == |layouts| == |cs|
  {
    && Sized(cols[i], nrows)
    && cs[i].data == Merged(cols[i], nrows) && cs[i].validity.None?
    && layouts[i] == LayoutOf(cs[i], PcbDecode.ColumnStart(cs, i, p))
    && ColumnShows(img, cs, p, i)
  }

  method FillTask(out: array<Byte>, cols: seq<ColParts>, nrows: nat, layouts: seq<Layout>, i: nat,
                  ghost cs: seq<Column>, ghost p: nat, ghost img: seq<Byte>)
    requires out.Length == |img| && i < |cols| == |layouts| == |cs|
    requires TaskReady(cols, nrows, layouts, cs, p, img, i)
    modifies out
    ensures PayloadAgrees(out[..], img, cs, p, i) && Keeps(old(out[..]), out[..], img)
  {
    ghost var rs := ColumnRegions(cs[i], PcbDecode.ColumnStart(cs, i, p));
    assert ShowsRegion(img, rs, 3) && ShowsRegion(img, rs, 5);
    ghost var first := Put(out[..], rs[3].off, rs[3].bytes);
    KeepsPut(out[..], img, rs[3].off, rs[3].bytes);
    KeepsPut(first, img, rs[5].off, rs[5].bytes);
    FillColumn(out, cols[i], nrows, layouts[i]);
    assert out[..] == Put(first, rs[5].off, rs[5].bytes);
    KeptAgrees(first, out[..], img, RegionSlot(rs[3]));
  }

  /** The directory entry as the names loop writes it: no validity slot, over zeros. */
  function EntryFor(name: Slot, lay: Layout): Entry {
    Entry(name, lay.dtype, lay.flags, Slot(0, 0), lay.buf1, lay.buf2)
  }

  lemma ZeroSlot(s: seq<Byte>, at: nat)
    requires at + 8 <= |s| && forall x :: at <= x < at + 8 ==> s[x] == 0
    ensures PutSlot(s, at, Slot(0, 0)) == s
  {
    assert Le(0, 4) == Zeros(4);
  }

  method WriteSlot(out: array<Byte>, at: nat, slot: Slot)
    requires at + 8 <= out.Length
    modifies out
    ensures out[..] == PutSlot(old(out[..]), at, slot)
  {
    WriteAt(out, at, Le(U32(slot.off), 4));
    WriteAt(out, at + 4, Le(U32(slot.len), 4));
  }

  method WriteEntry(out: array<Byte>, base: nat, name: Slot, lay: Layout)
    requires Shows(out[..], base, Zeros(COLDIR_LEN))
    modifies out
    ensures out[..] == PutEntry(old(out[..]), base, EntryFor(name, lay))
  {
    WriteSlot(out, base, name);
    WriteAt(out, base + 8, [lay.dtype]);
    WriteAt(out, base + 9, [lay.flags]);
    assert out[..] == Put(PutSlot(old(out[..]), base, name), base + 8, [lay.dtype, lay.flags]);
    ZeroSlot(out[..], base + 12);
    WriteSlot(out, base + 20, lay.buf1);
    WriteSlot(out, base + 28, lay.buf2);
  }

  method WriteHeader(out: array<Byte>, ncols: nat, nrows: nat)
    requires Shows(out[..], 0, Zeros(HEADER_LEN))
    modifies out
    ensures out[..] == PutHeader(old(out[..]), ncols, nrows)
  {
    WriteAt(out, 0, MAGIC);
    WriteAt(out, 4, Le(VERSION, 2));
    assert Le(0, 2) == Zeros(2);
    assert out[..] == Put(out[..], 6, Le(0, 2));
    WriteAt(out, 8, Le(U32(ncols), 4));
    WriteAt(out, 12, Le(U32(nrows), 4));
    WriteAt(out, 16, Le(U32(HEADER_LEN), 4));
  }

  lemma ShowsAgrees(s: seq<Byte>, img: seq<Byte>, pos: nat, bs: seq<Byte>)
    requires |s| == |img| && Shows(s, pos, bs) && Shows(img, pos, bs)
    ensures Agrees(s, img, pos, pos + |bs|)
  {
  }

  /** Header, directory and names, column by column. */
  /** Header and directory zeroed, then the header written. */
  method StartHead(out: array<Byte>, ncols: nat, nrows: nat, ghost b: Batch)
    requires ncols == |b.columns| && b.numRows == nrows && out.Length == |Image(b)| && NamesOff(ncols) <= |Image(b)|
    modifies out
    ensures HeadUpTo(out[..], b, 0) && NameStart(b, 0) == NamesOff(ncols)
  {
    var namesOff := NamesOff(ncols);
    forall i | 0 <= i < namesOff {
      out[i] := 0;
    }
    PutHeaderShows(out[..], ncols, nrows);
    PcbDecode.HeaderShown(b);
    WriteHeader(out, ncols, nrows);
    ShowsAgrees(out[..], Image(b), 0, HeaderBytes(ncols, nrows));
  }

  method FillHead(out: array<Byte>, names: seq<seq<Byte>>, nrows: nat, layouts: seq<Layout>, ghost b: Batch)
    requires |names| == |layouts| == |b.columns| && b.numRows == nrows
    requires out.Length == |Image(b)|
    requires forall i :: 0 <= i < |names| ==> names[i] == b.columns[i].field.name
    requires forall i :: 0 <= i < |names| ==> PcbDecode.EntriesOf(b)[i] == EntryFor(PcbDecode.EntriesOf(b)[i].name, layouts[i])
    modifies out
    ensures Agrees(out[..], Image(b), 0, EndOf(NameRegions(b.columns, NamesOff(|names|)), NamesOff(|names|)))
  {
    HeadFits(b);
    StartHead(out, |names|, nrows, b);
    var npos := NamesOff(|names|);
    for i := 0 to |names|
      invariant HeadUpTo(out[..], b, i) && npos == NameStart(b, i)
    {
      npos := FillName(out, npos, names[i], i, layouts[i], b);
    }
    assert b.columns[..|b.columns|] == b.columns;
  }

  /** Header, the first `i` entries and the first `i` names are in; the other entries are still zero. */
  ghost predicate HeadUpTo(s: seq<Byte>, b: Batch, i: nat)
    requires i <= |b.columns|
  {
    var namesOff := NamesOff(|b.columns|);
    && namesOff <= |s|
    && Agrees(s, Image(b), 0, NamesOff(i)) && Agrees(s, Image(b), namesOff, NameStart(b, i))
    && forall x :: NamesOff(i) <= x < namesOff ==> s[x] == 0
  }

  method FillName(out: array<Byte>, npos: nat, name: seq<Byte>, i: nat, lay: Layout, ghost b: Batch)
    returns (npos': nat)
    requires out.Length == |Image(b)| && i < |b.columns| && HeadUpTo(out[..], b, i) && npos == NameStart(b, i)
    requires name == b.columns[i].field.name
    requires PcbDecode.EntriesOf(b)[i] == EntryFor(PcbDecode.EntriesOf(b)[i].name, lay)
    modifies out
    ensures HeadUpTo(out[..], b, i + 1) && npos' == NameStart(b, i + 1)
  {
    ghost var img := Image(b);
    NameFact(b, i);
    KeepsPut(out[..], img, npos, name);
    WriteAt(out, npos, name);
    PcbDecode.EntryShown(b, i);
    PutEntryShows(out[..], NamesOff(i), PcbDecode.EntriesOf(b)[i]);
    WriteEntry(out, NamesOff(i), Slot(npos, |name|), lay);
    ShowsAgrees(out[..], img, NamesOff(i), EntryBytes(PcbDecode.EntriesOf(b)[i]));
    npos' := npos + |name|;
  }

  function NameStart(b: Batch, i: nat): nat
    requires i <= |b.columns|
  {
    EndOf(NameRegions(b.columns[..i], NamesOff(|b.columns|)), NamesOff(|b.columns|))
  }

  lemma HeadFits(b: Batch)
    ensures NamesOff(|b.columns|) <= |Image(b)|
  {
    RegionsTile(b);
    HeadTiled(b);
    TiledLength(Head(b), 0);
    BytesOfConcat(Head(b), Tail(b.columns));
  }

  lemma NameStartStep(cols: seq<Column>, np: nat, i: nat)
    requires i < |cols|
    ensures EndOf(NameRegions(cols[..i + 1], np), np) == EndOf(NameRegions(cols[..i], np), np) + |cols[i].field.name|
  {
    assert cols[..i + 1][..i] == cols[..i];
  }

  lemma NameStartAbove(cols: seq<Column>, np: nat)
    ensures np <= EndOf(NameRegions(cols, np), np)
  {
    NamesTiled(cols, np);
    TiledLength(NameRegions(cols, np), np);
  }

  lemma NameFact(b: Batch, i: nat)
    requires i < |b.columns|
    ensures PcbDecode.EntriesOf(b)[i].name == Slot(NameStart(b, i), |b.columns[i].field.name|)
    ensures Shows(Image(b), NameStart(b, i), b.columns[i].field.name)
    ensures NameStart(b, i + 1) == NameStart(b, i) + |b.columns[i].field.name|
    ensures NamesOff(|b.columns|) <= NameStart(b, i)
  {
    PcbDecode.EntryAt(b.columns, NamesOff(|b.columns|), DataOff(b.columns), i);
    PcbDecode.NameShown(b, i);
    NameStartStep(b.columns, NamesOff(|b.columns|), i);
    NameStartAbove(b.columns[..i], NamesOff(|b.columns|));
  }

  lemma PlannedImage(b: Batch, pos: nat)
    requires pos == EndOf(DataRegions(b.columns, DataOff(b.columns)), DataOff(b.columns))
    ensures |Image(b)| == PadAt(pos).End()
  {
    RegionsTile(b);
    EndOfLast(Head(b), Tail(b.columns));
  }

  lemma EndOfLast(head: seq<Region>, tail: seq<Region>)
    requires tail != []
    ensures EndOf(head + tail, 0) == tail[|tail| - 1].End()
  {
  }

  lemma EndPadsShown(b: Batch)
    ensures var np := NamesOff(|b.columns|);
            var ne := EndOf(NameRegions(b.columns, np), np);
            var de := EndOf(DataRegions(b.columns, DataOff(b.columns)), DataOff(b.columns));
            Shows(Image(b), ne, Zeros(Gap(ne))) && Shows(Image(b), de, Zeros(Gap(de)))
  {
    var np := NamesOff(|b.columns|);
    var names := NameRegions(b.columns, np);
    var data := DataRegions(b.columns, DataOff(b.columns));
    var first, last := PadAt(EndOf(names, np)), PadAt(EndOf(data, DataOff(b.columns)));
    var tail := names + [first] + data + [last];
    assert tail[|names|] == first && tail[|tail| - 1] == last;
    PcbDecode.TailShown(b, |names|);
    PcbDecode.TailShown(b, |tail| - 1);
  }

  ghost function NamesStop(b: Batch): nat { NameStart(b, |b.columns|) }

  ghost function DataStop(b: Batch): nat { EndOf(DataRegions(b.columns, DataOff(b.columns)), DataOff(b.columns)) }

  lemma StopsAre(b: Batch)
    ensures NamesStop(b) == EndOf(NameRegions(b.columns, NamesOff(|b.columns|)), NamesOff(|b.columns|))
    ensures DataOff(b.columns) == PadAt(NamesStop(b)).End() && |Image(b)| == PadAt(DataStop(b)).End()
  {
    assert b.columns[..|b.columns|] == b.columns;
    PlannedImage(b, DataStop(b));
  }

  /** Everything after the names agrees: both outer gaps, the inner ones, and the payloads. */
  ghost predicate BodyAgrees(s: seq<Byte>, b: Batch, pads: seq<Slot>) {
    var img := Image(b);
    && |s| == |img|
    && PadsAgree(s, img, pads, |pads|) && PadsRight(pads, b.columns, DataOff(b.columns), img)
    && SlotAgrees(s, img, Slot(NamesStop(b), Gap(NamesStop(b)))) && SlotAgrees(s, img, Slot(DataStop(b), Gap(DataStop(b))))
    && forall i: nat :: i < |b.columns| ==>
         b.columns[i].validity.None? && PayloadAgrees(s, img, b.columns, DataOff(b.columns), i)
  }

  lemma BodyByteAgrees(s: seq<Byte>, b: Batch, pads: seq<Slot>, x: nat)
    requires BodyAgrees(s, b, pads) && NamesStop(b) <= x < |s|
    ensures s[x] == Image(b)[x]
  {
    StopsAre(b);
    if DataOff(b.columns) <= x < DataStop(b) {
      DataByteAgrees(s, Image(b), b.columns, DataOff(b.columns), pads, x);
    }
  }

  lemma AllAgree(s: seq<Byte>, b: Batch, pads: seq<Slot>)
    requires BodyAgrees(s, b, pads) && Agrees(s, Image(b), 0, NamesStop(b))
    ensures s == Image(b)
  {
    var img := Image(b);
    forall x | 0 <= x < |s| ensures s[x] == img[x] {
      if x >= NamesStop(b) {
        BodyByteAgrees(s, b, pads, x);
      }
    }
  }

  method NamesEnd(names: seq<seq<Byte>>, ghost b: Batch) returns (pos: nat)
    requires |names| == |b.columns| && forall i :: 0 <= i < |names| ==> names[i] == b.columns[i].field.name
    ensures pos == NamesStop(b) && DataOff(b.columns) == PadAt(pos).End()
  {
    pos := NamesOff(|names|);
    for i := 0 to |names|
      invariant pos == NameStart(b, i)
    {
      NameFact(b, i);
      pos := pos + |names[i]|;
    }
    StopsAre(b);
  }

  /** Every gap of the plan: after the names, between the buffers, at the end. */
  lemma AllPadsRight(b: Batch)
    ensures PadsRight(AllPads(b), b.columns, DataOff(b.columns), Image(b))
  {
    var p := DataOff(b.columns);
    forall i: nat | i < |b.columns| ensures ColumnShows(Image(b), b.columns, p, i) {
      EachRegionShows(b, i);
    }
    var mid := PadsOf(b.columns, p);
    PadsAreRight(b.columns, p, Image(b));
    StopsAre(b);
    EndPadsShown(b);
    GapShows(Image(b), NamesStop(b));
    GapShows(Image(b), DataStop(b));
    PadsRightAround(GapAt(NamesStop(b)), mid, GapAt(DataStop(b)), b.columns, p, Image(b));
  }

  lemma EachRegionShows(b: Batch, i: nat)
    requires i < |b.columns|
    ensures ColumnShows(Image(b), b.columns, DataOff(b.columns), i)
  {
    var rs := ColumnRegions(b.columns[i], PcbDecode.ColumnStart(b.columns, i, DataOff(b.columns)));
    forall k | 0 <= k < 6 ensures ShowsRegion(Image(b), rs, k) {
      PcbDecode.DataShown(b, i, k);
    }
  }

  lemma PadsRightAround(a: seq<Slot>, mid: seq<Slot>, z: seq<Slot>, cols: seq<Column>, p: nat, img: seq<Byte>)
    requires PadsRight(mid, cols, p, img)
    requires forall j :: 0 <= j < |a| ==> Shows(img, a[j].off, Zeros(a[j].len))
    requires forall j :: 0 <= j < |z| ==> Shows(img, z[j].off, Zeros(z[j].len))
    ensures PadsRight(a + mid + z, cols, p, img)
  {
    forall i: nat, k: nat | i < |cols| && (k == 2 || k == 4) ensures PadListed(a + mid + z, cols, p, i, k) {
      assert PadListed(mid, cols, p, i, k);
    }
  }

  ghost predicate LayoutsRight(layouts: seq<Layout>, b: Batch) {
    && |layouts| == |b.columns|
    && forall i :: 0 <= i < |layouts| ==>
         layouts[i] == LayoutOf(b.columns[i], PcbDecode.ColumnStart(b.columns, i, DataOff(b.columns)))
  }

  /** All gaps of the buffer: after the names, between the buffers, at the end. */
  ghost function AllPads(b: Batch): seq<Slot> {
    GapAt(NamesStop(b)) + PadsOf(b.columns, DataOff(b.columns)) + GapAt(DataStop(b))
  }

  lemma TasksReady(names: seq<seq<Byte>>, cols: seq<ColParts>, nrows: nat, layouts: seq<Layout>, b: Batch)
    requires |names| == |cols| == |layouts| && forall c :: 0 <= c < |cols| ==> Sized(cols[c], nrows)
    requires b == MergedBatch(names, cols, nrows) && LayoutsRight(layouts, b)
    ensures forall i: nat :: i < |cols| ==>
      TaskReady(cols, nrows, layouts, b.columns, DataOff(b.columns), Image(b), i)
    ensures forall i :: 0 <= i < |cols| ==>
      PcbDecode.EntriesOf(b)[i] == EntryFor(PcbDecode.EntriesOf(b)[i].name, layouts[i])
  {
    var p := DataOff(b.columns);
    forall i: nat | i < |cols|
      ensures TaskReady(cols, nrows, layouts, b.columns, p, Image(b), i)
      ensures PcbDecode.EntriesOf(b)[i] == EntryFor(PcbDecode.EntriesOf(b)[i].name, layouts[i])
    {
      EachRegionShows(b, i);
      PcbDecode.EntryAt(b.columns, NamesOff(|cols|), p, i);
    }
  }

  lemma KeptPads(s: seq<Byte>, s': seq<Byte>, img: seq<Byte>, pads: seq<Slot>)
    requires Keeps(s, s', img) && PadsAgree(s, img, pads, |pads|)
    ensures PadsAgree(s', img, pads, |pads|)
  {
    forall j | 0 <= j < |pads| ensures SlotAgrees(s', img, pads[j]) {
      KeptAgrees(s, s', img, pads[j]);
    }
  }

  lemma OuterGap(s: seq<Byte>, img: seq<Byte>, q: nat, pads: seq<Slot>)
    requires |s| == |img| && PadsAgree(s, img, pads, |pads|) && forall g :: g in GapAt(q) ==> g in pads
    ensures SlotAgrees(s, img, Slot(q, Gap(q)))
  {
    if Gap(q) > 0 {
      assert GapAt(q)[0] in pads;
      var g :| 0 <= g < |pads| && pads[g] == Slot(q, Gap(q));
      assert SlotAgrees(s, img, pads[g]);
    }
  }

  lemma BodyFilled(s: seq<Byte>, b: Batch, order: seq<nat>, pads: seq<Slot>)
    requires |s| == |Image(b)| && PadsAgree(s, Image(b), pads, |pads|)
    requires PadsRight(pads, b.columns, DataOff(b.columns), Image(b))
    requires pads == AllPads(b)
    requires forall i: nat :: i < |b.columns| ==> i in order && b.columns[i].validity.None?
    requires forall t :: 0 <= t < |order| ==> order[t] < |b.columns|
    requires forall t :: 0 <= t < |order| ==> PayloadAgrees(s, Image(b), b.columns, DataOff(b.columns), order[t])
    ensures BodyAgrees(s, b, pads)
  {
    OuterGap(s, Image(b), NamesStop(b), pads);
    OuterGap(s, Image(b), DataStop(b), pads);
  }

  /** Pass 1: every offset is known before anything is written. */
  method PlanParts(names: seq<seq<Byte>>, cols: seq<ColParts>, nrows: nat, ghost b: Batch)
    returns (start: nat, total: nat, pads: seq<Slot>, layouts: seq<Layout>)
    requires |names| == |cols| && forall c :: 0 <= c < |cols| ==> Sized(cols[c], nrows)
    requires b == MergedBatch(names, cols, nrows)
    ensures start == DataOff(b.columns) && total == |Image(b)|
    ensures pads == AllPads(b) && LayoutsRight(layouts, b)
  {
    var namesEnd := NamesEnd(names, b);
    var first, mid, end, last;
    start, first := Align(namesEnd, []);
    end, mid, layouts := Plan(names, cols, nrows, start);
    PlannedAll(b, end, mid, layouts);
    total, last := Align(end, []);
    pads := first + mid + last;
    AllPadsAre(b, first, mid, last);
  }

  lemma AllPadsAre(b: Batch, first: seq<Slot>, mid: seq<Slot>, last: seq<Slot>)
    requires first == [] + GapAt(NamesStop(b)) && mid == PadsOf(b.columns, DataOff(b.columns)) && last == [] + GapAt(DataStop(b))
    ensures first + mid + last == AllPads(b)
  {
    assert [] + GapAt(NamesStop(b)) == GapAt(NamesStop(b)) && [] + GapAt(DataStop(b)) == GapAt(DataStop(b));
  }

  lemma PlannedAll(b: Batch, pos: nat, pads: seq<Slot>, layouts: seq<Layout>)
    requires Planned(b.columns, DataOff(b.columns), |b.columns|, pos, pads, layouts)
    ensures pos == DataStop(b) && pads == PadsOf(b.columns, DataOff(b.columns)) && LayoutsRight(layouts, b)
    ensures |Image(b)| == PadAt(pos).End()
  {
    assert b.columns[..|b.columns|] == b.columns;
    PlannedImage(b, pos);
  }

  /** Chunks straight to wire bytes: whatever order the column tasks run in, and whatever the fresh buffer held,
      the result is the encoding of the concatenated chunks. */
  method EncodeParts(names: seq<seq<Byte>>, cols: seq<ColParts>, nrows: nat, order: seq<nat>)
    returns (out: array<Byte>)
    requires |names| == |cols| && forall c :: 0 <= c < |cols| ==> Sized(cols[c], nrows)
    requires forall i: nat :: i < |cols| ==> i in order
    requires forall t :: 0 <= t < |order| ==> order[t] < |cols|
    ensures fresh(out) && out[..] == Image(MergedBatch(names, cols, nrows))
    ensures var b := MergedBatch(names, cols, nrows); PcbDecode.Fits(b) ==> PcbLayout.Laid(out[..], b)
  {
    ghost var b := MergedBatch(names, cols, nrows);
    var start, total, pads, layouts := PlanParts(names, cols, nrows, b);
    out := new Byte[total];
    FillBuffer(out, names, cols, nrows, order, start, pads, layouts, b);
    assert PcbDecode.Fits(b) ==> PcbLayout.Laid(Image(b), b) by {
      if PcbDecode.Fits(b) { PcbLayout.ImageLaid(b); }
    }
  }

  /** Pass 2. */
  method FillBuffer(out: array<Byte>, names: seq<seq<Byte>>, cols: seq<ColParts>, nrows: nat, order: seq<nat>,
                    start: nat, pads: seq<Slot>, layouts: seq<Layout>, ghost b: Batch)
    requires |names| == |cols| && forall c :: 0 <= c < |cols| ==> Sized(cols[c], nrows)
    requires b == MergedBatch(names, cols, nrows)
    requires forall i: nat :: i < |cols| ==> i in order
    requires forall t :: 0 <= t < |order| ==> order[t] < |cols|
    requires start == DataOff(b.columns) && out.Length == |Image(b)|
    requires pads == AllPads(b) && LayoutsRight(layouts, b)
    modifies out
    ensures out[..] == Image(b)
  {
    TasksReady(names, cols, nrows, layouts, b);
    FillHead(out, names, nrows, layouts, b);
    ghost var headed := out[..];
    AllPadsRight(b);
    FillPads(out, pads, Image(b));
    ghost var padded := out[..];
    FillPayloads(out, cols, nrows, layouts, order, b.columns, start, Image(b));
    KeptPads(padded, out[..], Image(b), pads);
    BodyFilled(out[..], b, order, pads);
    StopsAre(b);
    AllAgree(out[..], b, pads);
  }
}
