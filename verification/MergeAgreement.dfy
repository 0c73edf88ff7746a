/** When cutting a scan into ranges and merging gives the column of one serial scan: exactly when. */
module MergeAgreement {
  import opened Bytes
  import opened Columns
  import opened ScanCells
  import opened ParallelMerge
  import Decimal
  import Utf8Text

  // ---- the rendering condition ----

  /** No text between two rows, inclusive. */
  predicate Clear(cells: seq<Cell>, k: nat, r: nat)
    requires k < |cells| && r < |cells|
  {
    forall j :: 0 <= j < |cells| && (k <= j <= r || r <= j <= k) ==> !cells[j].IsText()
  }

  predicate NearReal(cells: seq<Cell>, k: nat)
    requires k < |cells|
  {
    exists r: nat :: r < |cells| && cells[r].RealCell? && Clear(cells, k, r)
  }

  /** An integer sharing a text-free run with a real may be rendered through a float, depending on the cut. */
  predicate RenderOk(num: Conversions, cells: seq<Cell>) {
    forall k: nat :: k < |cells| && cells[k].IntCell? && NearReal(cells, k) ==>
      num.f64Text(num.i64ToF64(cells[k].i)) == Decimal.IntText(cells[k].i)
  }

  predicate TextsValid(cells: seq<Cell>) {
    forall k :: 0 <= k < |cells| && cells[k].TextCell? ==> Utf8Text.Valid(cells[k].text)
  }

  /** Every number as its own digits. */
  function Direct(num: Conversions, cells: seq<Cell>): (ts: seq<seq<Byte>>)
    ensures |ts| == |cells|
  {
    seq(|cells|, k requires 0 <= k < |cells| => RenderCell(num, cells[k], false))
  }

  /** Row `p` renders as itself, or (an integer near a real) through a float. */
  predicate RendersAs(num: Conversions, cells: seq<Cell>, p: nat, t: seq<Byte>)
    requires p < |cells|
  {
    t == RenderCell(num, cells[p], false) || (cells[p].IntCell? && NearReal(cells, p) && t == RenderCell(num, cells[p], true))
  }

  lemma ChunkRenders(num: Conversions, cells: seq<Cell>, p: nat)
    requires p < |cells|
    ensures RendersAs(num, cells, p, Rendered(num, cells)[p])
  {
    var n := FirstText(cells);
    if p < n && Hops(cells) && cells[p].IntCell? {
      HasIs(cells[..n]);
      var r: nat :| r < n && cells[..n][r].RealCell?;
      assert cells[r].RealCell? && Clear(cells, p, r);
    }
  }

  lemma NearRealGrows(a: seq<Cell>, b: seq<Cell>, p: nat)
    requires p < |a| && NearReal(a, p)
    ensures NearReal(a + b, p) && NearReal(b + a, |b| + p)
  {
    var r: nat :| r < |a| && a[r].RealCell? && Clear(a, p, r);
    assert (a + b)[r].RealCell? && Clear(a + b, p, r);
    forall j | 0 <= j < |b + a| && (|b| + p <= j <= |b| + r || |b| + r <= j <= |b| + p) ensures !(b + a)[j].IsText() {
      assert (b + a)[j] == a[j - |b|];
    }
    assert (b + a)[|b| + r].RealCell? && Clear(b + a, |b| + p, |b| + r);
  }

  /** In every cut, every row renders as itself or through the float hop. */
  lemma {:induction false} MergedRenders(num: Conversions, chunks: seq<seq<Cell>>)
    ensures |MergedTexts(num, chunks)| == |Flatten(chunks)|
    ensures forall p :: 0 <= p < |Flatten(chunks)| ==> RendersAs(num, Flatten(chunks), p, MergedTexts(num, chunks)[p])
  {
    if chunks != [] {
      var a, b := chunks[0], Flatten(chunks[1..]);
      var ta, tb := Rendered(num, a), MergedTexts(num, chunks[1..]);
      assert Renderings(num, chunks)[1..] == Renderings(num, chunks[1..]);
      assert MergedTexts(num, chunks) == ta + tb;
      MergedRenders(num, chunks[1..]);
      forall p | 0 <= p < |a + b| ensures RendersAs(num, a + b, p, (ta + tb)[p]) {
        if p < |a| {
          ChunkRenders(num, a, p);
          if NearReal(a, p) {
            NearRealGrows(a, b, p);
          }
        } else {
          assert RendersAs(num, b, p - |a|, tb[p - |a|]);
          if NearReal(b, p - |a|) {
            NearRealGrows(b, a, p - |a|);
          }
        }
      }
    }
  }

  /** When the hop changes nothing, no cut changes any text. */
  lemma MergedDirect(num: Conversions, chunks: seq<seq<Cell>>)
    requires RenderOk(num, Flatten(chunks))
    ensures MergedTexts(num, chunks) == Direct(num, Flatten(chunks))
  {
    MergedRenders(num, chunks);
    var cells := Flatten(chunks);
    forall p | 0 <= p < |cells| ensures MergedTexts(num, chunks)[p] == Direct(num, cells)[p] {
      assert RendersAs(num, cells, p, MergedTexts(num, chunks)[p]);
    }
  }

  lemma SerialDirect(num: Conversions, cells: seq<Cell>)
    requires RenderOk(num, cells)
    ensures Rendered(num, cells) == Direct(num, cells)
  {
    forall p | 0 <= p < |cells| ensures Rendered(num, cells)[p] == Direct(num, cells)[p] {
      ChunkRenders(num, cells, p);
    }
  }

  // ---- validity ----

  /** Everything but raw text is well-formed by construction. */
  lemma CellValid(num: Conversions, c: Cell, viaFloat: bool)
    requires Sane(num) && (c.TextCell? ==> Utf8Text.Valid(c.text))
    ensures Utf8Text.Valid(RenderCell(num, c, viaFloat))
  {
    match c
    case NullCell =>
    case IntCell(i) =>
      Utf8Text.AsciiValid(RenderCell(num, c, viaFloat));
    case RealCell(f) => Utf8Text.AsciiValid(num.f64Text(f));
    case TextCell(_) =>
    case BlobCell(b) => Utf8Text.LossyValid(b);
  }

  lemma RenderedValid(num: Conversions, cells: seq<Cell>)
    requires Sane(num) && TextsValid(cells)
    ensures Utf8Text.Valid(Flatten(Rendered(num, cells)))
  {
    forall k | 0 <= k < |cells| ensures Utf8Text.Valid(Rendered(num, cells)[k]) {
      CellValid(num, cells[k], k < FirstText(cells) && Hops(cells));
    }
    Utf8Text.FlattenValid(Rendered(num, cells));
  }

  /** Valid chunks concatenate to a valid whole. */
  lemma {:induction false} ChunksValidWhole(num: Conversions, chunks: seq<seq<Cell>>)
    requires Sane(num) && ChunksValid(num, chunks)
    ensures Utf8Text.Valid(Flatten(MergedTexts(num, chunks)))
  {
    if chunks != [] {
      var ta, tb := Rendered(num, chunks[0]), MergedTexts(num, chunks[1..]);
      assert Renderings(num, chunks)[1..] == Renderings(num, chunks[1..]);
      assert MergedTexts(num, chunks) == ta + tb;
      ChunksValidWhole(num, chunks[1..]);
      FlattenConcat(ta, tb);
      if !HasText(chunks[0]) {
        HasIs(chunks[0]);
        RenderedValid(num, chunks[0]);
      }
      assert TextValidOf(num, chunks[0]);
      Utf8Text.ValidConcat(Flatten(ta), Flatten(tb));
    }
  }

  // ---- one way: no size bound ----

  /** A column without text merges to the serial column, in every field, whatever the cut. */
  lemma NumericCutsAgree(num: Conversions, chunks: seq<seq<Cell>>)
    requires !HasText(Flatten(chunks))
    ensures Merged(num, chunks) == Serial(num, Flatten(chunks))
  {
    NoTextInChunks(chunks);
  }

  lemma {:induction false} NoTextInChunks(chunks: seq<seq<Cell>>)
    requires !HasText(Flatten(chunks))
    ensures forall k :: 0 <= k < |chunks| ==> !HasText(chunks[k])
  {
    if chunks != [] {
      Concat(chunks[0], Flatten(chunks[1..]));
      NoTextInChunks(chunks[1..]);
      forall k | 0 <= k < |chunks| ensures !HasText(chunks[k]) {
        if k > 0 {
          assert chunks[k] == chunks[1..][k - 1];
        }
      }
    }
  }

  lemma {:induction false} ChunkTextsValid(chunks: seq<seq<Cell>>)
    requires TextsValid(Flatten(chunks))
    ensures forall k :: 0 <= k < |chunks| ==> TextsValid(chunks[k])
  {
    if chunks != [] {
      var a, b := chunks[0], Flatten(chunks[1..]);
      assert forall j :: 0 <= j < |a| ==> (a + b)[j] == a[j];
      forall j | 0 <= j < |b| && b[j].TextCell? ensures Utf8Text.Valid(b[j].text) {
        assert (a + b)[|a| + j] == b[j];
      }
      ChunkTextsValid(chunks[1..]);
      forall k | 0 <= k < |chunks| ensures TextsValid(chunks[k]) {
        if k > 0 {
          assert chunks[k] == chunks[1..][k - 1];
        }
      }
    }
  }

  /** Repair is decided per range: harmless if nothing needs it, or if the whole column needs it anyway. */
  predicate Utf8Ok(num: Conversions, cells: seq<Cell>) {
    TextsValid(cells) || !Utf8Text.Valid(Flatten(Rendered(num, cells)))
  }

  /** No text, or a harmless hop and a harmless repair: merged equals serial in every field, at any size. */
  lemma CutsAgreeAnySize(num: Conversions, chunks: seq<seq<Cell>>)
    requires Sane(num)
    requires HasText(Flatten(chunks)) ==> RenderOk(num, Flatten(chunks)) && Utf8Ok(num, Flatten(chunks))
    ensures Merged(num, chunks) == Serial(num, Flatten(chunks))
  {
    var cells := Flatten(chunks);
    if HasText(cells) {
      MergedDirect(num, chunks);
      SerialDirect(num, cells);
      ValidityAgrees(num, chunks);
    } else {
      NumericCutsAgree(num, chunks);
    }
  }

  /** The chunks need repair exactly when the whole does. */
  lemma ValidityAgrees(num: Conversions, chunks: seq<seq<Cell>>)
    requires Sane(num) && HasText(Flatten(chunks)) && RenderOk(num, Flatten(chunks)) && Utf8Ok(num, Flatten(chunks))
    ensures ChunksValid(num, chunks) == TextValidOf(num, Flatten(chunks))
  {
    var cells := Flatten(chunks);
    MergedDirect(num, chunks);
    SerialDirect(num, cells);
    if TextsValid(cells) {
      RenderedValid(num, cells);
      ChunkTextsValid(chunks);
      forall k | 0 <= k < |chunks| ensures TextValidOf(num, chunks[k]) {
        RenderedValid(num, chunks[k]);
      }
    } else if ChunksValid(num, chunks) {
      ChunksValidWhole(num, chunks);
    }
  }

  // ---- exactly when ----

  /** The texts a finished Utf8 column shows. */
  function ShownTexts(num: Conversions, texts: seq<seq<Byte>>, valid: bool): (ts: seq<seq<Byte>>)
    ensures |ts| == |texts|
  {
    if valid then texts else seq(|texts|, k requires 0 <= k < |texts| => Utf8Text.Lossy(texts[k]))
  }

  /** A bound on a row's text in any rendering, repaired or not. */
  function CellBulk(num: Conversions, c: Cell): nat {
    3 * (|RenderCell(num, c, false)| + |RenderCell(num, c, true)|)
  }

  function Bulk(num: Conversions, cells: seq<Cell>): nat {
    if cells == [] then 0 else CellBulk(num, cells[0]) + Bulk(num, cells[1..])
  }

  lemma {:induction false} LossyLength(bs: seq<Byte>)
    ensures |Utf8Text.Lossy(bs)| <= 3 * |bs|
  {
    if bs != [] {
      LossyLength(bs[Utf8Text.Matched(bs)..]);
    }
  }

  /** Any rendering of the rows, repaired or not, is within the bulk. */
  lemma {:induction false} BulkBounds(num: Conversions, cells: seq<Cell>, texts: seq<seq<Byte>>)
    requires |texts| == |cells| && forall k :: 0 <= k < |texts| ==> |texts[k]| <= CellBulk(num, cells[k])
    ensures |Flatten(texts)| <= Bulk(num, cells)
  {
    if texts != [] {
      BulkBounds(num, cells[1..], texts[1..]);
    }
  }

  lemma MergedFits(num: Conversions, chunks: seq<seq<Cell>>, valid: bool)
    requires Bulk(num, Flatten(chunks)) < TWO_TO_32
    ensures |Flatten(ShownTexts(num, MergedTexts(num, chunks), valid))| < TWO_TO_32
  {
    MergedRenders(num, chunks);
    var cells, texts := Flatten(chunks), MergedTexts(num, chunks);
    var shown := ShownTexts(num, texts, valid);
    forall k | 0 <= k < |cells| ensures |shown[k]| <= CellBulk(num, cells[k]) {
      assert RendersAs(num, cells, k, texts[k]);
      LossyLength(texts[k]);
    }
    BulkBounds(num, cells, shown);
  }

  /** The finished column of a Utf8 merge, in terms of the texts it shows. */
  lemma MergedShows(num: Conversions, chunks: seq<seq<Cell>>)
    requires Bulk(num, Flatten(chunks)) < TWO_TO_32 && HasText(Flatten(chunks))
    ensures var texts, valid := MergedTexts(num, chunks), ChunksValid(num, chunks);
            var s := Merged(num, chunks);
            && Sliceable(s.data)
            && FinishedData(s.data, valid) == Utf8Data(Offsets(ShownTexts(num, texts, valid)), Flatten(ShownTexts(num, texts, valid)))
  {
    var texts := MergedTexts(num, chunks);
    MergedFits(num, chunks, true);
    StrSlices(texts);
    assert RepairedTexts(StrOf(texts)) == ShownTexts(num, texts, false);
  }

  /** Packed texts below 2^32 bytes are determined by their offsets and chars. */
  lemma PackedInjective(a: seq<seq<Byte>>, b: seq<seq<Byte>>)
    requires |Flatten(a)| < TWO_TO_32 && Offsets(a) == Offsets(b) && Flatten(a) == Flatten(b)
    ensures a == b
  {
    forall k | 0 <= k < |a| ensures a[k] == b[k] {
      OffsetsSlice(a, k);
      OffsetsSlice(b, k);
    }
  }

  /** One chunk is the serial scan. */
  lemma OneChunk(num: Conversions, cells: seq<Cell>)
    ensures Flatten([cells]) == cells && Merged(num, [cells]) == Serial(num, cells)
    ensures MergedTexts(num, [cells]) == Rendered(num, cells)
  {
    FlattenOne(cells);
    JoinedOne(num, cells, Class(cells));
    JoinedOne(num, cells, 2);
    assert Renderings(num, [cells]) == [Rendered(num, cells)];
    FlattenOne(Rendered(num, cells));
    assert ChunksValid(num, [cells]) == TextValidOf(num, [cells][0]);
  }

  /** Two cuts that finish to the same text column show the same texts. */
  lemma SameShown(num: Conversions, name: seq<Byte>, a: seq<seq<Cell>>, b: seq<seq<Cell>>)
    requires Flatten(a) == Flatten(b) && HasText(Flatten(a)) && Bulk(num, Flatten(a)) < TWO_TO_32
    requires Sliceable(Merged(num, a).data) && Sliceable(Merged(num, b).data)
    requires Finished(name, Merged(num, a)) == Finished(name, Merged(num, b))
    ensures ShownTexts(num, MergedTexts(num, a), ChunksValid(num, a)) == ShownTexts(num, MergedTexts(num, b), ChunksValid(num, b))
  {
    MergedShows(num, a);
    MergedShows(num, b);
    MergedFits(num, a, ChunksValid(num, a));
    PackedInjective(ShownTexts(num, MergedTexts(num, a), ChunksValid(num, a)),
                    ShownTexts(num, MergedTexts(num, b), ChunksValid(num, b)));
  }

  /** A cut that finishes to the serial column. */
  ghost predicate CutAgrees(num: Conversions, name: seq<Byte>, chunks: seq<seq<Cell>>) {
    var merged, serial := Merged(num, chunks), Serial(num, Flatten(chunks));
    && Sliceable(merged.data)
    && Sliceable(serial.data)
    && Finished(name, merged) == Finished(name, serial)
  }

  /** Every cut of the rows into at least one range. */
  ghost predicate AllCutsAgree(num: Conversions, name: seq<Byte>, cells: seq<Cell>) {
    forall chunks: seq<seq<Cell>> :: chunks != [] && Flatten(chunks) == cells ==> CutAgrees(num, name, chunks)
  }

  lemma CutAgreesIf(num: Conversions, name: seq<Byte>, chunks: seq<seq<Cell>>)
    requires Sane(num) && Bulk(num, Flatten(chunks)) < TWO_TO_32
    requires HasText(Flatten(chunks)) ==> RenderOk(num, Flatten(chunks)) && Utf8Ok(num, Flatten(chunks))
    ensures CutAgrees(num, name, chunks)
  {
    var cells := Flatten(chunks);
    OneChunk(num, cells);
    CutsAgreeAnySize(num, chunks);
    if HasText(cells) {
      MergedShows(num, chunks);
    }
  }

  function Singles(cells: seq<Cell>): (chunks: seq<seq<Cell>>)
    ensures |chunks| == |cells|
  {
    seq(|cells|, k requires 0 <= k < |cells| => [cells[k]])
  }

  lemma {:induction false} SinglesAre(num: Conversions, cells: seq<Cell>)
    ensures Flatten(Singles(cells)) == cells && MergedTexts(num, Singles(cells)) == Direct(num, cells)
  {
    if cells != [] {
      SinglesAre(num, cells[1..]);
      assert Singles(cells)[1..] == Singles(cells[1..]);
      assert Singles(cells) == [[cells[0]]] + Singles(cells[1..]);
      assert cells == [cells[0]] + cells[1..];
      assert Renderings(num, Singles(cells))[1..] == Renderings(num, Singles(cells[1..]));
      SingleRenders(num, cells[0]);
      assert Direct(num, cells) == [RenderCell(num, cells[0], false)] + Direct(num, cells[1..]);
    }
  }

  lemma SingleRenders(num: Conversions, c: Cell)
    ensures Rendered(num, [c]) == [RenderCell(num, c, false)]
  {
    HasIs([c][..FirstText([c])]);
  }

  /** A range around an integer and a real near it sends the integer through a float. */
  lemma HopCut(num: Conversions, cells: seq<Cell>, k: nat) returns (chunks: seq<seq<Cell>>)
    requires k < |cells| && cells[k].IntCell? && NearReal(cells, k)
    ensures chunks != [] && Flatten(chunks) == cells
    ensures |MergedTexts(num, chunks)| == |cells| && MergedTexts(num, chunks)[k] == RenderCell(num, cells[k], true)
  {
    var r: nat :| r < |cells| && cells[r].RealCell? && Clear(cells, k, r);
    var lo, hi := if k < r then k else r, if k < r then r + 1 else k + 1;
    chunks := [cells[..lo], cells[lo..hi], cells[hi..]];
    ThreeRanges(num, cells[..lo], cells[lo..hi], cells[hi..], k - lo);
    assert cells[..lo] + cells[lo..hi] + cells[hi..] == cells;
    ClearRun(num, cells, k, r, lo, hi);
  }

  lemma ThreeRanges(num: Conversions, a: seq<Cell>, b: seq<Cell>, c: seq<Cell>, i: nat)
    requires i < |b|
    ensures Flatten([a, b, c]) == a + b + c
    ensures |MergedTexts(num, [a, b, c])| == |a| + |b| + |c|
    ensures MergedTexts(num, [a, b, c])[|a| + i] == Rendered(num, b)[i]
  {
    FlattenThree(a, b, c);
    assert Renderings(num, [a, b, c]) == [Rendered(num, a), Rendered(num, b), Rendered(num, c)];
    FlattenThree(Rendered(num, a), Rendered(num, b), Rendered(num, c));
  }

  lemma ClearRun(num: Conversions, cells: seq<Cell>, k: nat, r: nat, lo: nat, hi: nat)
    requires k < |cells| && r < |cells| && cells[r].RealCell? && Clear(cells, k, r)
    requires lo == (if k < r then k else r) && hi == if k < r then r + 1 else k + 1
    ensures Rendered(num, cells[lo..hi])[k - lo] == RenderCell(num, cells[k], true)
  {
    var run := cells[lo..hi];
    assert run[k - lo] == cells[k] && run[r - lo] == cells[r];
    forall j | 0 <= j < |run| ensures !run[j].IsText() {
      assert run[j] == cells[lo + j];
    }
    RunRenders(num, run, k - lo, r - lo);
  }

  /** A text-free run holding a real renders its integers through a float. */
  lemma RunRenders(num: Conversions, run: seq<Cell>, k: nat, r: nat)
    requires k < |run| && r < |run| && run[r].RealCell?
    requires forall j :: 0 <= j < |run| ==> !run[j].IsText()
    ensures Rendered(num, run)[k] == RenderCell(num, run[k], true)
  {
    HasIs(run);
    FirstTextIs(run);
    assert run[..|run|] == run;
  }

  lemma FlattenThree<T>(a: seq<T>, b: seq<T>, c: seq<T>)
    ensures Flatten([a, b, c]) == a + b + c
  {
    FlattenOne(c);
    assert [a, b, c][1..] == [b, c] && [b, c][1..] == [c];
  }

  lemma AgreeingCutsRenderOk(num: Conversions, name: seq<Byte>, cells: seq<Cell>, k: nat)
    requires Sane(num) && Bulk(num, cells) < TWO_TO_32 && HasText(cells) && AllCutsAgree(num, name, cells)
    requires k < |cells| && cells[k].IntCell? && NearReal(cells, k)
    ensures num.f64Text(num.i64ToF64(cells[k].i)) == Decimal.IntText(cells[k].i)
  {
    SinglesAre(num, cells);
    var hop := HopCut(num, cells, k);
    var singles := Singles(cells);
    assert ShownTexts(num, MergedTexts(num, singles), ChunksValid(num, singles))
        == ShownTexts(num, MergedTexts(num, hop), ChunksValid(num, hop)) by {
      assert CutAgrees(num, name, singles) && CutAgrees(num, name, hop);
      SameShown(num, name, singles, hop);
    }
    CellValid(num, cells[k], true);
    CellValid(num, cells[k], false);
    ShownAt(num, MergedTexts(num, singles), ChunksValid(num, singles), k);
    ShownAt(num, MergedTexts(num, hop), ChunksValid(num, hop), k);
  }

  /** Repair leaves a well-formed text alone. */
  lemma ShownAt(num: Conversions, texts: seq<seq<Byte>>, valid: bool, k: nat)
    requires k < |texts| && Utf8Text.Valid(texts[k])
    ensures ShownTexts(num, texts, valid)[k] == texts[k]
  {
    Utf8Text.LossyOfValid(texts[k]);
  }

  lemma AgreeingCutsUtf8Ok(num: Conversions, name: seq<Byte>, cells: seq<Cell>)
    requires Sane(num) && Bulk(num, cells) < TWO_TO_32 && HasText(cells) && AllCutsAgree(num, name, cells)
    ensures Utf8Ok(num, cells)
  {
    if !TextsValid(cells) && Utf8Text.Valid(Flatten(Rendered(num, cells))) {
      var k :| 0 <= k < |cells| && cells[k].TextCell? && !Utf8Text.Valid(cells[k].text);
      var singles := Singles(cells);
      SinglesAre(num, cells);
      OneChunk(num, cells);
      assert CutAgrees(num, name, singles) && CutAgrees(num, name, [cells]);
      SameShown(num, name, singles, [cells]);
      ChunkRenders(num, cells, k);
      SingleRenders(num, cells[k]);
      FlattenOne(cells[k].text);
      HasIs(singles[k]);
      assert singles[k][0].IsText();
      assert !TextValidOf(num, singles[k]);
      Utf8Text.LossyChanges(cells[k].text);
      assert false;
    }
  }

  /** The parallel scan finishes to the serial column for every cut, if and only if integers that may hop through a
      float print the same after the hop, and no single range needs a repair the whole column does not. */
  lemma AllCutsAgreeIff(num: Conversions, name: seq<Byte>, cells: seq<Cell>)
    requires Sane(num) && Bulk(num, cells) < TWO_TO_32
    ensures AllCutsAgree(num, name, cells) <==> (HasText(cells) ==> RenderOk(num, cells) && Utf8Ok(num, cells))
  {
    if HasText(cells) ==> RenderOk(num, cells) && Utf8Ok(num, cells) {
      forall chunks: seq<seq<Cell>> | chunks != [] && Flatten(chunks) == cells ensures CutAgrees(num, name, chunks) {
        CutAgreesIf(num, name, chunks);
      }
    } else if AllCutsAgree(num, name, cells) {
      forall k: nat | k < |cells| && cells[k].IntCell? && NearReal(cells, k)
        ensures num.f64Text(num.i64ToF64(cells[k].i)) == Decimal.IntText(cells[k].i)
      {
        AgreeingCutsRenderOk(num, name, cells, k);
      }
      AgreeingCutsUtf8Ok(num, name, cells);
      assert false;
    }
  }
}
