/** Parallel scan: per-range columns joined by `merge_col`, compared with one serial build (client.rs). */
module ParallelMerge {
  import opened Bytes
  import opened Columns
  import opened ScanCells
  import opened AdaptiveColumn

  // ---- what merging is ----

  /** The texts of each chunk, rendered on its own. */
  function Renderings(num: Conversions, chunks: seq<seq<Cell>>): (rs: seq<seq<seq<Byte>>>)
    ensures |rs| == |chunks|
  {
    seq(|chunks|, k requires 0 <= k < |chunks| => Rendered(num, chunks[k]))
  }

  function MergedTexts(num: Conversions, chunks: seq<seq<Cell>>): seq<seq<Byte>> {
    Flatten(Renderings(num, chunks))
  }

  /** The buffers of the concatenated chunks at storage class `kind`. */
  function JoinedData(num: Conversions, chunks: seq<seq<Cell>>, kind: nat): AdaptiveData {
    if kind == 2 then StrOf(MergedTexts(num, chunks)) else DataAs(num, Flatten(chunks), kind)
  }

  predicate ChunksValid(num: Conversions, chunks: seq<seq<Cell>>) {
    forall k :: 0 <= k < |chunks| ==> TextValidOf(num, chunks[k])
  }

  /** The column `merge_col` leaves: a serial build of all the cells, but for how numbers and repairs were decided. */
  function Merged(num: Conversions, chunks: seq<seq<Cell>>): State {
    var cells := Flatten(chunks);
    State(JoinedData(num, chunks, Class(cells)), |cells|, NullRows(cells), Mixed(cells), HasBlob(cells),
          ChunksValid(num, chunks))
  }

  // ---- chunk-wise facts ----

  /** A prefix of the chunks and the next one. */
  lemma NextChunk(num: Conversions, chunks: seq<seq<Cell>>, k: nat)
    requires k < |chunks|
    ensures Flatten(chunks[..k + 1]) == Flatten(chunks[..k]) + chunks[k]
    ensures MergedTexts(num, chunks[..k + 1]) == MergedTexts(num, chunks[..k]) + Rendered(num, chunks[k])
  {
    assert chunks[..k + 1] == chunks[..k] + [chunks[k]];
    FlattenSnoc(chunks[..k], chunks[k]);
    assert Renderings(num, chunks[..k + 1]) == Renderings(num, chunks[..k]) + [Rendered(num, chunks[k])];
    FlattenSnoc(Renderings(num, chunks[..k]), Rendered(num, chunks[k]));
  }

  /** The class of the whole is the highest class of a chunk that holds a value. */
  lemma ClassConcat(a: seq<Cell>, b: seq<Cell>)
    ensures Class(a + b) == if Class(a) < Class(b) then Class(b) else Class(a)
    ensures |NullRows(a)| == |a| ==> Class(a) == 0
    ensures Mixed(a + b) == (Mixed(a) || Mixed(b) ||
                             (|NullRows(a)| < |a| && |NullRows(b)| < |b| && Class(a) != Class(b)))
  {
    Concat(a, b);
    NullRowsAre(a);
    NullRowsAre(b);
  }

  lemma DataConcat(num: Conversions, a: seq<Cell>, b: seq<Cell>)
    ensures Ints(a + b) == Ints(a) + Ints(b)
    ensures Floats(num, a + b) == Floats(num, a) + Floats(num, b)
  {
  }

  /** The later offsets of a chunk, moved behind `base` bytes in u32 arithmetic. */
  function MovedOffsets(offsets: seq<nat>, base: nat): (r: seq<nat>)
    requires |offsets| >= 1
    ensures |r| == |offsets| - 1
  {
    seq(|offsets| - 1, i requires 0 <= i < |offsets| - 1 => U32(offsets[i + 1] + base))
  }

  lemma OffsetsConcat(a: seq<seq<Byte>>, b: seq<seq<Byte>>)
    ensures Offsets(a + b) == Offsets(a) + MovedOffsets(Offsets(b), U32(|Flatten(a)|))
  {
    forall i | 0 <= i <= |a| ensures (a + b)[..i] == a[..i] {
    }
    forall i | 0 <= i < |b| ensures Offsets(a + b)[|a| + 1 + i] == MovedOffsets(Offsets(b), U32(|Flatten(a)|))[i] {
      OffsetMoved(a, b, i);
    }
  }

  lemma OffsetMoved(a: seq<seq<Byte>>, b: seq<seq<Byte>>, i: nat)
    requires i < |b|
    ensures Offsets(a + b)[|a| + 1 + i] == MovedOffsets(Offsets(b), U32(|Flatten(a)|))[i]
  {
    var x, y := |Flatten(a)|, |Flatten(b[..i + 1])|;
    assert Offsets(a + b)[|a| + 1 + i] == U32(x + y) by {
      assert (a + b)[..|a| + 1 + i] == a + b[..i + 1];
      FlattenConcat(a, b[..i + 1]);
    }
    U32Wraps(x, y);
    U32Wraps(y, U32(x));
  }

  // ---- merge_col ----

  function BufClass(data: AdaptiveData): nat {
    match data
    case IntBuf(_) => 0
    case FloatBuf(_) => 1
    case StrBuf(_, _) => 2
  }

  ghost predicate AllScanned(parts: seq<AdaptiveCol>, num: Conversions, chunks: seq<seq<Cell>>)
    reads parts
  {
    |parts| == |chunks| && forall k :: 0 <= k < |parts| ==> parts[k].Scanned(num, chunks[k])
  }

  /** The classes of the parts holding a value, after the parts of `cells`. */
  ghost predicate Folded(cells: seq<Cell>, classes: seq<nat>, target: nat, promoted: bool) {
    && target == Class(cells)
    && (forall c :: c in classes ==> c <= target)
    && (classes == []) == (|NullRows(cells)| == |cells|)
    && (classes != [] ==> target in classes)
    && Mixed(cells) == (promoted || exists c :: c in classes && c != target)
  }

  function FoldClasses(classes: seq<nat>, part: seq<Cell>): seq<nat> {
    if |NullRows(part)| < |part| then classes + [Class(part)] else classes
  }

  function FoldTarget(target: nat, part: seq<Cell>): nat {
    if |NullRows(part)| < |part| && target < Class(part) then Class(part) else target
  }

  lemma FoldPart(cells: seq<Cell>, classes: seq<nat>, target: nat, promoted: bool, part: seq<Cell>)
    requires Folded(cells, classes, target, promoted)
    ensures Folded(cells + part, FoldClasses(classes, part), FoldTarget(target, part), promoted || Mixed(part))
    ensures target <= FoldTarget(target, part) && Class(part) <= FoldTarget(target, part)
  {
    ClassConcat(cells, part);
    ClassConcat(part, part);
    NullRowsConcat(cells, part);
    NullRowsAre(cells);
    NullRowsAre(part);
    if |NullRows(part)| < |part| {
      var grown := classes + [Class(part)];
      assert Class(part) in grown && forall d :: d in grown <==> d in classes || d == Class(part);
    }
  }

  /** The classes, the target and the flag after `k` parts. */
  function Fold(chunks: seq<seq<Cell>>, k: nat): (seq<nat>, nat, bool)
    requires k <= |chunks|
  {
    if k == 0 then ([], 0, false) else
      var (classes, target, promoted) := Fold(chunks, k - 1);
      (FoldClasses(classes, chunks[k - 1]), FoldTarget(target, chunks[k - 1]), promoted || Mixed(chunks[k - 1]))
  }

  lemma {:induction false} FoldIs(num: Conversions, chunks: seq<seq<Cell>>, k: nat)
    requires k <= |chunks|
    ensures var (classes, target, promoted) := Fold(chunks, k);
            && Folded(Flatten(chunks[..k]), classes, target, promoted)
            && forall j :: 0 <= j < k ==> Class(chunks[j]) <= target
  {
    if k > 0 {
      FoldIs(num, chunks, k - 1);
      var (classes, target, promoted) := Fold(chunks, k - 1);
      FoldPart(Flatten(chunks[..k - 1]), classes, target, promoted, chunks[k - 1]);
      NextChunk(num, chunks, k - 1);
    }
  }

  lemma ScannedIs(part: AdaptiveCol, num: Conversions, cells: seq<Cell>)
    requires part.Scanned(num, cells)
    ensures BufClass(part.data) == Class(cells) && part.len == |cells| && part.nulls == NullRows(cells)
    ensures part.promoted == Mixed(cells)
  {
  }

  /** The storage class every part is brought to, and whether the whole mixes classes. */
  method TargetClass(parts: seq<AdaptiveCol>, ghost num: Conversions, ghost chunks: seq<seq<Cell>>)
    returns (target: nat, promoted: bool)
    requires AllScanned(parts, num, chunks)
    ensures target == Class(Flatten(chunks)) && promoted == Mixed(Flatten(chunks))
    ensures forall k :: 0 <= k < |chunks| ==> Class(chunks[k]) <= target
  {
    var classes: seq<nat> := [];
    target, promoted := 0, false;
    for k := 0 to |parts|
      invariant (classes, target, promoted) == Fold(chunks, k)
    {
      ScannedIs(parts[k], num, chunks[k]);
      promoted := promoted || parts[k].promoted;
      if parts[k].len > |parts[k].nulls| {
        var c := BufClass(parts[k].data);
        classes := classes + [c];
        target := if target < c then c else target;
      }
    }
    FoldIs(num, chunks, |chunks|);
    assert chunks[..|chunks|] == chunks;
    promoted := promoted || exists c :: c in classes && c != target;
  }

  /** Promotes every part to the storage class of the whole. */
  method Unify(parts: seq<AdaptiveCol>, target: nat, ghost num: Conversions, ghost chunks: seq<seq<Cell>>)
    requires AllDistinct(parts) && AllScanned(parts, num, chunks) && target <= 2
    requires forall k :: 0 <= k < |chunks| ==> Class(chunks[k]) <= target
    modifies parts
    ensures forall k :: 0 <= k < |parts| ==> AtClass(parts[k], num, chunks[k], target)
  {
    for k := 0 to |parts|
      invariant forall j :: 0 <= j < k ==> AtClass(parts[j], num, chunks[j], target)
      invariant forall j :: k <= j < |parts| ==> parts[j].Scanned(num, chunks[j])
    {
      if target == 2 {
        parts[k].PromoteToStr();
      } else if target == 1 {
        parts[k].PromoteToFloat();
      }
      assert AtClass(parts[k], num, chunks[k], target);
    }
  }

  ghost predicate AtClass(part: AdaptiveCol, num: Conversions, cells: seq<Cell>, kind: nat)
    reads part
  {
    part.data == DataAs(num, cells, kind) && part.len == |cells| && part.nulls == NullRows(cells)
  }

  /** What the accumulator holds after some chunks. */
  ghost predicate Joined(part: AdaptiveCol, num: Conversions, chunks: seq<seq<Cell>>, kind: nat)
    reads part
  {
    && part.data == JoinedData(num, chunks, kind)
    && part.len == |Flatten(chunks)|
    && part.nulls == NullRows(Flatten(chunks))
  }

  lemma JoinedOne(num: Conversions, cells: seq<Cell>, kind: nat)
    requires kind <= 2
    ensures JoinedData(num, [cells], kind) == DataAs(num, cells, kind) && Flatten([cells]) == cells
  {
    FlattenOne(cells);
    assert Renderings(num, [cells]) == [Rendered(num, cells)];
    FlattenOne(Rendered(num, cells));
  }

  lemma FlattenOne<T>(x: seq<T>)
    ensures Flatten([x]) == x
  {
    assert Flatten([x]) == x + Flatten<T>([]);
  }

  method AppendPart(acc: AdaptiveCol, part: AdaptiveCol, target: nat,
                    ghost num: Conversions, ghost chunks: seq<seq<Cell>>, ghost k: nat)
    requires acc != part && target <= 2 && k < |chunks|
    requires Joined(acc, num, chunks[..k], target) && AtClass(part, num, chunks[k], target)
    modifies acc
    ensures Joined(acc, num, chunks[..k + 1], target)
    ensures acc.promoted == old(acc.promoted) && acc.sawBlob == old(acc.sawBlob) && acc.textValid == old(acc.textValid)
    ensures acc.ascii == old(acc.ascii)
  {
    NextChunk(num, chunks, k);
    NullRowsConcat(Flatten(chunks[..k]), chunks[k]);
    var rowBase := acc.len;
    match (acc.data, part.data) {
      case (IntBuf(a), IntBuf(b)) =>
        DataConcat(num, Flatten(chunks[..k]), chunks[k]);
        acc.data := IntBuf(a + b);
      case (FloatBuf(a), FloatBuf(b)) =>
        DataConcat(num, Flatten(chunks[..k]), chunks[k]);
        acc.data := FloatBuf(a + b);
      case (StrBuf(ao, ad), StrBuf(bo, bd)) =>
        OffsetsConcat(MergedTexts(num, chunks[..k]), Rendered(num, chunks[k]));
        FlattenConcat(MergedTexts(num, chunks[..k]), Rendered(num, chunks[k]));
        var byteBase := U32(|ad|);
        acc.data := StrBuf(ao + MovedOffsets(bo, byteBase), ad + bd);
    }
    acc.nulls := acc.nulls + ShiftRows(part.nulls, rowBase);
    acc.len := acc.len + part.len;
  }

  method JoinFlags(parts: seq<AdaptiveCol>, ghost num: Conversions, ghost chunks: seq<seq<Cell>>)
    returns (sawBlob: bool, textValid: bool)
    requires AllScanned(parts, num, chunks)
    ensures sawBlob == HasBlob(Flatten(chunks)) && textValid == ChunksValid(num, chunks)
  {
    sawBlob := exists k :: 0 <= k < |parts| && parts[k].sawBlob;
    textValid := forall k :: 0 <= k < |parts| ==> parts[k].textValid;
    AnyBlob(chunks);
    assert forall k :: 0 <= k < |parts| ==> parts[k].textValid == TextValidOf(num, chunks[k]);
    assert forall k :: 0 <= k < |parts| ==> parts[k].sawBlob == HasBlob(chunks[k]);
  }

  /** `merge_col` */
  method MergeCol(parts: seq<AdaptiveCol>, ghost num: Conversions, ghost chunks: seq<seq<Cell>>) returns (acc: AdaptiveCol)
    requires parts != [] && AllDistinct(parts) && AllScanned(parts, num, chunks)
    modifies parts
    ensures acc == parts[0] && acc.View() == Merged(num, chunks)
  {
    var sawBlob, textValid := JoinFlags(parts, num, chunks);
    var target, promoted := TargetClass(parts, num, chunks);
    Unify(parts, target, num, chunks);
    acc := parts[0];
    assert chunks[..1] == [chunks[0]];
    JoinedOne(num, chunks[0], target);
    for k := 1 to |parts|
      invariant Joined(acc, num, chunks[..k], target)
      invariant forall j :: k <= j < |parts| ==> AtClass(parts[j], num, chunks[j], target)
    {
      AppendPart(acc, parts[k], target, num, chunks, k);
    }
    assert chunks[..|chunks|] == chunks;
    acc.promoted := promoted;
    acc.sawBlob := sawBlob;
    acc.textValid := textValid;
  }

  lemma {:induction false} AnyBlob(chunks: seq<seq<Cell>>)
    ensures HasBlob(Flatten(chunks)) == exists k :: 0 <= k < |chunks| && HasBlob(chunks[k])
  {
    if chunks != [] {
      Concat(chunks[0], Flatten(chunks[1..]));
      AnyBlob(chunks[1..]);
      if HasBlob(Flatten(chunks[1..])) {
        var k :| 0 <= k < |chunks| - 1 && HasBlob(chunks[1..][k]);
        assert HasBlob(chunks[k + 1]);
      }
      if k :| 0 < k < |chunks| && HasBlob(chunks[k]) {
        assert HasBlob(chunks[1..][k - 1]);
      }
    }
  }
}
