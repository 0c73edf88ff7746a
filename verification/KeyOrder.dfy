/** What the order of sort keys says of the values themselves: SQLite's order within one storage class. */
module KeyOrder {
  import opened Bytes
  import opened Bitmaps
  import opened ScanCells
  import opened SortKeys

  // ---- numbers ----

  const FRACTION := 0x10_0000_0000_0000

  /** The size of the number a bit pattern of an f64 stands for, in units of 2^-1074: 11 bits of exponent over 52 of
      fraction (section 3.4 of IEEE 754-2019). */
  function Magnitude(f: nat): nat { Scaled(f / FRACTION, f % FRACTION, FRACTION) }

  function Scaled(e: nat, m: nat, unit: nat): nat { if e == 0 then m else (unit + m) * Pow2(e - 1) }

  /** Bit 63 is the sign. */
  function Number(f: F64): int { if f < TWO_TO_63 then Magnitude(f) else -(Magnitude(f - TWO_TO_63) as int) }

  lemma MulLess(a: nat, b: nat, p: nat)
    requires a < b && p > 0
    ensures a * p < b * p
  {
  }

  lemma MulLeq(u: nat, p: nat, q: nat)
    requires p <= q
    ensures u * p <= u * q
  {
  }

  lemma {:induction false} Pow2Grows(a: nat, b: nat)
    requires a <= b
    ensures Pow2(a) <= Pow2(b)
  {
    if a < b {
      Pow2Grows(a, b - 1);
    }
  }

  /** A larger exponent outweighs any fraction. */
  lemma ScaledGrows(d: nat, m: nat, e: nat, n: nat, unit: nat)
    requires m < unit && n < unit && (d < e || (d == e && m < n))
    ensures Scaled(d, m, unit) < Scaled(e, n, unit)
  {
    if d == e {
      if d > 0 { MulLess(unit + m, unit + n, Pow2(d - 1)); }
    } else if d == 0 {
      MulLeq(unit + n, 1, Pow2(e - 1));
      assert (unit + n) * 1 == unit + n;
    } else {
      MulLess(unit + m, 2 * unit, Pow2(d - 1));
      Doubled(unit, Pow2(d - 1), Pow2(d));
      Pow2Grows(d, e - 1);
      MulLeq(unit, Pow2(d), Pow2(e - 1));
      MulLeqLeft(unit, unit + n, Pow2(e - 1));
    }
  }

  lemma Doubled(u: nat, p: nat, q: nat)
    requires q == 2 * p
    ensures (2 * u) * p == u * q
  {
  }

  lemma MulLeqLeft(a: nat, b: nat, p: nat)
    requires a <= b
    ensures a * p <= b * p
  {
  }

  lemma DivMod(f: nat, g: nat, unit: nat)
    requires f < g && unit > 0
    ensures f / unit < g / unit || (f / unit == g / unit && f % unit < g % unit)
  {
    var q, r := f / unit, g / unit;
    assert f == q * unit + f % unit && g == r * unit + g % unit;
    if r < q {
      MulLeqLeft(r + 1, q, unit);
    }
  }

  lemma MagnitudeGrows(f: nat, g: nat)
    requires f < g
    ensures Magnitude(f) < Magnitude(g)
  {
    DivMod(f, g, FRACTION);
    ScaledGrows(f / FRACTION, f % FRACTION, g / FRACTION, g % FRACTION, FRACTION);
  }

  /** Negative patterns first, the larger the pattern the smaller; then the others, growing. */
  predicate FloatBefore(x: F64, y: F64) {
    if x >= TWO_TO_63 then y < TWO_TO_63 || x >= y else y < TWO_TO_63 && x <= y
  }

  /** It is the order of the numbers, a negative zero before a positive one. */
  lemma FloatOrderIsNumeric(x: F64, y: F64)
    ensures FloatBefore(x, y) <==> Number(x) < Number(y) || (Number(x) == Number(y) && (x >= TWO_TO_63 || y < TWO_TO_63))
  {
    var a, b := if x < TWO_TO_63 then x else x - TWO_TO_63, if y < TWO_TO_63 then y else y - TWO_TO_63;
    if a < b {
      MagnitudeGrows(a, b);
    } else if b < a {
      MagnitudeGrows(b, a);
    }
  }

  // ---- texts ----

  /** The first difference decides, and a proper prefix comes first. */
  ghost predicate TextBefore(a: seq<Byte>, b: seq<Byte>) { exists k: nat :: DiffersAt(a, b, k) }

  predicate DiffersAt(a: seq<Byte>, b: seq<Byte>, k: nat) {
    && k <= |a| && k <= |b| && a[..k] == b[..k]
    && (k == |a| || (k < |b| && a[k] < b[k]))
  }

  lemma {:induction false} TextLeqMeans(a: seq<Byte>, b: seq<Byte>)
    ensures TextLeq(a, b) <==> TextBefore(a, b)
  {
    if a == [] {
      assert DiffersAt(a, b, 0);
    } else if b != [] {
      TextLeqMeans(a[1..], b[1..]);
      if a[0] < b[0] {
        assert DiffersAt(a, b, 0);
      } else if a[0] == b[0] {
        if TextBefore(a, b) {
          var k: nat :| DiffersAt(a, b, k);
          assert k > 0;
          DiffersLater(a, b, k - 1);
          assert DiffersAt(a[1..], b[1..], k - 1);
        }
        if TextBefore(a[1..], b[1..]) {
          var k: nat :| DiffersAt(a[1..], b[1..], k);
          DiffersLater(a, b, k);
          assert DiffersAt(a, b, k + 1);
        }
      } else {
        forall k: nat ensures !DiffersAt(a, b, k) {
          if k > 0 && k <= |a| && k <= |b| { assert a[..k][0] == a[0] && b[..k][0] == b[0]; }
        }
      }
    }
  }

  lemma DiffersLater(a: seq<Byte>, b: seq<Byte>, k: nat)
    requires a != [] && b != [] && a[0] == b[0]
    ensures DiffersAt(a, b, k + 1) == DiffersAt(a[1..], b[1..], k)
  {
    if k + 1 <= |a| && k + 1 <= |b| {
      assert a[..k + 1] == [a[0]] + a[1..][..k] && b[..k + 1] == [b[0]] + b[1..][..k];
      SameTails(a[0], a[1..][..k], b[1..][..k]);
    }
  }

  lemma SameTails(x: Byte, a: seq<Byte>, b: seq<Byte>)
    ensures [x] + a == [x] + b <==> a == b
  {
    if [x] + a == [x] + b {
      SameCut([x], a, [x], b);
    }
  }

  // ---- a buffer ----

  /** The rows of a buffer are in order: numbers by size, texts byte by byte. */
  ghost predicate DataOrdered(data: AdaptiveData, desc: bool)
    requires Sliceable(data)
  {
    forall i: nat, j: nat :: i < j < RowsOf(data) ==> RowSorted(data, desc, i, j)
  }

  ghost predicate RowSorted(data: AdaptiveData, desc: bool, i: nat, j: nat)
    requires Sliceable(data) && i < RowsOf(data) && j < RowsOf(data)
  {
    if desc then RowBefore(data, j, i) else RowBefore(data, i, j)
  }

  ghost predicate RowBefore(data: AdaptiveData, i: nat, j: nat)
    requires Sliceable(data) && i < RowsOf(data) && j < RowsOf(data)
  {
    match data
    case IntBuf(v) => v[i] <= v[j]
    case FloatBuf(v) => FloatBefore(v[i], v[j])
    case StrBuf(_, _) => TextBefore(RowText(data, i), RowText(data, j))
  }

  lemma RowOrdered(data: AdaptiveData, desc: bool, i: nat, j: nat)
    requires Sliceable(data) && i < RowsOf(data) && j < RowsOf(data)
    ensures Ordered(desc, KeysOf(data)[i], KeysOf(data)[j]) <==> RowSorted(data, desc, i, j)
  {
    if data.StrBuf? {
      TextLeqMeans(RowText(data, i), RowText(data, j));
      TextLeqMeans(RowText(data, j), RowText(data, i));
    }
  }

  lemma KeysMean(data: AdaptiveData, desc: bool)
    requires Sliceable(data)
    ensures AllOrdered(KeysOf(data), desc) <==> DataOrdered(data, desc)
  {
    forall i: nat, j: nat | i < j < RowsOf(data)
      ensures Ordered(desc, KeysOf(data)[i], KeysOf(data)[j]) <==> RowSorted(data, desc, i, j)
    {
      RowOrdered(data, desc, i, j);
    }
  }

  /** Checking neighbours decides it. */
  lemma NeighboursMean(data: AdaptiveData, desc: bool)
    requires Sliceable(data)
    ensures AdjacentOrdered(KeysOf(data), desc) <==> DataOrdered(data, desc)
  {
    AdjacentIsAll(KeysOf(data), desc);
    KeysMean(data, desc);
  }

  // ---- the cells ----

  /** SQLite's order of two values of one storage class. */
  ghost predicate CellBefore(a: Cell, b: Cell) {
    match (a, b)
    case (IntCell(x), IntCell(y)) => x <= y
    case (RealCell(x), RealCell(y)) => FloatBefore(x, y)
    case (TextCell(x), TextCell(y)) => TextBefore(x, y)
    case _ => false
  }

  ghost predicate CellSorted(a: Cell, b: Cell, desc: bool) { if desc then CellBefore(b, a) else CellBefore(a, b) }

  /** All integers, all reals, or all texts: no NULL, no blob, no mixture. */
  predicate OneClass(cells: seq<Cell>) {
    || (forall k :: 0 <= k < |cells| ==> cells[k].IntCell?)
    || (forall k :: 0 <= k < |cells| ==> cells[k].RealCell?)
    || (forall k :: 0 <= k < |cells| ==> cells[k].TextCell?)
  }

  lemma {:induction false} BlobIs(cells: seq<Cell>)
    ensures HasBlob(cells) == exists k :: 0 <= k < |cells| && cells[k].BlobCell?
  {
    if cells != [] {
      BlobIs(cells[..|cells| - 1]);
      if HasBlob(cells[..|cells| - 1]) {
        var k :| 0 <= k < |cells| - 1 && cells[..|cells| - 1][k].BlobCell?;
        assert cells[k].BlobCell?;
      }
    }
  }

  lemma NoNull(cells: seq<Cell>)
    ensures NullRows(cells) == [] <==> forall k :: 0 <= k < |cells| ==> !cells[k].NullCell?
  {
    NullRowsAre(cells);
    if NullRows(cells) != [] {
      assert cells[NullRows(cells)[0]].NullCell?;
    }
  }

  /** One storage class, no blob and no NULL, read off the cells. */
  lemma OneClassIs(cells: seq<Cell>)
    ensures OneClass(cells) <==> !Mixed(cells) && !HasBlob(cells) && NullRows(cells) == []
  {
    HasIs(cells);
    BlobIs(cells);
    NoNull(cells);
  }

  /** A text column stays below 2^32 bytes. */
  predicate TextFits(num: Conversions, cells: seq<Cell>) {
    HasText(cells) ==> |Flatten(Rendered(num, cells))| < TWO_TO_32
  }

  lemma ClassSlices(num: Conversions, cells: seq<Cell>)
    requires TextFits(num, cells)
    ensures Sliceable(Serial(num, cells).data) && RowsOf(Serial(num, cells).data) == |cells|
  {
    if HasText(cells) {
      StrSlices(Rendered(num, cells));
    }
  }

  /** In a column of one class each row of the buffer is its cell. */
  lemma RowIsCell(num: Conversions, cells: seq<Cell>, r: nat)
    requires OneClass(cells) && r < |cells| && TextFits(num, cells)
    ensures Sliceable(Serial(num, cells).data) && RowsOf(Serial(num, cells).data) == |cells|
    ensures match Serial(num, cells).data
            case IntBuf(v) => cells[r] == IntCell(v[r])
            case FloatBuf(v) => cells[r] == RealCell(v[r])
            case StrBuf(_, _) => cells[r] == TextCell(RowText(Serial(num, cells).data, r))
  {
    HasIs(cells);
    ClassSlices(num, cells);
    if HasText(cells) {
      StrSlices(Rendered(num, cells));
    }
  }

  /** Two rows of a column of one class are in order exactly when their cells are, as SQLite orders them. */
  lemma CellsInOrder(num: Conversions, cells: seq<Cell>, desc: bool, i: nat, j: nat)
    requires OneClass(cells) && TextFits(num, cells) && i < |cells| && j < |cells|
    ensures Sliceable(Serial(num, cells).data) && RowsOf(Serial(num, cells).data) == |cells|
    ensures Ordered(desc, KeysOf(Serial(num, cells).data)[i], KeysOf(Serial(num, cells).data)[j])
            <==> CellSorted(cells[i], cells[j], desc)
  {
    RowIsCell(num, cells, i);
    RowIsCell(num, cells, j);
    RowOrdered(Serial(num, cells).data, desc, i, j);
  }
}
