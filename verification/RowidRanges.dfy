/** The rowid ranges of a parallel scan, in wrapping i64 arithmetic, and when they give every row once (client.rs). */
module RowidRanges {
  import opened Bytes
  import opened ScanCells

  datatype Row = Row(id: I64, cells: seq<Cell>)

  predicate Ascending(rows: seq<Row>) {
    forall i, j :: 0 <= i < j < |rows| ==> rows[i].id < rows[j].id
  }

  const PARALLEL_MIN_SPAN := 64 * 1024

  /** The gates a scan has passed before it is split. */
  predicate Splits(min: I64, max: I64, parts: nat) {
    2 <= parts <= 12 && max - min >= PARALLEL_MIN_SPAN
  }

  // ---- i64 arithmetic of a release build ----

  function Wrap(n: int): I64 { (n + TWO_TO_63) % TWO_TO_64 - TWO_TO_63 }

  /** Division truncates toward zero. */
  function Quotient(n: int, d: nat): int
    requires d > 0
  {
    if n < 0 then -(-n / d) else n / d
  }

  function Step(min: I64, max: I64, parts: nat): int
    requires parts > 0
  {
    Quotient(Wrap(max - min + 1), parts)
  }

  function Lo(min: I64, max: I64, parts: nat, i: nat): I64
    requires parts > 0
  {
    Wrap(min + Step(min, max, parts) * i)
  }

  function Hi(min: I64, max: I64, parts: nat, i: nat): I64
    requires parts > 0
  {
    if i == parts - 1 then max else Wrap(min + Step(min, max, parts) * (i + 1) - 1)
  }

  // ---- what the workers read ----

  /** `WHERE rowid BETWEEN lo AND hi`, in rowid order. */
  function Between(rows: seq<Row>, lo: int, hi: int): seq<Row> {
    if rows == [] then [] else
      var last := rows[|rows| - 1];
      Between(rows[..|rows| - 1], lo, hi) + if lo <= last.id <= hi then [last] else []
  }

  function Ranges(rows: seq<Row>, min: I64, max: I64, parts: nat): (chunks: seq<seq<Row>>)
    requires parts > 0
    ensures |chunks| == parts
  {
    seq(parts, i requires 0 <= i < parts => Between(rows, Lo(min, max, parts, i), Hi(min, max, parts, i)))
  }

  /** The endpoints the scan asked for. */
  ghost predicate Spans(rows: seq<Row>, min: I64, max: I64) {
    rows != [] && Ascending(rows) && rows[0].id == min && rows[|rows| - 1].id == max
  }

  lemma {:induction false} BetweenNone(rows: seq<Row>, lo: int, hi: int)
    requires forall k :: 0 <= k < |rows| ==> !(lo <= rows[k].id <= hi)
    ensures Between(rows, lo, hi) == []
  {
    if rows != [] {
      BetweenNone(rows[..|rows| - 1], lo, hi);
    }
  }

  lemma {:induction false} BetweenAll(rows: seq<Row>, lo: int, hi: int)
    requires forall k :: 0 <= k < |rows| ==> lo <= rows[k].id <= hi
    ensures Between(rows, lo, hi) == rows
  {
    if rows != [] {
      BetweenAll(rows[..|rows| - 1], lo, hi);
    }
  }

  /** Adjacent ranges read adjacent rows. */
  lemma {:induction false} BetweenJoin(rows: seq<Row>, lo: int, mid: int, hi: int)
    requires Ascending(rows) && lo <= mid + 1 && mid <= hi
    ensures Between(rows, lo, mid) + Between(rows, mid + 1, hi) == Between(rows, lo, hi)
  {
    if rows != [] {
      var init, last := rows[..|rows| - 1], rows[|rows| - 1];
      BetweenJoin(init, lo, mid, hi);
      var low, high := Between(init, lo, mid), Between(init, mid + 1, hi);
      if lo <= last.id <= mid {
        EarlierBelow(rows, mid + 1, hi);
        assert high == [] && low + [last] + high == low + high + [last];
      } else {
        var tail := if mid + 1 <= last.id <= hi then [last] else [];
        assert low + (high + tail) == low + high + tail;
      }
    }
  }

  lemma EarlierBelow(rows: seq<Row>, lo: int, hi: int)
    requires rows != [] && Ascending(rows) && rows[|rows| - 1].id < lo
    ensures Between(rows[..|rows| - 1], lo, hi) == []
  {
    BetweenNone(rows[..|rows| - 1], lo, hi);
  }

  // ---- the span fits i64 ----

  lemma MulMono(i: nat, j: nat, q: nat)
    requires i <= j
    ensures i * q <= j * q
  {
  }

  /** Where range `i` starts when nothing wraps. */
  function Cut(min: I64, max: I64, parts: nat, i: nat): int
    requires parts > 0 && min <= max
  {
    min + i * ((max - min + 1) / parts)
  }

  lemma CutFacts(min: I64, max: I64, parts: nat, i: nat)
    requires min <= max && i < parts
    ensures min <= Cut(min, max, parts, i) <= Cut(min, max, parts, i + 1) <= max + 1
    ensures Cut(min, max, parts, 0) == min
  {
    var q := (max - min + 1) / parts;
    MulMono(i, i + 1, q);
    MulMono(i + 1, parts, q);
    MulMono(0, i, q);
    assert parts * q <= max - min + 1;
  }

  lemma PlainBounds(min: I64, max: I64, parts: nat, i: nat)
    requires Splits(min, max, parts) && max - min + 1 < TWO_TO_63 && i < parts
    ensures Lo(min, max, parts, i) == Cut(min, max, parts, i)
    ensures Hi(min, max, parts, i) == if i == parts - 1 then max else Cut(min, max, parts, i + 1) - 1
  {
    CutFacts(min, max, parts, i);
    var q := (max - min + 1) / parts;
    assert q >= 1;
    MulMono(1, i + 1, q);
    assert Step(min, max, parts) == q;
    assert q * i == i * q && q * (i + 1) == (i + 1) * q;
    WrapPlain(Cut(min, max, parts, i));
    WrapPlain(Cut(min, max, parts, i + 1) - 1);
  }

  lemma WrapPlain(n: int)
    requires -TWO_TO_63 <= n < TWO_TO_63
    ensures Wrap(n) == n
  {
  }

  /** Without overflow the ranges tile [min, max]: the first `i` of them read exactly the rows up to the i-th end. */
  lemma {:induction false} PlainPrefix(rows: seq<Row>, min: I64, max: I64, parts: nat, i: nat)
    requires Splits(min, max, parts) && Spans(rows, min, max) && max - min + 1 < TWO_TO_63 && 0 < i <= parts
    ensures Flatten(Ranges(rows, min, max, parts)[..i]) == Between(rows, min, Hi(min, max, parts, i - 1))
  {
    var chunks := Ranges(rows, min, max, parts);
    assert chunks[..i] == chunks[..i - 1] + [chunks[i - 1]];
    FlattenSnoc(chunks[..i - 1], chunks[i - 1]);
    assert min <= max;
    CutFacts(min, max, parts, i - 1);
    PlainBounds(min, max, parts, i - 1);
    var lo, hi := Lo(min, max, parts, i - 1), Hi(min, max, parts, i - 1);
    assert chunks[i - 1] == Between(rows, lo, hi);
    if i == 1 {
      assert chunks[..0] == [];
    } else {
      PlainPrefix(rows, min, max, parts, i - 1);
      CutFacts(min, max, parts, i - 2);
      PlainBounds(min, max, parts, i - 2);
      BetweenJoin(rows, min, lo - 1, hi);
    }
  }

  // ---- the span overflows ----

  /** Free rowids below min, and the size of the (negative) step. */
  function Below(min: I64): nat { min + TWO_TO_63 }

  function Back(min: I64, max: I64, parts: nat): nat
    requires parts > 0 && min <= max
  {
    (TWO_TO_64 - (max - min + 1)) / parts
  }

  /** How far behind min range `i` starts. */
  function Behind(min: I64, max: I64, parts: nat, i: nat): nat
    requires parts > 0 && min <= max
  {
    if i == 0 then 0 else Behind(min, max, parts, i - 1) + Back(min, max, parts)
  }

  lemma {:induction false} BehindIs(min: I64, max: I64, parts: nat, i: nat)
    requires parts > 0 && min <= max
    ensures Behind(min, max, parts, i) == i * Back(min, max, parts)
  {
    if i > 0 {
      BehindIs(min, max, parts, i - 1);
    }
  }

  lemma {:induction false} BehindMono(min: I64, max: I64, parts: nat, i: nat, j: nat)
    requires parts > 0 && min <= max && i <= j
    ensures Behind(min, max, parts, i) <= Behind(min, max, parts, j)
  {
    if i < j {
      BehindMono(min, max, parts, i, j - 1);
    }
  }

  /** An overflowed range reads everything or nothing. */
  predicate Full(min: I64, max: I64, parts: nat, i: nat)
    requires i < parts && min <= max
  {
    Behind(min, max, parts, i) <= Below(min) && (i == parts - 1 || Below(min) <= Behind(min, max, parts, i + 1))
  }

  lemma WrapBelow(n: int)
    requires -TWO_TO_63 - TWO_TO_64 <= n < TWO_TO_63
    ensures Wrap(n) == if n >= -TWO_TO_63 then n else n + TWO_TO_64
  {
  }

  lemma BackStep(min: I64, max: I64, parts: nat)
    requires min <= max && max - min + 1 >= TWO_TO_63 && parts > 0
    ensures Step(min, max, parts) == 0 - Back(min, max, parts)
    ensures Back(min, max, parts) * parts <= TWO_TO_64 - (max - min + 1)
  {
  }

  lemma NegProduct(q: nat, i: nat)
    ensures (0 - q) * i == 0 - i * q
  {
  }

  /** A start or an end `behind` before min, wrapped. */
  function Wrapped(min: I64, behind: nat): int {
    if behind <= Below(min) then min - behind else min - behind + TWO_TO_64
  }

  lemma OverflowBounds(min: I64, max: I64, parts: nat, i: nat)
    requires min <= max && max - min + 1 >= TWO_TO_63 && i < parts
    ensures Behind(min, max, parts, i + 1) <= TWO_TO_64 - (max - min + 1)
    ensures Lo(min, max, parts, i) == Wrapped(min, Behind(min, max, parts, i))
    ensures Hi(min, max, parts, i) == if i == parts - 1 then max else Wrapped(min, Behind(min, max, parts, i + 1) + 1)
  {
    var q := Back(min, max, parts);
    BackStep(min, max, parts);
    BehindMono(min, max, parts, i, i + 1);
    BehindMono(min, max, parts, i + 1, parts);
    BehindIs(min, max, parts, i);
    BehindIs(min, max, parts, i + 1);
    BehindIs(min, max, parts, parts);
    NegProduct(q, i);
    NegProduct(q, i + 1);
    WrapBelow(min - Behind(min, max, parts, i));
    WrapBelow(min - Behind(min, max, parts, i + 1) - 1);
  }

  lemma OverflowRange(rows: seq<Row>, min: I64, max: I64, parts: nat, i: nat)
    requires Spans(rows, min, max) && max - min + 1 >= TWO_TO_63 && i < parts
    ensures Ranges(rows, min, max, parts)[i] == if Full(min, max, parts, i) then rows else []
  {
    OverflowBounds(min, max, parts, i);
    BehindMono(min, max, parts, i, i + 1);
    OverflowReads(rows, min, max, Lo(min, max, parts, i), Hi(min, max, parts, i),
                  Behind(min, max, parts, i), Behind(min, max, parts, i + 1), i == parts - 1);
  }

  lemma OverflowReads(rows: seq<Row>, min: I64, max: I64, lo: I64, hi: I64, near: nat, far: nat, last: bool)
    requires Spans(rows, min, max) && near <= far <= TWO_TO_64 - (max - min + 1)
    requires lo == Wrapped(min, near) && hi == if last then max else Wrapped(min, far + 1)
    ensures Between(rows, lo, hi) == if near <= Below(min) && (last || Below(min) <= far) then rows else []
  {
    assert forall k :: 0 <= k < |rows| ==> min <= rows[k].id <= max;
    if near <= Below(min) && (last || Below(min) <= far) {
      BetweenAll(rows, lo, hi);
    } else {
      assert hi < min || max < lo || hi < lo;
      BetweenNone(rows, lo, hi);
    }
  }

  /** Two of the ranges read the whole table. */
  predicate ReadTwice(min: I64, max: I64, parts: nat)
    requires parts > 0 && min <= max
  {
    max - min + 1 >= TWO_TO_63 && exists m: nat :: m < parts && WholeSteps(min, max, parts, m)
  }

  /** The lowest rowid is `m` steps above the smallest i64. */
  predicate WholeSteps(min: I64, max: I64, parts: nat, m: nat)
    requires parts > 0 && min <= max
  {
    1 <= m < parts && Below(min) == m * Back(min, max, parts)
  }

  lemma {:induction false} OneFull(chunks: seq<seq<Row>>, rows: seq<Row>, i: nat)
    requires i < |chunks| && chunks[i] == rows && forall j :: 0 <= j < |chunks| && j != i ==> chunks[j] == []
    ensures Flatten(chunks) == rows
  {
    if i == 0 {
      NoneFull(chunks[1..]);
    } else {
      OneFull(chunks[1..], rows, i - 1);
    }
  }

  lemma {:induction false} NoneFull(chunks: seq<seq<Row>>)
    requires forall j :: 0 <= j < |chunks| ==> chunks[j] == []
    ensures Flatten(chunks) == []
  {
    if chunks != [] {
      NoneFull(chunks[1..]);
    }
  }

  lemma TwoFull(chunks: seq<seq<Row>>, i: nat, j: nat)
    requires i < j < |chunks|
    ensures |Flatten(chunks)| >= |chunks[i]| + |chunks[j]|
  {
    assert chunks == chunks[..j] + chunks[j..];
    FlattenConcat(chunks[..j], chunks[j..]);
    FlattenSlice(chunks[..j], i);
    FlattenSlice(chunks[j..], 0);
  }

  /** Some overflowed range is full, and two are exactly when `ReadTwice`. */
  lemma {:induction false} FirstFull(min: I64, max: I64, parts: nat, n: nat) returns (i: nat)
    requires min <= max && n < parts && Behind(min, max, parts, n) <= Below(min)
    ensures n <= i < parts && Full(min, max, parts, i)
    decreases parts - n
  {
    if n == parts - 1 || Below(min) <= Behind(min, max, parts, n + 1) {
      i := n;
    } else {
      i := FirstFull(min, max, parts, n + 1);
    }
  }

  lemma FullTwice(min: I64, max: I64, parts: nat, i: nat, j: nat)
    requires min <= max && i < j < parts && Full(min, max, parts, i) && Full(min, max, parts, j)
    ensures WholeSteps(min, max, parts, j)
  {
    BehindMono(min, max, parts, i + 1, j);
    BehindIs(min, max, parts, j);
  }

  lemma TwiceFull(min: I64, max: I64, parts: nat, m: nat)
    requires parts > 0 && min <= max && WholeSteps(min, max, parts, m)
    ensures Full(min, max, parts, m - 1) && Full(min, max, parts, m)
  {
    BehindIs(min, max, parts, m);
    BehindMono(min, max, parts, m - 1, m);
    BehindMono(min, max, parts, m, m + 1);
  }

  /** The ranges read every row once and in order, if and only if the span fits i64, or overflows without the lowest
      rowid sitting a whole number of steps above the smallest i64. */
  lemma RangesCover(rows: seq<Row>, min: I64, max: I64, parts: nat)
    requires 2 <= parts <= 12 && max - min >= 0x1_0000 && Spans(rows, min, max)
    ensures Flatten(Ranges(rows, min, max, parts)) == rows <==> !ReadTwice(min, max, parts)
  {
    if max - min + 1 < TWO_TO_63 {
      PlainPrefix(rows, min, max, parts, parts);
      assert Ranges(rows, min, max, parts)[..parts] == Ranges(rows, min, max, parts);
      assert forall k :: 0 <= k < |rows| ==> min <= rows[k].id <= max;
      BetweenAll(rows, min, max);
    } else {
      OverflowCover(rows, min, max, parts);
    }
  }

  lemma OverflowCover(rows: seq<Row>, min: I64, max: I64, parts: nat)
    requires Splits(min, max, parts) && Spans(rows, min, max) && max - min + 1 >= TWO_TO_63
    ensures Flatten(Ranges(rows, min, max, parts)) == rows <==> !ReadTwice(min, max, parts)
  {
    if ReadTwice(min, max, parts) {
      var m: nat :| WholeSteps(min, max, parts, m);
      TwiceFull(min, max, parts, m);
      OverflowRange(rows, min, max, parts, m - 1);
      OverflowRange(rows, min, max, parts, m);
      TwoFull(Ranges(rows, min, max, parts), m - 1, m);
    } else {
      var i := FirstFull(min, max, parts, 0);
      forall j | 0 <= j < parts ensures Ranges(rows, min, max, parts)[j] == if j == i then rows else [] {
        OnlyFull(rows, min, max, parts, i, j);
      }
      OneFull(Ranges(rows, min, max, parts), rows, i);
    }
  }

  lemma OnlyFull(rows: seq<Row>, min: I64, max: I64, parts: nat, i: nat, j: nat)
    requires Spans(rows, min, max) && max - min + 1 >= TWO_TO_63 && i < parts && j < parts
    requires !ReadTwice(min, max, parts) && Full(min, max, parts, i)
    ensures Ranges(rows, min, max, parts)[j] == if j == i then rows else []
  {
    OverflowRange(rows, min, max, parts, j);
    if j != i && Full(min, max, parts, j) {
      FullTwice(min, max, parts, if i < j then i else j, if i < j then j else i);
      assert false;
    }
  }

  /** It happens: over a table that holds the smallest and the largest rowid, both of two workers read everything. */
  lemma WholeSpanReadTwice(rows: seq<Row>)
    requires Spans(rows, -TWO_TO_63, TWO_TO_63 - 1)
    ensures Splits(-TWO_TO_63, TWO_TO_63 - 1, 2) && ReadTwice(-TWO_TO_63, TWO_TO_63 - 1, 2)
    ensures Ranges(rows, -TWO_TO_63, TWO_TO_63 - 1, 2) == [rows, rows]
  {
    assert WholeSteps(-TWO_TO_63, TWO_TO_63 - 1, 2, 1);
    BetweenAll(rows, -TWO_TO_63, TWO_TO_63 - 1);
  }

  /** Two rows are such a table. */
  lemma TwoRowsReadTwice(a: seq<Cell>, b: seq<Cell>)
    ensures var rows := [Row(-TWO_TO_63, a), Row(TWO_TO_63 - 1, b)];
            Spans(rows, -TWO_TO_63, TWO_TO_63 - 1) && Flatten(Ranges(rows, -TWO_TO_63, TWO_TO_63 - 1, 2)) == rows + rows
  {
    var rows := [Row(-TWO_TO_63, a), Row(TWO_TO_63 - 1, b)];
    WholeSpanReadTwice(rows);
    FlattenTwo([rows, rows]);
  }

  lemma FlattenTwo(chunks: seq<seq<Row>>)
    requires |chunks| == 2
    ensures Flatten(chunks) == chunks[0] + chunks[1]
  {
    assert Flatten(chunks[1..][1..]) == [];
    assert Flatten(chunks[1..]) == chunks[1] + [];
  }
}
