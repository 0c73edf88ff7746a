/** Bytes, little-endian numbers and byte-level layout, shared by every module that touches a wire format. */
module Bytes {

  type Byte = b: int | 0 <= b < 256

  const TWO_TO_32 := 0x1_0000_0000
  const TWO_TO_63 := 0x8000_0000_0000_0000
  const TWO_TO_64 := 0x1_0000_0000_0000_0000

  type I64 = i: int | -TWO_TO_63 <= i < TWO_TO_63
  /** The 64 bits of an f64; its arithmetic is never looked into. */
  type F64 = f: int | 0 <= f < TWO_TO_64

  datatype Option<+T> = None | Some(value: T)

  /** No element twice. */
  predicate NoRepeat<T(==)>(s: seq<T>) { forall j, k :: 0 <= j < k < |s| ==> s[j] != s[k] }

  /** Two ways to cut one sequence at the same place are one. */
  lemma SameCut<T>(a: seq<T>, x: seq<T>, b: seq<T>, y: seq<T>)
    requires a + x == b + y && |a| == |b|
    ensures a == b && x == y
  {
    assert a == (a + x)[..|a|] == b && x == (a + x)[|a|..] == y;
  }

  lemma Assoc<T>(x: seq<T>, y: seq<T>, z: seq<T>)
    ensures x + (y + z) == x + y + z
  {
  }

  function UpperChar(c: char): char { if 'a' <= c <= 'z' then c - 32 as char else c }

  /** `to_ascii_uppercase` */
  function Upper(s: string): string { seq(|s|, k requires 0 <= k < |s| => UpperChar(s[k])) }

  /** The `as u32` cast. */
  function U32(n: nat): nat { n % TWO_TO_32 }

  /** Wrapping addition forgets where it wrapped. */
  lemma U32Wraps(a: nat, b: nat)
    ensures U32(U32(a) + b) == U32(a + b) && U32(a + U32(b)) == U32(a + b)
  {
  }

  function Pow256(width: nat): nat {
    if width == 0 then 1 else 256 * Pow256(width - 1)
  }

  /** The low `width` bytes of `n`, least significant first. */
  function Le(n: nat, width: nat): (bs: seq<Byte>)
    ensures |bs| == width
  {
    if width == 0 then [] else [n % 256] + Le(n / 256, width - 1)
  }

  function FromLe(bs: seq<Byte>): nat {
    if bs == [] then 0 else bs[0] + 256 * FromLe(bs[1..])
  }

  lemma {:induction false} LeRoundTrip(n: nat, width: nat)
    requires n < Pow256(width)
    ensures FromLe(Le(n, width)) == n
  {
    if width > 0 {
      LeRoundTrip(n / 256, width - 1);
    }
  }

  lemma {:induction false} FromLeBound(bs: seq<Byte>)
    ensures FromLe(bs) < Pow256(|bs|)
  {
    if bs != [] {
      FromLeBound(bs[1..]);
    }
  }

  lemma Pow256Values()
    ensures Pow256(2) == 0x1_0000 && Pow256(4) == TWO_TO_32 && Pow256(8) == TWO_TO_64
  {
    assert Pow256(3) == 0x100_0000;
    assert Pow256(5) == 0x100_0000_0000;
    assert Pow256(6) == 0x1_0000_0000_0000;
    assert Pow256(7) == 0x100_0000_0000_0000;
  }

  /** `u32::to_le_bytes` of a cast value reads back as the cast value. */
  lemma {:induction false} U32RoundTrip(n: nat)
    ensures FromLe(Le(U32(n), 4)) == U32(n)
  {
    Pow256Values();
    LeRoundTrip(U32(n), 4);
  }

  /** Two's complement: the bit pattern of an i64. */
  function I64Bits(i: I64): (n: nat)
    ensures n < TWO_TO_64
  {
    if i < 0 then i + TWO_TO_64 else i
  }

  /** The i64 whose bit pattern is the low 64 bits of `n`. */
  function BitsI64(n: nat): I64 {
    var bits := n % TWO_TO_64;
    if bits >= TWO_TO_63 then bits - TWO_TO_64 else bits
  }

  lemma I64BitsBack(i: I64)
    ensures BitsI64(I64Bits(i)) == i
  {
  }

  function BitsF64(n: nat): F64 { n % TWO_TO_64 }

  lemma {:induction false} U64RoundTrip(n: nat)
    requires n < TWO_TO_64
    ensures FromLe(Le(n, 8)) == n
  {
    Pow256Values();
    LeRoundTrip(n, 8);
  }

  function Zeros(n: nat): (z: seq<Byte>)
    ensures |z| == n && forall i :: 0 <= i < n ==> z[i] == 0
  {
    seq(n, _ => 0)
  }

  /** Bytes to add after position `p` to reach a multiple of 8. */
  function Gap(p: nat): (g: nat)
    ensures g < 8 && (p + g) % 8 == 0
  {
    (8 - p % 8) % 8
  }

  function Flatten<T>(parts: seq<seq<T>>): seq<T> {
    if parts == [] then [] else parts[0] + Flatten(parts[1..])
  }

  lemma {:induction false} FlattenConcat<T>(a: seq<seq<T>>, b: seq<seq<T>>)
    ensures Flatten(a + b) == Flatten(a) + Flatten(b)
  {
    if a == [] {
      assert a + b == b;
    } else {
      FlattenConcat(a[1..], b);
      assert (a + b)[0] == a[0] && (a + b)[1..] == a[1..] + b;
      var x, y, z := a[0], Flatten(a[1..]), Flatten(b);
      assert x + (y + z) == (x + y) + z;
    }
  }

  lemma {:induction false} FlattenSnoc<T>(a: seq<seq<T>>, x: seq<T>)
    ensures Flatten(a + [x]) == Flatten(a) + x
  {
    FlattenConcat(a, [x]);
    assert Flatten([x]) == x + Flatten<T>([]);
  }

  /** Where part `k` sits inside the flattened whole. */
  lemma {:induction false} FlattenSlice<T>(parts: seq<seq<T>>, k: nat)
    requires k < |parts|
    ensures |Flatten(parts[..k])| + |parts[k]| <= |Flatten(parts)|
    ensures Flatten(parts)[|Flatten(parts[..k])|..|Flatten(parts[..k])| + |parts[k]|] == parts[k]
  {
    assert parts == parts[..k] + [parts[k]] + parts[k + 1..];
    FlattenConcat(parts[..k] + [parts[k]], parts[k + 1..]);
    FlattenSnoc(parts[..k], parts[k]);
  }

  /** The u32 offsets of a packed list of texts: where each one starts, and where the last one ends. */
  function Offsets(texts: seq<seq<Byte>>): (os: seq<nat>)
    ensures |os| == |texts| + 1
    ensures forall i :: 0 <= i <= |texts| ==> os[i] == U32(|Flatten(texts[..i])|)
  {
    seq(|texts| + 1, i requires 0 <= i <= |texts| => U32(|Flatten(texts[..i])|))
  }

  lemma OffsetsSnoc(texts: seq<seq<Byte>>, x: seq<Byte>)
    ensures Offsets(texts + [x]) == Offsets(texts) + [U32(|Flatten(texts)| + |x|)]
  {
    FlattenSnoc(texts, x);
    forall i | 0 <= i <= |texts| ensures (texts + [x])[..i] == texts[..i] {
    }
    assert (texts + [x])[..|texts| + 1] == texts + [x];
  }

  /** Below 2^32 bytes no offset wraps, so slicing by them gives each text back. */
  lemma OffsetsSlice(texts: seq<seq<Byte>>, k: nat)
    requires |Flatten(texts)| < TWO_TO_32 && k < |texts|
    ensures Offsets(texts)[k] <= Offsets(texts)[k + 1] <= |Flatten(texts)|
    ensures Flatten(texts)[Offsets(texts)[k]..Offsets(texts)[k + 1]] == texts[k]
  {
    FlattenSlice(texts, k);
    assert texts[..k + 1] == texts[..k] + [texts[k]];
    FlattenSnoc(texts[..k], texts[k]);
  }
}
