/** LSB-first bit packing: the validity bitmaps and the bool payload of a column. */
module Bitmaps {
  import opened Bytes

  function Pow2(k: nat): (p: nat)
    ensures p > 0
  {
    if k == 0 then 1 else 2 * Pow2(k - 1)
  }

  /** `n & 1 << k != 0` */
  predicate TestBit(n: nat, k: nat) {
    if k == 0 then n % 2 == 1 else TestBit(n / 2, k - 1)
  }

  /** `n | 1 << k` */
  function SetBit(n: nat, k: nat): nat {
    if k == 0 then n - n % 2 + 1 else n % 2 + 2 * SetBit(n / 2, k - 1)
  }

  /** `n & !(1 << k)` */
  function ClearBit(n: nat, k: nat): nat {
    if k == 0 then n - n % 2 else n % 2 + 2 * ClearBit(n / 2, k - 1)
  }

  lemma {:induction false} SetBitBits(n: nat, k: nat, j: nat)
    ensures TestBit(SetBit(n, k), j) == (j == k || TestBit(n, j))
  {
    if k > 0 && j > 0 {
      SetBitBits(n / 2, k - 1, j - 1);
    }
  }

  lemma {:induction false} ClearBitBits(n: nat, k: nat, j: nat)
    ensures TestBit(ClearBit(n, k), j) == (j != k && TestBit(n, j))
  {
    if k > 0 && j > 0 {
      ClearBitBits(n / 2, k - 1, j - 1);
    }
  }

  lemma {:induction false} BitBounds(n: nat, k: nat, w: nat)
    requires n < Pow2(w) && k < w
    ensures SetBit(n, k) < Pow2(w) && ClearBit(n, k) < Pow2(w)
  {
    if k > 0 {
      BitBounds(n / 2, k - 1, w - 1);
    }
  }

  lemma Pow2Eight()
    ensures Pow2(8) == 256
  {
    assert Pow2(4) == 16;
  }

  /** Two numbers below 2^w with the same w bits are the same number. */
  lemma {:induction false} BitsDetermine(a: nat, b: nat, w: nat)
    requires a < Pow2(w) && b < Pow2(w)
    requires forall j :: 0 <= j < w ==> TestBit(a, j) == TestBit(b, j)
    ensures a == b
  {
    if w > 0 {
      assert TestBit(a, 0) == TestBit(b, 0);
      forall j | 0 <= j < w - 1 ensures TestBit(a / 2, j) == TestBit(b / 2, j) {
        assert TestBit(a, j + 1) == TestBit(b, j + 1);
      }
      BitsDetermine(a / 2, b / 2, w - 1);
    }
  }

  /** The low `w` bits, all set: `(1 << w) - 1`. */
  lemma {:induction false} OnesBits(w: nat, j: nat)
    ensures TestBit(Pow2(w) - 1, j) == (j < w)
  {
    if w == 0 {
      ZeroBits(j);
    } else if j > 0 {
      assert (Pow2(w) - 1) / 2 == Pow2(w - 1) - 1;
      OnesBits(w - 1, j - 1);
    }
  }

  lemma {:induction false} ZeroBits(j: nat)
    ensures !TestBit(0, j)
  {
    if j > 0 {
      ZeroBits(j - 1);
    }
  }

  /** `usize::div_ceil(8)` */
  function BitsLen(n: nat): nat { (n + 7) / 8 }

  /** `bits[i / 8] & 1 << i % 8 != 0` */
  predicate BitAt(bits: seq<Byte>, i: nat)
    requires i < 8 * |bits|
  {
    TestBit(bits[i / 8], i % 8)
  }

  /** What a bitmap of `flags` is: bit `i` says flag `i`, and the spare bits of the last byte are clear. */
  ghost predicate Packs(bits: seq<Byte>, flags: seq<bool>) {
    && |bits| == BitsLen(|flags|)
    && forall i :: 0 <= i < 8 * |bits| ==> BitAt(bits, i) == (i < |flags| && flags[i])
  }

  /** `Packs` leaves no freedom: the bitmap is determined by its flags. */
  lemma PacksUnique(a: seq<Byte>, b: seq<Byte>, flags: seq<bool>)
    requires Packs(a, flags) && Packs(b, flags)
    ensures a == b
  {
    forall k | 0 <= k < |a| ensures a[k] == b[k] {
      forall j | 0 <= j < 8 ensures TestBit(a[k], j) == TestBit(b[k], j) {
        assert BitAt(a, 8 * k + j) == BitAt(b, 8 * k + j);
      }
      Pow2Eight();
      BitsDetermine(a[k], b[k], 8);
    }
  }

  /** The bits of the first `n` rows, in order: the reader's view. */
  function Unpack(bits: seq<Byte>, n: nat): (flags: seq<bool>)
    requires n <= 8 * |bits|
    ensures |flags| == n && forall i :: 0 <= i < n ==> flags[i] == BitAt(bits, i)
  {
    seq(n, i requires 0 <= i < n => BitAt(bits, i))
  }

  /** Appending a flag: a fresh zero byte at a byte boundary, then the bit. */
  function PushBit(bits: seq<Byte>, len: nat, flag: bool): (r: seq<Byte>)
    requires |bits| == BitsLen(len)
    ensures |r| == BitsLen(len + 1)
  {
    var grown := if len % 8 == 0 then bits + [0] else bits;
    if flag then
      Pow2Eight();
      BitBounds(grown[len / 8], len % 8, 8);
      grown[len / 8 := SetBit(grown[len / 8], len % 8)]
    else grown
  }

  lemma PushBitPacks(bits: seq<Byte>, flags: seq<bool>, flag: bool)
    requires Packs(bits, flags)
    ensures Packs(PushBit(bits, |flags|, flag), flags + [flag])
  {
    var len := |flags|;
    var r := PushBit(bits, len, flag);
    var grown := if len % 8 == 0 then bits + [0] else bits;
    forall i | 0 <= i < 8 * |r| ensures BitAt(r, i) == (i < len + 1 && (flags + [flag])[i]) {
      if i < 8 * |bits| {
        assert BitAt(bits, i) == (i < len && flags[i]);
      } else {
        ZeroBits(i % 8);
      }
      if i / 8 == len / 8 {
        SetBitBits(grown[len / 8], len % 8, i % 8);
      }
    }
  }

  function Pack(flags: seq<bool>): (bits: seq<Byte>)
    ensures |bits| == BitsLen(|flags|)
  {
    if flags == [] then [] else
      PushBit(Pack(flags[..|flags| - 1]), |flags| - 1, flags[|flags| - 1])
  }

  lemma {:induction false} PackPacks(flags: seq<bool>)
    ensures Packs(Pack(flags), flags)
  {
    if flags != [] {
      var init := flags[..|flags| - 1];
      PackPacks(init);
      PushBitPacks(Pack(init), init, flags[|flags| - 1]);
      assert flags == init + [flags[|flags| - 1]];
    }
  }

  /** Reading a packed bitmap gives the flags back. */
  lemma UnpackPack(flags: seq<bool>)
    ensures Unpack(Pack(flags), |flags|) == flags
  {
    PackPacks(flags);
    var r := Unpack(Pack(flags), |flags|);
    forall i | 0 <= i < |flags| ensures r[i] == flags[i] {
      assert r[i] == BitAt(Pack(flags), i);
    }
  }
}
