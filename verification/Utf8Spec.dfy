/** Well-formed UTF-8 by its definition (section 3 of RFC 3629), and what the lossy repair puts for the rest. */
module Utf8Spec {
  import opened Bytes
  import opened Utf8Text

  /** Code points other than the surrogates. */
  predicate IsScalar(c: nat) { c < 0xD800 || 0xE000 <= c < 0x11_0000 }

  function Encode(c: nat): (bs: seq<Byte>)
    requires IsScalar(c)
    ensures 1 <= |bs| <= 4
  {
    if c < 0x80 then [c]
    else if c < 0x800 then [0xC0 + c / 64, 0x80 + c % 64]
    else if c < 0x1_0000 then [0xE0 + c / 4096, 0x80 + c / 64 % 64, 0x80 + c % 64]
    else [0xF0 + c / 26_2144, 0x80 + c / 4096 % 64, 0x80 + c / 64 % 64, 0x80 + c % 64]
  }

  predicate Scalars(cs: seq<nat>) { forall k :: 0 <= k < |cs| ==> IsScalar(cs[k]) }

  function EncodeAll(cs: seq<nat>): seq<Byte>
    requires Scalars(cs)
  {
    if cs == [] then [] else Encode(cs[0]) + EncodeAll(cs[1..])
  }

  // ---- one sequence ----

  lemma TwoBytes(a: Byte, b: Byte) returns (c: nat)
    requires Width(a) == 2 && SecondOk(a, b)
    ensures IsScalar(c) && Encode(c) == [a, b]
  {
    c := (a - 0xC0) * 64 + (b - 0x80);
    assert c / 64 == a - 0xC0 && c % 64 == b - 0x80;
  }

  lemma ThreeBytes(a: Byte, b: Byte, d: Byte) returns (c: nat)
    requires Width(a) == 3 && SecondOk(a, b) && IsCont(d)
    ensures IsScalar(c) && Encode(c) == [a, b, d]
  {
    c := (a - 0xE0) * 4096 + (b - 0x80) * 64 + (d - 0x80);
    assert c / 64 == (a - 0xE0) * 64 + (b - 0x80) && c % 64 == d - 0x80;
    assert c / 4096 == a - 0xE0 && c / 64 % 64 == b - 0x80;
  }

  lemma FourBytes(a: Byte, b: Byte, d: Byte, e: Byte) returns (c: nat)
    requires Width(a) == 4 && SecondOk(a, b) && IsCont(d) && IsCont(e)
    ensures IsScalar(c) && Encode(c) == [a, b, d, e]
  {
    c := (a - 0xF0) * 26_2144 + (b - 0x80) * 4096 + (d - 0x80) * 64 + (e - 0x80);
    assert c / 64 == (a - 0xF0) * 4096 + (b - 0x80) * 64 + (d - 0x80) && c % 64 == e - 0x80;
    assert c / 4096 == (a - 0xF0) * 64 + (b - 0x80) && c / 64 % 64 == d - 0x80;
    assert c / 26_2144 == a - 0xF0 && c / 4096 % 64 == b - 0x80;
  }

  /** What the scanner takes for a sequence encodes a scalar value. */
  lemma HeadDecodes(bs: seq<Byte>) returns (c: nat)
    requires bs != [] && HeadOk(bs)
    ensures IsScalar(c) && Encode(c) == bs[..Matched(bs)]
  {
    var n := Matched(bs);
    if n == 1 {
      c := bs[0];
    } else if n == 2 {
      c := TwoBytes(bs[0], bs[1]);
    } else if n == 3 {
      c := ThreeBytes(bs[0], bs[1], bs[2]);
    } else {
      c := FourBytes(bs[0], bs[1], bs[2], bs[3]);
    }
  }

  lemma EncodeShape(c: nat)
    requires IsScalar(c)
    ensures var e := Encode(c);
            && Width(e[0]) == |e| && (|e| >= 2 ==> SecondOk(e[0], e[1]))
            && (|e| >= 3 ==> IsCont(e[2])) && (|e| == 4 ==> IsCont(e[3]))
  {
    var q, r, s := c / 64, c / 4096, c / 26_2144;
    assert c == 64 * q + c % 64 && c == 4096 * r + c % 4096 && c == 26_2144 * s + c % 26_2144;
    assert q == 64 * r + q % 64 && r == 64 * s + r % 64;
  }

  /** The scanner agrees with any encoding as far as it goes. */
  lemma PrefixMatches(c: nat, bs: seq<Byte>, n: nat)
    requires IsScalar(c) && 1 <= n <= |Encode(c)| && n <= |bs| && bs[..n] == Encode(c)[..n]
    ensures Matched(bs) >= n && (n == |Encode(c)| ==> HeadOk(bs) && Matched(bs) == n)
  {
    EncodeShape(c);
    var e := Encode(c);
    assert forall k :: 0 <= k < n ==> bs[k] == bs[..n][k] == e[..n][k] == e[k];
  }

  // ---- whole texts ----

  lemma {:induction false} DecodeAll(bs: seq<Byte>) returns (cs: seq<nat>)
    requires Valid(bs)
    ensures Scalars(cs) && EncodeAll(cs) == bs
  {
    if bs == [] {
      cs := [];
    } else {
      var c := HeadDecodes(bs);
      var rest := DecodeAll(bs[Matched(bs)..]);
      cs := [c] + rest;
      assert cs[1..] == rest;
      assert bs == bs[..Matched(bs)] + bs[Matched(bs)..];
    }
  }

  lemma {:induction false} EncodeAllValid(cs: seq<nat>)
    requires Scalars(cs)
    ensures Valid(EncodeAll(cs))
  {
    if cs != [] {
      var e, rest := Encode(cs[0]), EncodeAll(cs[1..]);
      EncodeAllValid(cs[1..]);
      assert (e + rest)[..|e|] == e == e[..|e|] && (e + rest)[|e|..] == rest;
      PrefixMatches(cs[0], e + rest, |e|);
    }
  }

  /** Well-formed are exactly the encodings of sequences of scalar values. */
  lemma ValidIff(bs: seq<Byte>)
    ensures Valid(bs) <==> exists cs: seq<nat> :: Scalars(cs) && EncodeAll(cs) == bs
  {
    if Valid(bs) {
      var cs := DecodeAll(bs);
      assert Scalars(cs) && EncodeAll(cs) == bs;
    }
    if cs: seq<nat> :| Scalars(cs) && EncodeAll(cs) == bs {
      EncodeAllValid(cs);
    }
  }

  // ---- the repair ----

  /** Some encoding starts with these bytes. */
  ghost predicate Begins(bs: seq<Byte>) { exists c: nat :: IsScalar(c) && bs <= Encode(c) }

  lemma Completed(bs: seq<Byte>)
    requires bs != [] && !HeadOk(bs) && Matched(bs) > 1
    ensures Begins(bs[..Matched(bs)])
  {
    var n := Matched(bs);
    if n == 3 {
      var c := FourBytes(bs[0], bs[1], bs[2], 0x80);
      assert bs[..n] <= Encode(c);
    } else if Width(bs[0]) == 3 {
      var c := ThreeBytes(bs[0], bs[1], 0x80);
      assert bs[..n] <= Encode(c);
    } else {
      var c := FourBytes(bs[0], bs[1], 0x80, 0x80);
      assert bs[..n] <= Encode(c);
    }
  }

  lemma HeadEncodes(bs: seq<Byte>)
    requires bs != []
    ensures HeadOk(bs) ==> exists c: nat :: IsScalar(c) && Encode(c) <= bs
  {
    if HeadOk(bs) {
      var c := HeadDecodes(bs);
      assert Encode(c) <= bs;
    }
  }

  lemma NoLonger(bs: seq<Byte>)
    requires bs != [] && Matched(bs) < |bs| && !HeadOk(bs)
    ensures !Begins(bs[..Matched(bs) + 1])
  {
    var n := Matched(bs) + 1;
    forall c: nat | IsScalar(c) ensures !(bs[..n] <= Encode(c)) {
      if bs[..n] <= Encode(c) {
        assert bs[..n] == Encode(c)[..n];
        PrefixMatches(c, bs, n);
      }
    }
  }

  lemma ReplacementIs()
    ensures REPLACEMENT == Encode(0xFFFD)
  {
    assert 0xE0 + 0xFFFD / 4096 == 0xEF && 0x80 + 0xFFFD / 64 % 64 == 0xBF && 0x80 + 0xFFFD % 64 == 0xBD;
  }

  /** Where no encoding stands, U+FFFD replaces as many bytes as still begin one, and one byte when none does (the
      maximal subpart of section 3.9 of the Unicode Standard). */
  lemma RepairIs(bs: seq<Byte>) returns (n: nat)
    requires bs != [] && forall c: nat :: IsScalar(c) ==> !(Encode(c) <= bs)
    ensures 1 <= n <= |bs| && Lossy(bs) == Encode(0xFFFD) + Lossy(bs[n..])
    ensures (n == 1 || Begins(bs[..n])) && (n < |bs| ==> !Begins(bs[..n + 1]))
  {
    n := Matched(bs);
    HeadEncodes(bs);
    ReplacementIs();
    if n > 1 { Completed(bs); }
    if n < |bs| { NoLonger(bs); }
  }

  /** And an encoding is kept. */
  lemma KeptIs(bs: seq<Byte>, c: nat)
    requires IsScalar(c) && Encode(c) <= bs
    ensures Lossy(bs) == Encode(c) + Lossy(bs[|Encode(c)|..])
  {
    assert bs[..|Encode(c)|] == Encode(c)[..|Encode(c)|];
    PrefixMatches(c, bs, |Encode(c)|);
  }
}
