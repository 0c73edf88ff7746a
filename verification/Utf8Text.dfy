/** Well-formed UTF-8 (table 3-7 of The Unicode Standard, section 3.9) and Rust's lossy repair of the rest. */
module Utf8Text {
  import opened Bytes

  predicate IsCont(b: Byte) { 0x80 <= b <= 0xBF }

  /** Sequence length announced by a leading byte; 0 when it cannot lead. */
  function Width(lead: Byte): nat {
    if lead < 0x80 then 1 else if 0xC2 <= lead <= 0xDF then 2
    else if 0xE0 <= lead <= 0xEF then 3 else if 0xF0 <= lead <= 0xF4 then 4 else 0
  }

  predicate SecondOk(lead: Byte, b: Byte) {
    if lead == 0xE0 then 0xA0 <= b <= 0xBF
    else if lead == 0xED then 0x80 <= b <= 0x9F
    else if lead == 0xF0 then 0x90 <= b <= 0xBF
    else if lead == 0xF4 then 0x80 <= b <= 0x8F
    else IsCont(b)
  }

  /** How many leading bytes continue one another correctly, at least 1 and at most the announced width. */
  function Matched(bs: seq<Byte>): (n: nat)
    requires bs != []
    ensures 1 <= n <= |bs|
  {
    var w := Width(bs[0]);
    if w < 2 || |bs| < 2 || !SecondOk(bs[0], bs[1]) then 1
    else if w == 2 || |bs| < 3 || !IsCont(bs[2]) then 2
    else if w == 3 || |bs| < 4 || !IsCont(bs[3]) then 3
    else 4
  }

  /** Does `bs` start with one complete well-formed sequence (then `Matched(bs)` is its length)? */
  predicate HeadOk(bs: seq<Byte>)
    requires bs != []
  {
    Matched(bs) == Width(bs[0])
  }

  predicate Valid(bs: seq<Byte>) {
    bs == [] || (HeadOk(bs) && Valid(bs[Matched(bs)..]))
  }

  const REPLACEMENT: seq<Byte> := [0xEF, 0xBF, 0xBD]

  /** `String::from_utf8_lossy`: each maximal ill-formed stretch becomes U+FFFD. */
  function Lossy(bs: seq<Byte>): seq<Byte> {
    if bs == [] then []
    else (if HeadOk(bs) then bs[..Matched(bs)] else REPLACEMENT) + Lossy(bs[Matched(bs)..])
  }

  predicate IsAscii(bs: seq<Byte>) {
    forall i :: 0 <= i < |bs| ==> bs[i] < 0x80
  }

  lemma HeadExtends(a: seq<Byte>, b: seq<Byte>)
    requires a != [] && HeadOk(a)
    ensures HeadOk(a + b) && Matched(a + b) == Matched(a)
    ensures (a + b)[..Matched(a)] == a[..Matched(a)] && (a + b)[Matched(a)..] == a[Matched(a)..] + b
  {
  }

  /** Concatenating well-formed texts is well-formed, and a well-formed prefix can be dropped. */
  lemma {:induction false} ValidConcat(a: seq<Byte>, b: seq<Byte>)
    requires Valid(a)
    ensures Valid(a + b) == Valid(b)
  {
    if a == [] {
      assert a + b == b;
    } else {
      HeadExtends(a, b);
      ValidConcat(a[Matched(a)..], b);
    }
  }

  lemma {:induction false} AsciiValid(bs: seq<Byte>)
    requires IsAscii(bs)
    ensures Valid(bs)
  {
    if bs != [] {
      AsciiValid(bs[1..]);
    }
  }

  lemma {:induction false} LossyOfValid(bs: seq<Byte>)
    requires Valid(bs)
    ensures Lossy(bs) == bs
  {
    if bs != [] {
      LossyOfValid(bs[Matched(bs)..]);
      assert bs[..Matched(bs)] + bs[Matched(bs)..] == bs;
    }
  }

  lemma {:induction false} LossyValid(bs: seq<Byte>)
    ensures Valid(Lossy(bs))
  {
    if bs != [] {
      var rest := bs[Matched(bs)..];
      LossyValid(rest);
      var head := if HeadOk(bs) then bs[..Matched(bs)] else REPLACEMENT;
      assert HeadOk(head) && Matched(head) == |head| && head[|head|..] == [];
      assert Valid(head);
      ValidConcat(head, Lossy(rest));
    }
  }

  /** Repair changes exactly the ill-formed texts. */
  lemma LossyChanges(bs: seq<Byte>)
    ensures Lossy(bs) == bs <==> Valid(bs)
  {
    LossyValid(bs);
    if Valid(bs) {
      LossyOfValid(bs);
    }
  }

  lemma {:induction false} FlattenValid(cells: seq<seq<Byte>>)
    requires forall k :: 0 <= k < |cells| ==> Valid(cells[k])
    ensures Valid(Flatten(cells))
  {
    if cells != [] {
      FlattenValid(cells[1..]);
      ValidConcat(cells[0], Flatten(cells[1..]));
    }
  }
}
