/** Decimal numerals, as SQL text and as the bytes of a rendered integer cell. */
module Decimal {
  import opened Bytes

  type Digit = d: int | 0 <= d < 10

  function Digits(n: nat): (ds: seq<Digit>)
    ensures |ds| >= 1
  {
    if n < 10 then [n] else Digits(n / 10) + [n % 10]
  }

  function DigitsValue(ds: seq<Digit>): nat {
    if ds == [] then 0 else 10 * DigitsValue(ds[..|ds| - 1]) + ds[|ds| - 1]
  }

  lemma {:induction false} DigitsRoundTrip(n: nat)
    ensures DigitsValue(Digits(n)) == n
  {
    if n < 10 {
      assert Digits(n)[..0] == [];
    } else {
      DigitsRoundTrip(n / 10);
      assert Digits(n)[..|Digits(n)| - 1] == Digits(n / 10);
    }
  }

  function DigitChar(d: Digit): (c: char)
    ensures '0' <= c <= '9'
  {
    '0' + d as char
  }

  /** The numeral as text. */
  function Text(n: nat): (s: string)
    ensures |s| >= 1 && forall i :: 0 <= i < |s| ==> '0' <= s[i] <= '9'
  {
    seq(|Digits(n)|, i requires 0 <= i < |Digits(n)| => DigitChar(Digits(n)[i]))
  }

  lemma TextInjective(m: nat, n: nat)
    requires Text(m) == Text(n)
    ensures m == n
  {
    forall i | 0 <= i < |Digits(m)| ensures Digits(m)[i] == Digits(n)[i] {
      assert Text(m)[i] == Text(n)[i];
    }
    assert Digits(m) == Digits(n);
    DigitsRoundTrip(m);
    DigitsRoundTrip(n);
  }

  /** A decimal numeral, read from its characters by place value. */
  function NumeralValue(s: string): int {
    if s == "" then 0 else 10 * NumeralValue(s[..|s| - 1]) + (s[|s| - 1] as int - '0' as int)
  }

  /** Digits only, and none too many. */
  predicate Numeral(s: string) {
    s != "" && (forall k :: 0 <= k < |s| ==> '0' <= s[k] <= '9') && (s[0] == '0' ==> |s| == 1)
  }

  lemma {:induction false} NoLeadingZero(n: nat)
    ensures n > 0 ==> Digits(n)[0] > 0
  {
    if n >= 10 {
      NoLeadingZero(n / 10);
    }
  }

  lemma {:induction false} DigitsRead(ds: seq<Digit>, s: string)
    requires |s| == |ds| && forall k :: 0 <= k < |s| ==> s[k] == DigitChar(ds[k])
    ensures NumeralValue(s) == DigitsValue(ds)
  {
    if ds != [] {
      DigitsRead(ds[..|ds| - 1], s[..|s| - 1]);
    }
  }

  lemma NumeralReads(n: nat)
    ensures Numeral(Text(n)) && NumeralValue(Text(n)) == n
  {
    NoLeadingZero(n);
    DigitsRead(Digits(n), Text(n));
    DigitsRoundTrip(n);
  }

  function DigitByte(d: Digit): (b: Byte)
    ensures b < 0x80
  {
    48 + d
  }

  /** `i64::to_string`, as bytes. */
  function IntText(i: int): (t: seq<Byte>)
    ensures forall k :: 0 <= k < |t| ==> t[k] < 0x80
  {
    var ds := Digits(if i < 0 then -i else i);
    var text := seq(|ds|, k requires 0 <= k < |ds| => DigitByte(ds[k]));
    if i < 0 then [45] + text else text
  }

  /** Read by place value, behind a minus sign if it is negative. */
  function TextValue(t: seq<Byte>): int {
    if t == [] then 0 else 10 * TextValue(t[..|t| - 1]) + (t[|t| - 1] as int - 48)
  }

  lemma {:induction false} BytesRead(ds: seq<Digit>, t: seq<Byte>)
    requires |t| == |ds| && forall k :: 0 <= k < |t| ==> t[k] == DigitByte(ds[k])
    ensures TextValue(t) == DigitsValue(ds)
  {
    if ds != [] {
      BytesRead(ds[..|ds| - 1], t[..|t| - 1]);
    }
  }

  /** The text of an integer is its numeral, a minus sign before it when the integer is negative. */
  lemma IntTextReads(i: int)
    ensures var t := IntText(i);
            && t != [] && (t[0] == 45 <==> i < 0)
            && var digits := if i < 0 then t[1..] else t;
               && digits != [] && (forall k :: 0 <= k < |digits| ==> 48 <= digits[k] <= 57) && (digits[0] == 48 ==> i == 0)
               && TextValue(digits) == (if i < 0 then -i else i)
  {
    var n := if i < 0 then -i else i;
    var digits := if i < 0 then IntText(i)[1..] else IntText(i);
    NoLeadingZero(n);
    BytesRead(Digits(n), digits);
    DigitsRoundTrip(n);
  }
}
