/** Compact JSON text, by which relation keys are compared (the `to_string` of a JSON array, orm.rs). */
module JsonText {
  import opened Bytes
  import opened WhereTree
  import Decimal

  // ---- printing: the text of a value followed by `tail` ----

  function Hex(n: nat): (c: char)
    requires n < 16
    ensures (n < 10 ==> c == '0' + n as char) && (n >= 10 ==> c == 'a' + (n - 10) as char)
  {
    if n < 10 then '0' + n as char else 'a' + (n - 10) as char
  }

  /** The letter after the backslash of a two-character escape. */
  function ShortEscape(c: char): Option<char> {
    if c == '\"' || c == '\\' then Some(c)
    else if c == 8 as char then Some('b')
    else if c == 12 as char then Some('f')
    else if c == '\n' then Some('n')
    else if c == '\r' then Some('r')
    else if c == '\t' then Some('t')
    else None
  }

  function Escape(c: char): (e: string)
    ensures |e| >= 1 && e[0] != '\"'
  {
    var n := c as int;
    match ShortEscape(c)
    case Some(e) => ['\\', e]
    case None => if n < 32 then ['\\', 'u', '0', '0', Hex(n / 16), Hex(n % 16)] else [c]
  }

  function PrintChars(s: string, tail: string): (t: string)
    ensures |t| > |tail|
  {
    if s == "" then ['\"'] + tail else Escape(s[0]) + PrintChars(s[1..], tail)
  }

  function IntText(i: int): string { if i < 0 then ['-'] + Decimal.Text(-i) else Decimal.Text(i) }

  type FloatText = F64 -> string

  function Print(j: Json, floats: FloatText, tail: string): string
    decreases j
  {
    match j
    case JNull => "null" + tail
    case JBool(b) => (if b then "true" else "false") + tail
    case JInt(i) => IntText(i) + tail
    case JFloat(f) => floats(f) + tail
    case JText(s) => ['\"'] + PrintChars(s, tail)
    case JArray(items) => ['['] + PrintItems(items, true, floats, tail)
    case JObject(fields) => ['{'] + PrintFields(fields, true, floats, tail)
  }

  function PrintItems(items: seq<Json>, first: bool, floats: FloatText, tail: string): string
    decreases items
  {
    if items == [] then [']'] + tail
    else (if first then [] else [',']) + Print(items[0], floats, PrintItems(items[1..], false, floats, tail))
  }

  function PrintFields(fields: seq<Field>, first: bool, floats: FloatText, tail: string): string
    decreases fields
  {
    if fields == [] then ['}'] + tail
    else
      (if first then [] else [',']) + (['\"'] + PrintChars(fields[0].key, [':'] +
        Print(fields[0].value, floats, PrintFields(fields[1..], false, floats, tail))))
  }

  /** The text a list of key values is known by. */
  function KeyText(vals: seq<Json>, floats: FloatText): string { Print(JArray(vals), floats, []) }

  // ---- what is known of number texts ----

  predicate NumberChar(c: char) { '0' <= c <= '9' || c == '-' || c == '+' || c == '.' || c == 'e' }

  predicate AllNumber(s: string) { forall k :: 0 <= k < |s| ==> NumberChar(s[k]) }

  predicate NumberHead(s: string) { s != [] && ('0' <= s[0] <= '9' || s[0] == '-') }

  /** A float always shows a point or an exponent, and shows which float it is. */
  ghost predicate GoodFloats(floats: FloatText) {
    && (forall f :: AllNumber(floats(f)) && NumberHead(floats(f)) && ('.' in floats(f) || 'e' in floats(f)))
    && forall f, g :: floats(f) == floats(g) ==> f == g
  }

  predicate Ends(s: string) { s == [] || s[0] == ',' || s[0] == ']' || s[0] == '}' }

  function NumberEnd(s: string): nat { if s == [] || !NumberChar(s[0]) then 0 else 1 + NumberEnd(s[1..]) }

  lemma {:induction false} NumberEndIs(a: string, x: string)
    requires AllNumber(a) && Ends(x)
    ensures NumberEnd(a + x) == |a|
  {
    if a == [] {
      assert a + x == x;
    } else {
      NumberEndIs(a[1..], x);
      assert (a + x)[1..] == a[1..] + x;
    }
  }

  lemma NumberSplit(a: string, x: string, b: string, y: string)
    requires AllNumber(a) && AllNumber(b) && Ends(x) && Ends(y) && a + x == b + y
    ensures a == b && x == y
  {
    NumberEndIs(a, x);
    NumberEndIs(b, y);
    SameCut(a, x, b, y);
  }

  lemma IntTextIs(i: int)
    ensures AllNumber(IntText(i)) && NumberHead(IntText(i)) && '.' !in IntText(i) && 'e' !in IntText(i)
  {
  }

  lemma IntTextInjective(i: int, j: int)
    requires IntText(i) == IntText(j)
    ensures i == j
  {
    assert (i < 0) == (IntText(i)[0] == '-') && (j < 0) == (IntText(j)[0] == '-');
    if i < 0 {
      SameCut(['-'], Decimal.Text(-i), ['-'], Decimal.Text(-j));
      Decimal.TextInjective(-i, -j);
    } else {
      Decimal.TextInjective(i, j);
    }
  }

  // ---- strings read back ----

  lemma EscapeReads(c: char, x: string, d: char, y: string)
    requires Escape(c) + x == Escape(d) + y
    ensures c == d && x == y
  {
    var s := Escape(c) + x;
    assert s[0] == Escape(c)[0] == Escape(d)[0];
    if s[0] == '\\' {
      assert s[1] == Escape(c)[1] == Escape(d)[1];
      if |Escape(c)| == 6 && |Escape(d)| == 6 {
        assert s[4] == Escape(c)[4] == Escape(d)[4];
        assert s[5] == Escape(c)[5] == Escape(d)[5];
      }
    }
    assert c == d;
    SameCut(Escape(c), x, Escape(d), y);
  }

  lemma CharsHead(s: string, x: string)
    ensures (s == []) == (PrintChars(s, x)[0] == '\"')
  {
  }

  lemma {:induction false} CharsRead(a: string, x: string, b: string, y: string)
    requires PrintChars(a, x) == PrintChars(b, y)
    ensures a == b && x == y
  {
    CharsHead(a, x);
    CharsHead(b, y);
    if a == [] {
      SameCut(['\"'], x, ['\"'], y);
    } else {
      EscapeReads(a[0], PrintChars(a[1..], x), b[0], PrintChars(b[1..], y));
      CharsRead(a[1..], x, b[1..], y);
      assert a == [a[0]] + a[1..] && b == [b[0]] + b[1..];
    }
  }

  // ---- values read back ----

  /** What the first character says of a value. */
  function Kind(j: Json): nat {
    match j
    case JNull => 0 case JBool(b) => if b then 1 else 2 case JInt(_) => 3 case JFloat(_) => 3
    case JText(_) => 4 case JArray(_) => 5 case JObject(_) => 6
  }

  function KindOf(c: char): nat {
    if c == 'n' then 0 else if c == 't' then 1 else if c == 'f' then 2
    else if c == '\"' then 4 else if c == '[' then 5 else if c == '{' then 6 else 3
  }

  lemma PrintHead(j: Json, floats: FloatText, x: string)
    requires GoodFloats(floats)
    ensures Print(j, floats, x) != [] && KindOf(Print(j, floats, x)[0]) == Kind(j) && !Ends(Print(j, floats, x))
  {
    match j
    case JInt(i) => IntTextIs(i);
    case _ =>
  }

  lemma ItemsEnd(items: seq<Json>, floats: FloatText, x: string)
    ensures Ends(PrintItems(items, false, floats, x))
  {
  }

  lemma FieldsEnd(fields: seq<Field>, floats: FloatText, x: string)
    ensures Ends(PrintFields(fields, false, floats, x))
  {
  }

  lemma NumbersRead(a: Json, x: string, b: Json, y: string, floats: FloatText)
    requires GoodFloats(floats) && Ends(x) && Ends(y) && Kind(a) == Kind(b) == 3
    requires Print(a, floats, x) == Print(b, floats, y)
    ensures a == b && x == y
  {
    var s := if a.JInt? then IntText(a.i) else floats(a.f);
    var t := if b.JInt? then IntText(b.i) else floats(b.f);
    if a.JInt? { IntTextIs(a.i); }
    if b.JInt? { IntTextIs(b.i); }
    NumberSplit(s, x, t, y);
    if a.JInt? && b.JInt? { IntTextInjective(a.i, b.i); }
  }

  lemma ItemsHead(items: seq<Json>, first: bool, floats: FloatText, x: string)
    requires GoodFloats(floats)
    ensures PrintItems(items, first, floats, x) != []
    ensures (items == []) == (PrintItems(items, first, floats, x)[0] == ']')
  {
    if items != [] {
      PrintHead(items[0], floats, PrintItems(items[1..], false, floats, x));
    }
  }

  lemma FieldsHead(fields: seq<Field>, first: bool, floats: FloatText, x: string)
    ensures PrintFields(fields, first, floats, x) != []
    ensures (fields == []) == (PrintFields(fields, first, floats, x)[0] == '}')
  {
  }

  lemma FieldsLead(fields: seq<Field>, first: bool, floats: FloatText, x: string)
    requires fields != []
    ensures PrintFields(fields, first, floats, x) ==
            ((if first then [] else [',']) + ['\"']) + PrintChars(fields[0].key,
              [':'] + Print(fields[0].value, floats, PrintFields(fields[1..], false, floats, x)))
  {
  }

  lemma {:induction false} Reads(a: Json, x: string, b: Json, y: string, floats: FloatText)
    requires GoodFloats(floats) && Ends(x) && Ends(y) && Print(a, floats, x) == Print(b, floats, y)
    ensures a == b && x == y
    decreases a
  {
    PrintHead(a, floats, x);
    PrintHead(b, floats, y);
    match a
    case JNull => SameCut("null", x, "null", y);
    case JBool(v) => var w := if v then "true" else "false"; SameCut(w, x, w, y);
    case JInt(_) => NumbersRead(a, x, b, y, floats);
    case JFloat(_) => NumbersRead(a, x, b, y, floats);
    case JText(s) =>
      SameCut(['\"'], PrintChars(s, x), ['\"'], PrintChars(b.text, y));
      CharsRead(s, x, b.text, y);
    case JArray(items) =>
      SameCut(['['], PrintItems(items, true, floats, x), ['['], PrintItems(b.items, true, floats, y));
      ItemsRead(items, x, b.items, y, true, floats);
    case JObject(fields) =>
      SameCut(['{'], PrintFields(fields, true, floats, x), ['{'], PrintFields(b.fields, true, floats, y));
      FieldsRead(fields, x, b.fields, y, true, floats);
  }

  lemma {:induction false} ItemsRead(a: seq<Json>, x: string, b: seq<Json>, y: string, first: bool, floats: FloatText)
    requires GoodFloats(floats) && Ends(x) && Ends(y)
    requires PrintItems(a, first, floats, x) == PrintItems(b, first, floats, y)
    ensures a == b && x == y
    decreases a
  {
    ItemsHead(a, first, floats, x);
    ItemsHead(b, first, floats, y);
    if a == [] {
      SameCut([']'], x, [']'], y);
    } else {
      var comma := if first then [] else [','];
      var u, v := PrintItems(a[1..], false, floats, x), PrintItems(b[1..], false, floats, y);
      SameCut(comma, Print(a[0], floats, u), comma, Print(b[0], floats, v));
      ItemsEnd(a[1..], floats, x);
      ItemsEnd(b[1..], floats, y);
      Reads(a[0], u, b[0], v, floats);
      ItemsRead(a[1..], x, b[1..], y, false, floats);
      assert a == [a[0]] + a[1..] && b == [b[0]] + b[1..];
    }
  }

  lemma {:induction false} FieldsRead(a: seq<Field>, x: string, b: seq<Field>, y: string, first: bool, floats: FloatText)
    requires GoodFloats(floats) && Ends(x) && Ends(y)
    requires PrintFields(a, first, floats, x) == PrintFields(b, first, floats, y)
    ensures a == b && x == y
    decreases a
  {
    FieldsHead(a, first, floats, x);
    FieldsHead(b, first, floats, y);
    if a == [] {
      SameCut(['}'], x, ['}'], y);
    } else {
      var lead := (if first then [] else [',']) + ['\"'];
      var u, v := PrintFields(a[1..], false, floats, x), PrintFields(b[1..], false, floats, y);
      var s, t := [':'] + Print(a[0].value, floats, u), [':'] + Print(b[0].value, floats, v);
      FieldsLead(a, first, floats, x);
      FieldsLead(b, first, floats, y);
      SameCut(lead, PrintChars(a[0].key, s), lead, PrintChars(b[0].key, t));
      CharsRead(a[0].key, s, b[0].key, t);
      SameCut([':'], Print(a[0].value, floats, u), [':'], Print(b[0].value, floats, v));
      FieldsEnd(a[1..], floats, x);
      FieldsEnd(b[1..], floats, y);
      Reads(a[0].value, u, b[0].value, v, floats);
      FieldsRead(a[1..], x, b[1..], y, false, floats);
      assert a == [a[0]] + a[1..] && b == [b[0]] + b[1..];
    }
  }

  /** Two lists of key values have the same text exactly when they are the same values. */
  lemma KeyTextInjective(a: seq<Json>, b: seq<Json>, floats: FloatText)
    requires GoodFloats(floats) && KeyText(a, floats) == KeyText(b, floats)
    ensures a == b
  {
    Reads(JArray(a), [], JArray(b), [], floats);
  }
}
