/** `sort_built`: ordering finished column buffers instead of asking SQLite to sort (client.rs). */
module SortPullUp {
  import opened Bytes
  import opened Columns
  import opened ScanCells
  import opened AdaptiveColumn
  import opened SortKeys
  import opened KeyOrder

  // ---- permutations of the rows ----

  function Upto(n: nat): (r: seq<nat>)
    ensures |r| == n && forall i :: 0 <= i < n ==> r[i] == i
  {
    seq(n, i => i)
  }

  ghost predicate Permutation(idx: seq<nat>, n: nat) {
    multiset(idx) == multiset(Upto(n))
  }

  lemma PermutationRows(idx: seq<nat>, n: nat)
    requires Permutation(idx, n)
    ensures |idx| == n && RowsIn(idx, n)
  {
    assert |idx| == |multiset(idx)| && |Upto(n)| == |multiset(Upto(n))|;
    forall r | 0 <= r < |idx| ensures idx[r] < n {
      assert idx[r] in multiset(idx);
      assert idx[r] in Upto(n);
    }
  }

  function Total(lens: seq<nat>, idx: seq<nat>): nat
    requires RowsIn(idx, |lens|)
  {
    if idx == [] then 0 else lens[idx[0]] + Total(lens, idx[1..])
  }

  lemma {:induction false} TotalConcat(lens: seq<nat>, a: seq<nat>, b: seq<nat>)
    requires RowsIn(a, |lens|) && RowsIn(b, |lens|) && RowsIn(a + b, |lens|)
    ensures Total(lens, a + b) == Total(lens, a) + Total(lens, b)
  {
    if a == [] {
      assert a + b == b;
    } else {
      assert (a + b)[1..] == a[1..] + b;
      TotalConcat(lens, a[1..], b);
    }
  }

  lemma WithoutOne<T>(b: seq<T>, j: nat)
    requires j < |b|
    ensures multiset(b[..j] + b[j + 1..]) == multiset(b) - multiset{b[j]}
  {
    assert b == b[..j] + [b[j]] + b[j + 1..];
  }

  lemma TotalWithout(lens: seq<nat>, b: seq<nat>, j: nat)
    requires RowsIn(b, |lens|) && j < |b|
    ensures RowsIn(b[..j] + b[j + 1..], |lens|)
    ensures Total(lens, b) == lens[b[j]] + Total(lens, b[..j] + b[j + 1..])
  {
    TotalConcat(lens, b[..j], b[j + 1..]);
    assert b == b[..j] + b[j..];
    TotalConcat(lens, b[..j], b[j..]);
  }

  /** A total does not depend on the order. */
  lemma {:induction false} TotalPermuted(lens: seq<nat>, a: seq<nat>, b: seq<nat>)
    requires RowsIn(a, |lens|) && RowsIn(b, |lens|) && multiset(a) == multiset(b)
    ensures Total(lens, a) == Total(lens, b)
    decreases a
  {
    if a == [] {
      assert |multiset(b)| == 0;
      assert b == [];
    } else {
      assert a[0] in multiset(b);
      var j :| 0 <= j < |b| && b[j] == a[0];
      var rest := b[..j] + b[j + 1..];
      TotalWithout(lens, b, j);
      assert multiset(a[1..]) == multiset(rest) by {
        WithoutOne(a, 0);
        WithoutOne(b, j);
        assert a[..0] + a[1..] == a[1..];
      }
      TotalPermuted(lens, a[1..], rest);
    }
  }

  function Lens(offsets: seq<nat>): (ls: seq<nat>)
    requires |offsets| >= 1 && forall r :: 0 <= r < |offsets| - 1 ==> offsets[r] <= offsets[r + 1]
    ensures |ls| == |offsets| - 1
  {
    seq(|offsets| - 1, r requires 0 <= r < |offsets| - 1 => offsets[r + 1] - offsets[r])
  }

  lemma {:induction false} LensTotal(offsets: seq<nat>, k: nat)
    requires |offsets| >= 1 && forall r :: 0 <= r < |offsets| - 1 ==> offsets[r] <= offsets[r + 1]
    requires k < |offsets|
    ensures offsets[0] + Total(Lens(offsets), Upto(k)) == offsets[k]
  {
    if k > 0 {
      LensTotal(offsets, k - 1);
      assert Upto(k) == Upto(k - 1) + [k - 1];
      TotalConcat(Lens(offsets), Upto(k - 1), [k - 1]);
    }
  }

  lemma {:induction false} TextsTotal(data: AdaptiveData, lens: seq<nat>, idx: seq<nat>)
    requires data.StrBuf? && Sliceable(data) && RowsIn(idx, RowsOf(data)) && |lens| == RowsOf(data)
    requires forall r :: 0 <= r < |lens| ==> lens[r] == |RowText(data, r)|
    ensures |Flatten(RowTexts(data, idx))| == Total(lens, idx)
  {
    if idx != [] {
      assert RowTexts(data, idx)[1..] == RowTexts(data, idx[1..]);
      TextsTotal(data, lens, idx[1..]);
    }
  }

  /** Reordered texts take no more room than they did. */
  lemma MovedTextsFit(data: AdaptiveData, idx: seq<nat>)
    requires data.StrBuf? && Sliceable(data) && Permutation(idx, RowsOf(data)) && RowsIn(idx, RowsOf(data))
    requires forall r :: 0 <= r < |data.offsets| ==> data.offsets[r] < TWO_TO_32
    ensures |Flatten(RowTexts(data, idx))| < TWO_TO_32
  {
    var n := RowsOf(data);
    forall r | 0 <= r < n
      ensures data.offsets[r] <= data.offsets[r + 1] && |RowText(data, r)| == data.offsets[r + 1] - data.offsets[r]
    {
      assert SpanInside(data.offsets, |data.chars|, r);
    }
    TextsTotal(data, Lens(data.offsets), idx);
    TotalPermuted(Lens(data.offsets), idx, Upto(n));
    LensTotal(data.offsets, n);
  }

  /** A column whose rows can be read one by one. */
  ghost predicate Whole(s: State, n: nat) {
    WellFormed(s) && Sliceable(s.data) && s.len == n && RowsOf(s.data) == n
  }

  lemma NullTextEmpty(s: State, r: nat)
    requires Whole(s, s.len) && s.data.StrBuf? && r < s.len && r in s.nulls
    ensures RowText(s.data, r) == []
  {
    assert SpanInside(s.data.offsets, |s.data.chars|, r);
  }

  /** Permuting moves whole rows, values and nulls together, and leaves a well-formed column. */
  lemma MovedRows(s: State, idx: seq<nat>)
    requires Whole(s, s.len) && Permutation(idx, s.len) && RowsIn(idx, s.len)
    ensures Whole(Moved(s, idx), s.len)
    ensures forall r: nat :: r < s.len ==> RowValue(Moved(s, idx), r) == RowValue(s, idx[r])
  {
    PermutationRows(idx, s.len);
    MovedNullsAre(s.nulls, idx);
    var moved := Moved(s, idx);
    if s.data.StrBuf? {
      var texts := RowTexts(s.data, idx);
      MovedTextsFit(s.data, idx);
      StrSlices(texts);
      forall j | 0 <= j < |moved.nulls| ensures moved.nulls[j] < s.len && texts[moved.nulls[j]] == [] {
        NullTextEmpty(s, idx[MovedNulls(s.nulls, idx)[j]]);
      }
      StrWellFormed(texts, moved);
    }
  }

  // ---- sorting ----

  /** The contract of `sort_unstable_by`: some permutation of the rows with the keys in order. */
  ghost predicate Sorts(idx: seq<nat>, ks: seq<Key>, desc: bool) {
    Permutation(idx, |ks|) && InOrder(idx, ks, desc)
  }

  method SortRows(ks: seq<Key>, desc: bool) returns (idx: seq<nat>)
    requires OneKind(ks)
    ensures Sorts(idx, ks, desc)
  {
    idx := [];
    for k := 0 to |ks|
      invariant multiset(idx) == multiset(Upto(k)) && InOrder(idx, ks, desc)
    {
      idx := InsertRow(idx, k, ks, desc);
      assert Upto(k + 1) == Upto(k) + [k];
    }
  }

  ghost predicate InOrder(idx: seq<nat>, ks: seq<Key>, desc: bool) {
    RowsIn(idx, |ks|) && forall i, j :: 0 <= i < j < |idx| ==> Ordered(desc, ks[idx[i]], ks[idx[j]])
  }

  method InsertRow(idx: seq<nat>, k: nat, ks: seq<Key>, desc: bool) returns (grown: seq<nat>)
    requires k < |ks| && OneKind(ks) && InOrder(idx, ks, desc)
    ensures InOrder(grown, ks, desc) && multiset(grown) == multiset(idx) + multiset{k}
  {
    var p := 0;
    while p < |idx| && Ordered(desc, ks[idx[p]], ks[k])
      invariant p <= |idx|
      invariant forall i :: 0 <= i < p ==> Ordered(desc, ks[idx[i]], ks[k])
    {
      p := p + 1;
    }
    forall i | p <= i < |idx| ensures Ordered(desc, ks[k], ks[idx[i]]) {
      assert SameKind(ks[idx[p]], ks[k]);
      OrderedIsTotalOrder(desc, ks[k], ks[idx[p]], ks[idx[i]]);
      OrderedIsTotalOrder(desc, ks[idx[p]], ks[k], ks[k]);
    }
    grown := idx[..p] + [k] + idx[p..];
    assert idx == idx[..p] + idx[p..];
    InsertedInOrder(idx, p, k, ks, desc);
  }

  lemma InsertedInOrder(idx: seq<nat>, p: nat, k: nat, ks: seq<Key>, desc: bool)
    requires p <= |idx| && k < |ks| && InOrder(idx, ks, desc)
    requires forall i :: 0 <= i < p ==> Ordered(desc, ks[idx[i]], ks[k])
    requires forall i :: p <= i < |idx| ==> Ordered(desc, ks[k], ks[idx[i]])
    ensures InOrder(idx[..p] + [k] + idx[p..], ks, desc)
  {
    var grown := idx[..p] + [k] + idx[p..];
    forall i | 0 <= i < |grown| ensures grown[i] == if i < p then idx[i] else if i == p then k else idx[i - 1] {
    }
  }

  // ---- sort_built ----

  function LowerAscii(b: Byte): Byte { if 65 <= b <= 90 then b + 32 else b }

  /** `eq_ignore_ascii_case` */
  predicate SameName(a: seq<Byte>, b: seq<Byte>) {
    |a| == |b| && forall i :: 0 <= i < |a| ==> LowerAscii(a[i]) == LowerAscii(b[i])
  }

  /** Letters differ at most in case, everything else not at all. */
  lemma SameNameMeans(a: seq<Byte>, b: seq<Byte>)
    ensures SameName(a, b) <==>
            |a| == |b| &&
            forall i :: 0 <= i < |a| ==> a[i] == b[i] || (65 <= a[i] <= 90 && b[i] == a[i] + 32) || (65 <= b[i] <= 90 && a[i] == b[i] + 32)
  {
  }

  /** The first name equal to the key, or the number of names. */
  function KeyIndex(names: seq<seq<Byte>>, key: seq<Byte>): (k: nat)
    ensures k <= |names|
    ensures k < |names| ==> SameName(names[k], key)
    ensures forall i :: 0 <= i < k ==> !SameName(names[i], key)
  {
    if names == [] then 0 else if SameName(names[0], key) then 0 else 1 + KeyIndex(names[1..], key)
  }

  /** A key SQLite orders the same way: one storage class, no blob, no NULL. */
  predicate Sortable(s: State) {
    !s.promoted && !s.sawBlob && s.nulls == []
  }

  method IsSorted(data: AdaptiveData, desc: bool) returns (sorted: bool)
    requires Sliceable(data)
    ensures sorted == AdjacentOrdered(KeysOf(data), desc)
    ensures sorted == DataOrdered(data, desc)
  {
    NeighboursMean(data, desc);
    match data
    case IntBuf(v) =>
      sorted := forall r :: 0 <= r < |v| - 1 ==> if desc then v[r] >= v[r + 1] else v[r] <= v[r + 1];
      assert forall r :: 0 <= r < |v| - 1 ==>
        Ordered(desc, KeysOf(data)[r], KeysOf(data)[r + 1]) == if desc then v[r] >= v[r + 1] else v[r] <= v[r + 1];
    case FloatBuf(v) =>
      sorted := forall r :: 0 <= r < |v| - 1 ==>
        if desc then TotalKey(v[r]) >= TotalKey(v[r + 1]) else TotalKey(v[r]) <= TotalKey(v[r + 1]);
      assert forall r :: 0 <= r < |v| - 1 ==>
        Ordered(desc, KeysOf(data)[r], KeysOf(data)[r + 1])
          == if desc then TotalKey(v[r]) >= TotalKey(v[r + 1]) else TotalKey(v[r]) <= TotalKey(v[r + 1]);
    case StrBuf(offsets, _) =>
      sorted := forall i :: 1 <= i < |offsets| - 1 ==>
        if desc then TextLeq(RowText(data, i), RowText(data, i - 1)) else TextLeq(RowText(data, i - 1), RowText(data, i));
      TextsSorted(data, desc);
  }

  lemma TextsSorted(data: AdaptiveData, desc: bool)
    requires Sliceable(data) && data.StrBuf?
    ensures AdjacentOrdered(KeysOf(data), desc) <==> forall i :: 1 <= i < |data.offsets| - 1 ==>
      if desc then TextLeq(RowText(data, i), RowText(data, i - 1)) else TextLeq(RowText(data, i - 1), RowText(data, i))
  {
    if AdjacentOrdered(KeysOf(data), desc) {
      forall i | 1 <= i < |data.offsets| - 1
        ensures if desc then TextLeq(RowText(data, i), RowText(data, i - 1)) else TextLeq(RowText(data, i - 1), RowText(data, i))
      {
        assert Ordered(desc, KeysOf(data)[i - 1], KeysOf(data)[i - 1 + 1]);
      }
    }
  }

  /** All columns hold the rows of `before`, in the order of `idx`. */
  ghost predicate RowsMoved(now: seq<State>, before: seq<State>, idx: seq<nat>, n: nat) {
    && |now| == |before|
    && |idx| == n
    && RowsIn(idx, n)
    && (forall c :: 0 <= c < |now| ==> Whole(now[c], n) && Whole(before[c], n) && RowMoved(now[c], before[c], idx, n))
  }

  ghost predicate RowMoved(now: State, before: State, idx: seq<nat>, n: nat)
    requires Whole(now, n) && Whole(before, n) && |idx| == n && RowsIn(idx, n)
  {
    && now.promoted == before.promoted && now.sawBlob == before.sawBlob && now.textValid == before.textValid
    && forall r: nat :: r < n ==> RowValue(now, r) == RowValue(before, idx[r])
  }

  ghost function Views(cols: seq<AdaptiveCol>): (vs: seq<State>)
    reads cols
    ensures |vs| == |cols| && forall c :: 0 <= c < |cols| ==> vs[c] == cols[c].View()
  {
    seq(|cols|, c requires 0 <= c < |cols| reads cols => cols[c].View())
  }

  /** `sort_built`: refuses exactly the keys it cannot prove, and otherwise leaves one permutation of the rows, the key
      in the asked order. */
  method SortBuilt(builders: seq<AdaptiveCol>, names: seq<seq<Byte>>, key: seq<Byte>, desc: bool, ghost n: nat)
    returns (done: bool, ghost idx: seq<nat>)
    requires AllDistinct(builders) && |builders| == |names| && forall c :: 0 <= c < |builders| ==> Whole(builders[c].View(), n)
    modifies builders
    ensures done == (KeyIndex(names, key) < |names| && Sortable(old(builders[KeyIndex(names, key)].View())))
    ensures !done ==> Views(builders) == old(Views(builders))
    ensures done ==>
              && Permutation(idx, n)
              && RowsMoved(Views(builders), old(Views(builders)), idx, n)
              && AllOrdered(KeysOf(builders[KeyIndex(names, key)].data), desc)
              && DataOrdered(builders[KeyIndex(names, key)].data, desc)
  {
    idx := [];
    var keyIdx := KeyIndex(names, key);
    if keyIdx == |names| {
      return false, idx;
    }
    var k := builders[keyIdx];
    if k.promoted || k.sawBlob || k.nulls != [] {
      return false, idx;
    }
    AdjacentIsAll(KeysOf(k.data), desc);
    var sorted := k.len < 2;
    if !sorted {
      sorted := IsSorted(k.data, desc);
    }
    if sorted {
      KeysMean(k.data, desc);
      return true, Upto(n);
    }
    KeysSameKind(k.data);
    ghost var ks := KeysOf(k.data);
    var order := SortRows(KeysOf(k.data), desc);
    PermuteAll(builders, order, n);
    SortedKeys(k.View(), old(builders[keyIdx].View()), order, n, desc);
    KeysMean(k.data, desc);
    return true, order;
  }

  /** The key column is in order once its rows sit where the sort put them. */
  lemma SortedKeys(now: State, before: State, idx: seq<nat>, n: nat, desc: bool)
    requires Whole(now, n) && Whole(before, n) && |idx| == n && RowsIn(idx, n)
    requires RowMoved(now, before, idx, n) && before.nulls == [] && now.nulls == []
    requires Sorts(idx, KeysOf(before.data), desc)
    ensures AllOrdered(KeysOf(now.data), desc)
  {
    forall r: nat | r < n ensures KeysOf(now.data)[r] == KeysOf(before.data)[idx[r]] {
      assert RowValue(now, r) == RowValue(before, idx[r]);
    }
  }

  method PermuteAll(builders: seq<AdaptiveCol>, idx: seq<nat>, ghost n: nat)
    requires AllDistinct(builders) && forall c :: 0 <= c < |builders| ==> Whole(builders[c].View(), n)
    requires Permutation(idx, n) && RowsIn(idx, n)
    modifies builders
    ensures RowsMoved(Views(builders), old(Views(builders)), idx, n)
    ensures forall c :: 0 <= c < |builders| && old(builders[c].nulls) == [] ==> builders[c].nulls == []
  {
    PermutationRows(idx, n);
    ghost var before := Views(builders);
    for c := 0 to |builders|
      invariant forall k :: c <= k < |builders| ==> builders[k].View() == before[k]
      invariant forall k :: 0 <= k < c ==> builders[k].View() == Moved(before[k], idx)
    {
      builders[c].Permute(idx);
    }
    forall c | 0 <= c < |builders|
      ensures Whole(builders[c].View(), n) && RowMoved(builders[c].View(), before[c], idx, n)
      ensures before[c].nulls == [] ==> builders[c].nulls == []
    {
      MovedRows(before[c], idx);
      if before[c].nulls == [] {
        NoNullsMove(idx);
      }
    }
  }
}
