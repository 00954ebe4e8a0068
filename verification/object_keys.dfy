/**
 * The order in which `Object.entries` lists the own string keys of a plain object:
 * first the keys that are array indices, in ascending numeric order, then every
 * other key in the order it was first added.
 */
module ObjectKeys {

  /** 2^32 - 2, the largest array index. */
  const MaxArrayIndex: nat := 0xFFFF_FFFE

  predicate IsDigit(c: char) {
    '0' <= c <= '9'
  }

  predicate AllDigits(s: string) {
    forall i :: 0 <= i < |s| ==> IsDigit(s[i])
  }

  /** The number a string of decimal digits denotes. */
  function DigitsValue(s: string): nat
    requires AllDigits(s)
  {
    if s == [] then 0 else 10 * DigitsValue(s[..|s| - 1]) + (s[|s| - 1] as int - '0' as int)
  }

  /**
   * A key is an array index when it is the canonical decimal form of a number in
   * [0, 2^32 - 2]: digits only, no leading zero except "0" itself.
   */
  predicate IsArrayIndex(k: string) {
    && |k| > 0
    && AllDigits(k)
    && (k[0] != '0' || |k| == 1)
    && DigitsValue(k) <= MaxArrayIndex
  }

  function IndexValue(k: string): nat
    requires IsArrayIndex(k)
  {
    DigitsValue(k)
  }

  predicate AllArrayIndices(s: seq<string>) {
    forall i :: 0 <= i < |s| ==> IsArrayIndex(s[i])
  }

  predicate Ascending(s: seq<string>) {
    && AllArrayIndices(s)
    && forall i, j :: 0 <= i < j < |s| ==> IndexValue(s[i]) <= IndexValue(s[j])
  }

  /** The keys whose array-index status is `index`, in their original order. */
  function Select(keys: seq<string>, index: bool): (r: seq<string>)
    ensures forall i :: 0 <= i < |r| ==> IsArrayIndex(r[i]) == index
    ensures forall k :: k in r <==> k in keys && IsArrayIndex(k) == index
  {
    if keys == [] then []
    else if IsArrayIndex(keys[0]) == index then
      assert keys == [keys[0]] + keys[1..];
      [keys[0]] + Select(keys[1..], index)
    else
      assert keys == [keys[0]] + keys[1..];
      Select(keys[1..], index)
  }

  /** Places one more array-index key into an ascending list. */
  function Insert(k: string, sorted: seq<string>): (r: seq<string>)
    requires IsArrayIndex(k) && Ascending(sorted)
    ensures Ascending(r)
    ensures multiset(r) == multiset(sorted) + multiset{k}
    ensures r != [] && (r[0] == k || (sorted != [] && r[0] == sorted[0]))
  {
    if sorted == [] || IndexValue(k) <= IndexValue(sorted[0]) then
      AscendingCons(k, sorted);
      [k] + sorted
    else
      var rest := Insert(k, sorted[1..]);
      assert sorted == [sorted[0]] + sorted[1..];
      AscendingCons(sorted[0], rest);
      [sorted[0]] + rest
  }

  /** A key no larger than the head of an ascending list extends it. */
  lemma AscendingCons(k: string, s: seq<string>)
    requires IsArrayIndex(k) && Ascending(s)
    requires s != [] ==> IndexValue(k) <= IndexValue(s[0])
    ensures Ascending([k] + s)
  {
    var r := [k] + s;
    forall i, j | 0 <= i < j < |r|
      ensures IndexValue(r[i]) <= IndexValue(r[j])
    {
      if i == 0 && j > 1 {
        assert IndexValue(s[0]) <= IndexValue(s[j - 1]);
      }
    }
  }

  /** The array-index keys, ordered by the number each denotes. */
  function SortByIndex(keys: seq<string>): (r: seq<string>)
    requires AllArrayIndices(keys)
    ensures Ascending(r)
    ensures multiset(r) == multiset(keys)
  {
    if keys == [] then []
    else
      assert keys == [keys[0]] + keys[1..];
      Insert(keys[0], SortByIndex(keys[1..]))
  }

  /** The keys of an object whose keys were added in the order `keys`, as `Object.entries` lists them. */
  function EntriesOrder(keys: seq<string>): (r: seq<string>)
    ensures |r| == |keys|
    ensures forall k :: k in r <==> k in keys
  {
    SelectSplit(keys);
    var r := SortByIndex(Select(keys, true)) + Select(keys, false);
    assert multiset(r) == multiset(keys);
    assert |multiset(r)| == |multiset(keys)|;
    assert forall k :: k in r <==> k in multiset(r);
    r
  }

  /** Each key is either an array index or not, so the two selections together hold every key once. */
  lemma {:induction false} SelectSplit(keys: seq<string>)
    ensures multiset(Select(keys, true)) + multiset(Select(keys, false)) == multiset(keys)
  {
    if keys != [] {
      SelectSplit(keys[1..]);
      assert keys == [keys[0]] + keys[1..];
    }
  }

  /** Without array-index keys nothing is selected as one, and the rest is the whole list. */
  lemma {:induction false} SelectWithoutIndices(keys: seq<string>)
    requires forall i :: 0 <= i < |keys| ==> !IsArrayIndex(keys[i])
    ensures Select(keys, true) == [] && Select(keys, false) == keys
  {
    if keys != [] {
      SelectWithoutIndices(keys[1..]);
      assert keys == [keys[0]] + keys[1..];
    }
  }

  /** Selection keeps the relative order of the keys it keeps: `pa` and `pb` are where they came from. */
  lemma {:induction false} SelectPreservesOrder(keys: seq<string>, index: bool, a: nat, b: nat) returns (pa: nat, pb: nat)
    requires a < b < |Select(keys, index)|
    ensures pa < pb < |keys| && keys[pa] == Select(keys, index)[a] && keys[pb] == Select(keys, index)[b]
  {
    var s, rest := Select(keys, index), Select(keys[1..], index);
    if IsArrayIndex(keys[0]) != index {
      pa, pb := SelectPreservesOrder(keys[1..], index, a, b);
      pa, pb := pa + 1, pb + 1;
    } else if a == 0 {
      assert rest[b - 1] in keys[1..];
      var q :| 0 <= q < |keys| - 1 && keys[1..][q] == rest[b - 1];
      pa, pb := 0, q + 1;
    } else {
      pa, pb := SelectPreservesOrder(keys[1..], index, a - 1, b - 1);
      pa, pb := pa + 1, pb + 1;
    }
  }

  /** `Object.entries` lists every key exactly as often as it was added: a permutation. */
  lemma EntriesOrderPermutes(keys: seq<string>)
    ensures multiset(EntriesOrder(keys)) == multiset(keys)
  {
    SelectSplit(keys);
  }

  /**
   * The array-index keys come first, in ascending numeric order; the other keys
   * follow in insertion order.
   */
  lemma EntriesOrderShape(keys: seq<string>)
    ensures var r, m := EntriesOrder(keys), |Select(keys, true)|;
      && m <= |r|
      && Ascending(r[..m])
      && (forall k :: k in r[..m] <==> k in keys && IsArrayIndex(k))
      && r[m..] == Select(keys, false)
  {
    var sorted := SortByIndex(Select(keys, true));
    assert |multiset(sorted)| == |multiset(Select(keys, true))|;
    var r := EntriesOrder(keys);
    assert r[..|sorted|] == sorted;
    assert r[|sorted|..] == Select(keys, false);
    forall k
      ensures k in sorted <==> k in keys && IsArrayIndex(k)
    {
      assert k in sorted <==> k in multiset(sorted);
      assert k in Select(keys, true) <==> k in multiset(Select(keys, true));
    }
  }

  /**
   * Two keys that are not array indices keep their insertion order: `pa` and `pb` are the
   * positions at which they were added.
   */
  lemma EntriesOrderKeepsNonIndexOrder(keys: seq<string>, i: nat, j: nat) returns (pa: nat, pb: nat)
    requires i < j < |EntriesOrder(keys)|
    requires !IsArrayIndex(EntriesOrder(keys)[i]) && !IsArrayIndex(EntriesOrder(keys)[j])
    ensures pa < pb < |keys| && keys[pa] == EntriesOrder(keys)[i] && keys[pb] == EntriesOrder(keys)[j]
  {
    var sorted, nonIndex := SortByIndex(Select(keys, true)), Select(keys, false);
    var r := EntriesOrder(keys);
    assert r == sorted + nonIndex;
    var m := |sorted|;
    assert forall k :: 0 <= k < m ==> r[k] == sorted[k];
    assert m <= i;
    assert r[i] == nonIndex[i - m] && r[j] == nonIndex[j - m];
    pa, pb := SelectPreservesOrder(keys, false, i - m, j - m);
  }

  /** When no key is an array index, `Object.entries` keeps insertion order. */
  lemma EntriesOrderWithoutIndices(keys: seq<string>)
    requires forall i :: 0 <= i < |keys| ==> !IsArrayIndex(keys[i])
    ensures EntriesOrder(keys) == keys
  {
    SelectWithoutIndices(keys);
  }
}
