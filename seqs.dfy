/**
 * Sequence facts the board queries rely on, and the two ways
 * `getAllNeutralBorderingTiles` and `getAllNeutralBorderingTiles2` drop
 * duplicate keys: `arr.filter((key, i, arr) => arr.indexOf(key) === i)` and
 * `[...new Set(arr)]`.
 */
module Seqs {

  /** No element occurs twice. */
  predicate Distinct<T(==)>(s: seq<T>)
  {
    forall i, j :: 0 <= i < j < |s| ==> s[i] != s[j]
  }

  /** The elements of `s` as a set. */
  function Elems<T>(s: seq<T>): set<T>
  {
    set x | x in s
  }

  /** A sequence without repetitions has as many elements as its set. */
  lemma {:induction false} DistinctCard<T>(s: seq<T>)
    requires Distinct(s)
    ensures |Elems(s)| == |s|
  {
    if s != [] {
      var init := s[..|s| - 1];
      assert Distinct(init);
      DistinctCard(init);
      assert Elems(s) == Elems(init) + {s[|s| - 1]};
      assert s[|s| - 1] !in Elems(init);
    }
  }

  /** `arr.indexOf(x)`: the first index holding `x`, or -1. */
  function IndexOf<T(==)>(arr: seq<T>, x: T): (i: int)
    ensures -1 <= i < |arr|
    ensures 0 <= i ==> arr[i] == x && x !in arr[..i]
    ensures i < 0 ==> x !in arr
  {
    if arr == [] then -1
    else if arr[0] == x then 0
    else
      var i := IndexOf(arr[1..], x);
      assert i >= 0 ==> arr[..i + 1] == [arr[0]] + arr[1..][..i];
      if i < 0 then -1 else i + 1
  }

  /** The first `n` elements of `arr` put through the `indexOf` filter. */
  function IndexFilter<T(==)>(arr: seq<T>, n: nat): seq<T>
    requires n <= |arr|
  {
    if n == 0 then []
    else IndexFilter(arr, n - 1) + (if IndexOf(arr, arr[n - 1]) == n - 1 then [arr[n - 1]] else [])
  }

  /** `arr.filter((x, i, arr) => arr.indexOf(x) === i)`: keep first occurrences only. */
  function FirstOccurrences<T(==)>(arr: seq<T>): seq<T>
  {
    IndexFilter(arr, |arr|)
  }

  /**
   * `[...new Set(arr)]`: a JavaScript `Set` lists its elements in insertion
   * order, and adding an element it already holds changes nothing.
   */
  function SetSpread<T(==)>(arr: seq<T>): seq<T>
  {
    if arr == [] then []
    else
      var seen := SetSpread(arr[..|arr| - 1]);
      if arr[|arr| - 1] in seen then seen else seen + [arr[|arr| - 1]]
  }

  /** The spread set holds exactly the array's elements, each once. */
  lemma {:induction false} SetSpreadElements<T>(arr: seq<T>)
    ensures forall x :: x in SetSpread(arr) <==> x in arr
    ensures Distinct(SetSpread(arr))
  {
    if arr != [] {
      var init := arr[..|arr| - 1];
      SetSpreadElements(init);
      assert arr == init + [arr[|arr| - 1]];
    }
  }

  /** The `indexOf` filter and the `Set` spread give the same list. */
  lemma {:induction false} IndexFilterIsSetSpread<T>(arr: seq<T>, n: nat)
    requires n <= |arr|
    ensures IndexFilter(arr, n) == SetSpread(arr[..n])
  {
    if n > 0 {
      IndexFilterIsSetSpread(arr, n - 1);
      var init := arr[..n][..n - 1];
      assert init == arr[..n - 1];
      SetSpreadElements(init);
      var i := IndexOf(arr, arr[n - 1]);
      if i < n - 1 {
        assert arr[n - 1] in init;
      } else if i == n - 1 {
        assert arr[n - 1] !in init;
      }
    }
  }

  /** Both duplicate-dropping filters agree, keep every element, and repeat none. */
  lemma FirstOccurrencesIsSetSpread<T>(arr: seq<T>)
    ensures FirstOccurrences(arr) == SetSpread(arr)
    ensures forall x :: x in FirstOccurrences(arr) <==> x in arr
    ensures Distinct(FirstOccurrences(arr))
  {
    IndexFilterIsSetSpread(arr, |arr|);
    assert arr[..|arr|] == arr;
    SetSpreadElements(arr);
  }
}
