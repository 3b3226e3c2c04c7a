/** The in-place sort for small arrays. */
module InsertionSort {
  import opened Common

  /** Puts `key` behind everything that is not greater. */
  function Inserted(s: seq<nat>, key: nat): (r: seq<nat>)
    ensures |r| == |s| + 1
  {
    if s == [] || s[|s| - 1] <= key then s + [key] else Inserted(s[..|s| - 1], key) + [s[|s| - 1]]
  }

  function SortedSeq(s: seq<nat>): (r: seq<nat>)
    ensures |r| == |s|
  {
    if s == [] then [] else Inserted(SortedSeq(s[..|s| - 1]), s[|s| - 1])
  }

  lemma {:induction false} InsertedContents(s: seq<nat>, key: nat)
    ensures multiset(Inserted(s, key)) == multiset(s) + multiset{key}
  {
    if s != [] && s[|s| - 1] > key {
      InsertedContents(s[..|s| - 1], key);
      assert s == s[..|s| - 1] + [s[|s| - 1]];
    }
  }

  lemma {:induction false} InsertedBelow(s: seq<nat>, key: nat, bound: nat)
    requires key <= bound && forall i :: 0 <= i < |s| ==> s[i] <= bound
    ensures forall i :: 0 <= i < |Inserted(s, key)| ==> Inserted(s, key)[i] <= bound
  {
    if s != [] {
      InsertedBelow(s[..|s| - 1], key, bound);
    }
  }

  lemma {:induction false} InsertedKeepsSorted(s: seq<nat>, key: nat)
    requires Sorted(s)
    ensures Sorted(Inserted(s, key))
  {
    if s != [] && s[|s| - 1] > key {
      InsertedKeepsSorted(s[..|s| - 1], key);
      InsertedBelow(s[..|s| - 1], key, s[|s| - 1]);
    }
  }

  /** Sorting gives a sorted permutation. */
  lemma {:induction false} SortedSeqSorts(s: seq<nat>)
    ensures Sorted(SortedSeq(s)) && multiset(SortedSeq(s)) == multiset(s)
  {
    if s != [] {
      var front, last := s[..|s| - 1], s[|s| - 1];
      SortedSeqSorts(front);
      InsertedKeepsSorted(SortedSeq(front), last);
      InsertedContents(SortedSeq(front), last);
      assert s == front + [last];
    }
  }

  /** Where the key ends up: behind position `n`, before everything greater. */
  lemma {:induction false} InsertedAt(s: seq<nat>, key: nat, n: nat)
    requires n <= |s| && (n > 0 ==> s[n - 1] <= key)
    requires forall k :: n <= k < |s| ==> s[k] > key
    ensures Inserted(s, key) == s[..n] + [key] + s[n..]
  {
    if n == |s| {
      assert s[..n] == s;
    } else {
      var front, last := s[..|s| - 1], s[|s| - 1];
      assert Inserted(s, key) == Inserted(front, key) + [last];
      InsertedAt(front, key, n);
      hide *;
      assert front[..n] == s[..n];
      FrontAndLast(s);
      RestOfOneMore(front, last, n);
    }
  }

  /** Sorts the first `n` elements; a length of zero or less leaves the array alone. */
  method SortSmallUintArray(arr: array<nat>, n: int)
    requires n <= arr.Length
    modifies arr
    ensures n <= 0 ==> arr[..] == old(arr[..])
    ensures n > 0 ==> arr[..n] == SortedSeq(old(arr[..n])) && arr[n..] == old(arr[n..])
    ensures n > 0 ==> multiset(arr[..n]) == multiset(old(arr[..n]))
    ensures forall i, j :: 0 <= i < j < n ==> arr[i] <= arr[j]
  {
    if n <= 0 {
      return;
    }
    hide *;
    ghost var prefix := arr[..n];
    SortedSeqSorts(prefix);
    SortPrefix(arr, n);
    SortedPairs(arr[..n]);
    assert forall j :: 0 <= j < n ==> arr[j] == arr[..n][j];
  }

  lemma SortedPairs(s: seq<nat>)
    requires Sorted(s)
    ensures forall i, j :: 0 <= i < j < |s| ==> s[i] <= s[j]
  {
  }

  /** The outer loop. */
  method SortPrefix(arr: array<nat>, n: int)
    requires 0 < n <= arr.Length
    modifies arr
    ensures arr[..n] == SortedSeq(old(arr[..n])) && arr[n..] == old(arr[n..])
  {
    ghost var was := arr[..];
    var i := 1;
    assert was[..1] == [was[0]] && SortedSeq(was[..1]) == Inserted(SortedSeq(was[..1][..0]), was[0]) == [was[0]];
    while i < n
      invariant 1 <= i <= n
      invariant arr[..i] == SortedSeq(was[..i]) && arr[i..] == was[i..]
    {
      assert was[..i + 1][..i] == was[..i];
      assert arr[i] == arr[i..][0] == was[i];
      InsertKey(arr, i);
      assert arr[..i + 1] == SortedSeq(was[..i + 1]);
      i := i + 1;
    }
    assert arr[n..] == was[n..] && was[..n] == old(arr[..n]);
  }

  /** One round: `arr[i]` takes its place among the elements before it. */
  method InsertKey(arr: array<nat>, i: nat)
    requires i < arr.Length
    modifies arr
    ensures arr[..i + 1] == Inserted(old(arr[..i]), old(arr[i])) && arr[i + 1..] == old(arr[i + 1..])
  {
    hide *;
    ghost var before := arr[..i];
    var key := arr[i];
    var j := i - 1;
    while j >= 0 && arr[j] > key
      invariant -1 <= j < i
      invariant forall k :: 0 <= k <= j ==> arr[k] == before[k]
      invariant forall k :: j < k < i ==> before[k] > key && arr[k + 1] == before[k]
      invariant arr[i + 1..] == old(arr[i + 1..])
    {
      arr[j + 1] := arr[j];
      j := j - 1;
    }
    arr[j + 1] := key;
    InsertedAt(before, key, j + 1);
    ShiftedApart(before, arr[..i + 1], j + 1, key);
  }

  lemma ShiftedApart(before: seq<nat>, after: seq<nat>, j: nat, key: nat)
    requires j <= |before| && |after| == |before| + 1 && after[j] == key
    requires forall k :: 0 <= k < j ==> after[k] == before[k]
    requires forall k :: j <= k < |before| ==> after[k + 1] == before[k]
    ensures after == before[..j] + [key] + before[j..]
  {
  }
}
