/** Run lengths of a sequence of packet lengths. */
module RunLength {
  import opened Common

  datatype Run = Run(value: nat, count: nat)

  /** One more element lengthens the last run, or starts a new one. */
  function Added(e: seq<Run>, x: nat): seq<Run>
  {
    if e != [] && e[|e| - 1].value == x then e[|e| - 1 := Run(x, e[|e| - 1].count + 1)] else e + [Run(x, 1)]
  }

  function Encode(s: seq<nat>): seq<Run>
  {
    if s == [] then [] else Added(Encode(s[..|s| - 1]), s[|s| - 1])
  }

  function Repeat(x: nat, n: nat): (s: seq<nat>)
    ensures |s| == n && forall i :: 0 <= i < n ==> s[i] == x
  {
    if n == 0 then [] else Repeat(x, n - 1) + [x]
  }

  function Expand(e: seq<Run>): seq<nat>
  {
    if e == [] then [] else Expand(e[..|e| - 1]) + Repeat(e[|e| - 1].value, e[|e| - 1].count)
  }

  /** Runs are not empty, and neighbours differ. */
  predicate Canonical(e: seq<Run>)
  {
    && (forall k :: 0 <= k < |e| ==> e[k].count >= 1)
    && (forall k :: 0 < k < |e| ==> e[k].value != e[k - 1].value)
  }

  lemma ExpandOneMore(e: seq<Run>, r: Run)
    ensures Expand(e + [r]) == Expand(e) + Repeat(r.value, r.count)
  {
    assert (e + [r])[..|e|] == e;
  }

  lemma AddedIsLossless(e: seq<Run>, x: nat)
    ensures Expand(Added(e, x)) == Expand(e) + [x]
  {
    var n := |e| - 1;
    if e != [] && e[n].value == x {
      var front, count := e[..n], e[n].count;
      assert e == front + [Run(x, count)] && Added(e, x) == front + [Run(x, count + 1)];
      ExpandOneMore(front, Run(x, count));
      ExpandOneMore(front, Run(x, count + 1));
      assert Repeat(x, count + 1) == Repeat(x, count) + [x];
      hide Expand, Added, Repeat;
      assert Expand(front) + Repeat(x, count) + [x] == Expand(front) + (Repeat(x, count) + [x]);
    } else {
      ExpandOneMore(e, Run(x, 1));
      assert Repeat(x, 1) == [x];
      hide Expand, Repeat;
    }
  }

  lemma AddedIsCanonical(e: seq<Run>, x: nat)
    requires Canonical(e)
    ensures Canonical(Added(e, x))
  {
  }

  /** The encoding loses nothing, and its runs are maximal. */
  lemma {:induction false} EncodeIsLossless(s: seq<nat>)
    ensures Expand(Encode(s)) == s && Canonical(Encode(s))
    ensures s != [] ==> Encode(s) != [] && Encode(s)[|Encode(s)| - 1].value == s[|s| - 1]
  {
    if s != [] {
      var front, x := s[..|s| - 1], s[|s| - 1];
      EncodeIsLossless(front);
      AddedIsLossless(Encode(front), x);
      AddedIsCanonical(Encode(front), x);
      assert s == front + [x];
      hide Expand, Canonical;
    }
  }

  /** No other list of maximal runs expands to the same sequence. */
  lemma {:induction false} EncodeIsUnique(e: seq<Run>)
    requires Canonical(e)
    ensures Encode(Expand(e)) == e
    decreases |Expand(e)|
  {
    if e != [] {
      var r := e[|e| - 1];
      var shorter := OneFewer(e);
      AddedIsLossless(shorter, r.value);
      var s := Expand(e);
      assert s[..|s| - 1] == Expand(shorter) && s[|s| - 1] == r.value;
      hide Expand, Canonical, Added;
      EncodeIsUnique(shorter);
    }
  }

  lemma OneFewer(e: seq<Run>) returns (shorter: seq<Run>)
    requires Canonical(e) && e != []
    ensures Canonical(shorter) && Added(shorter, e[|e| - 1].value) == e
  {
    var n := |e| - 1;
    var r := e[n];
    shorter := if r.count == 1 then e[..n] else e[n := Run(r.value, r.count - 1)];
  }

  function Counts(e: seq<Run>): (c: seq<nat>)
    ensures |c| == |e|
  {
    seq(|e|, k requires 0 <= k < |e| => e[k].count)
  }

  /** The runs add up to the length of the sequence. */
  lemma {:induction false} CountsAddUp(e: seq<Run>)
    ensures Sum(Counts(e)) == |Expand(e)|
  {
    if e != [] {
      CountsAddUp(e[..|e| - 1]);
      assert Counts(e)[..|e| - 1] == Counts(e[..|e| - 1]);
    }
  }

  lemma {:induction false} NoMoreRunsThanElements(s: seq<nat>)
    ensures |Encode(s)| <= |s| && (s != [] ==> Encode(s) != [])
  {
    if s != [] {
      NoMoreRunsThanElements(s[..|s| - 1]);
    }
  }

  /** The runs closed among the first `n` elements, and the length of the open one. */
  datatype Split = Split(closed: seq<nat>, open: nat)

  function SplitAt(s: seq<nat>, n: nat): Split
    requires 0 < n <= |s|
  {
    if n == 1 then Split([], 1)
    else
      var before := SplitAt(s, n - 1);
      if s[n - 1] == s[n - 2] then before.(open := before.open + 1) else Split(before.closed + [before.open], 1)
  }

  lemma {:induction false} SplitCounts(s: seq<nat>, n: nat)
    requires 0 < n <= |s|
    ensures Counts(Encode(s[..n])) == SplitAt(s, n).closed + [SplitAt(s, n).open]
    ensures |SplitAt(s, n).closed| < n
  {
    assert s[..n][..n - 1] == s[..n - 1];
    if n == 1 {
      assert Encode(s[..1]) == Added(Encode([]), s[0]);
    } else {
      SplitCounts(s, n - 1);
      EncodeIsLossless(s[..n - 1]);
      var before, e := SplitAt(s, n - 1), Encode(s[..n - 1]);
      assert Counts(e)[|e| - 1] == before.open && Counts(e)[..|e| - 1] == before.closed;
    }
  }

  /** Fills `runs` (as long as the sequence) and says how many entries it used.  A single packet is one
      run; an empty sequence has none. */
  method RunLengths(s: seq<nat>, runs: array<nat>) returns (runN: nat)
    requires runs.Length == |s|
    modifies runs
    ensures runN <= runs.Length && runs[..runN] == Counts(Encode(s))
    ensures runN == |Encode(s)| && forall k :: 0 <= k < runN ==> runs[k] == Encode(s)[k].count
  {
    if |s| == 0 {
      return 0;
    }
    assert s[..|s|] == s;
    SplitCounts(s, |s|);
    if |s| == 1 {
      runs[0] := 1;
      return 1;
    }
    hide Counts, Encode;
    runN := 0;
    var cur := 1;
    var i := 1;
    while i < |s|
      invariant 1 <= i <= |s| && runN < i
      invariant Split(runs[..runN], cur) == SplitAt(s, i)
    {
      if s[i] == s[i - 1] {
        cur := cur + 1;
      } else {
        Append(runs, runN, cur);
        runN := runN + 1;
        cur := 1;
      }
      i := i + 1;
    }
    Append(runs, runN, cur);
    runN := runN + 1;
  }

  /** `runs[n] := x`. */
  method Append(runs: array<nat>, n: nat, x: nat)
    requires n < runs.Length
    modifies runs
    ensures runs[..n + 1] == old(runs[..n]) + [x]
  {
    runs[n] := x;
  }
}
