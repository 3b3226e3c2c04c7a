/** Transitions between packet size classes, and their ranking. */
module Bigrams {
  const SMALL: nat := 0
  const MEDIUM: nat := 1
  const LARGE: nat := 2
  const BIGRAMS: nat := 9

  function SizeClass(len: nat, small: nat, large: nat): (c: nat)
    ensures c <= LARGE
  {
    if len <= small then SMALL else if len <= large then MEDIUM else LARGE
  }

  predicate Classes(walk: seq<nat>)
  {
    forall i :: 0 <= i < |walk| ==> walk[i] <= LARGE
  }

  /** The class a walk has reached; it starts at SMALL. */
  function Last(walk: seq<nat>): nat
  {
    if walk == [] then SMALL else walk[|walk| - 1]
  }

  /** How often a walk steps from class `a` to class `b`. */
  function Steps(walk: seq<nat>, a: nat, b: nat): nat
  {
    if walk == [] then 0
    else
      var front := walk[..|walk| - 1];
      Steps(front, a, b) + if Last(front) == a && Last(walk) == b then 1 else 0
  }

  function Out(walk: seq<nat>, c: nat): nat
  {
    Steps(walk, c, SMALL) + Steps(walk, c, MEDIUM) + Steps(walk, c, LARGE)
  }

  function In(walk: seq<nat>, c: nat): nat
  {
    Steps(walk, SMALL, c) + Steps(walk, MEDIUM, c) + Steps(walk, LARGE, c)
  }

  function Is(a: nat, b: nat): int
  {
    if a == b then 1 else 0
  }

  /** Counts of a walk balance: it leaves every class as often as it enters it, but for the class it
      starts in and the class it has reached. */
  lemma {:induction false} WalkBalances(walk: seq<nat>, c: nat)
    requires Classes(walk) && c <= LARGE
    ensures Out(walk, c) - In(walk, c) == Is(c, SMALL) - Is(c, Last(walk))
  {
    if walk != [] {
      var front := walk[..|walk| - 1];
      WalkBalances(front, c);
      OneStep(walk, c);
      assert Last(front) <= LARGE;
    }
  }

  lemma OneStep(walk: seq<nat>, c: nat)
    requires walk != [] && Classes(walk)
    ensures var front := walk[..|walk| - 1];
            && Out(walk, c) == Out(front, c) + Is(c, Last(front))
            && In(walk, c) == In(front, c) + if Last(front) <= LARGE then Is(c, Last(walk)) else 0
  {
  }

  /** Every step is counted once. */
  lemma {:induction false} StepsAddUp(walk: seq<nat>)
    requires Classes(walk)
    ensures Out(walk, SMALL) + Out(walk, MEDIUM) + Out(walk, LARGE) == |walk|
  {
    if walk != [] {
      var front := walk[..|walk| - 1];
      StepsAddUp(front);
      OneStep(walk, SMALL);
      OneStep(walk, MEDIUM);
      OneStep(walk, LARGE);
      assert Last(front) <= LARGE;
      hide Out, Steps;
    }
  }

  /** Bigram counts of a flow, and the class of its last packet. */
  class BigramStats {
    const counts: array<nat>
    var total: nat
    var lastClass: nat

    /** The counts are those of the walk. */
    ghost predicate Counts(walk: seq<nat>)
      reads this, counts
    {
      && counts.Length == BIGRAMS && Classes(walk)
      && total == |walk| && lastClass == Last(walk)
      && forall a: nat, b: nat :: a <= LARGE && b <= LARGE ==> counts[a * 3 + b] == Steps(walk, a, b)
    }

    constructor ()
      ensures Counts([]) && fresh(counts)
    {
      counts := new nat[BIGRAMS](_ => 0);
      total, lastClass := 0, SMALL;
    }

    method Update(prev: nat, curr: nat)
      requires counts.Length == BIGRAMS && prev <= LARGE && curr <= LARGE
      modifies counts, this`total
      ensures total == old(total) + 1
      ensures forall i :: 0 <= i < BIGRAMS ==> counts[i] == old(counts[i]) + if i == prev * 3 + curr then 1 else 0
    {
      var idx := prev * 3 + curr;
      if idx < BIGRAMS {
        counts[idx] := counts[idx] + 1;
        total := total + 1;
      }
    }

    /** The per-packet update. */
    method Packet(len: nat, small: nat, large: nat, ghost walk: seq<nat>)
      requires Counts(walk)
      modifies this, counts
      ensures Counts(walk + [SizeClass(len, small, large)])
      ensures lastClass == 0 <==> len <= small
      ensures lastClass == 1 <==> small < len <= large
      ensures lastClass == 2 <==> small < len && large < len
      ensures counts.Length == 9 && old(lastClass) <= 2
      ensures forall i :: 0 <= i < 9 ==> counts[i] == old(counts[i]) + if i == old(lastClass) * 3 + lastClass then 1 else 0
    {
      var curr := SizeClass(len, small, large);
      assert lastClass <= LARGE;
      Update(lastClass, curr);
      lastClass := curr;
      ghost var walk' := walk + [curr];
      assert walk'[..|walk|] == walk;
      forall a: nat, b: nat | a <= LARGE && b <= LARGE ensures counts[a * 3 + b] == Steps(walk', a, b) {
        assert a * 3 + b == Last(walk) * 3 + curr <==> a == Last(walk) && b == curr;
      }
    }
  }

  // --- Ranking ---

  datatype RankItem = RankItem(kind: nat, count: nat)

  lemma SwapPermutes<T>(s: seq<T>, i: nat, j: nat)
    requires i < j < |s|
    ensures multiset(s[i := s[j]][j := s[i]]) == multiset(s)
  {
    UpdateContents(s, i, s[j]);
    UpdateContents(s[i := s[j]], j, s[i]);
  }

  lemma UpdateContents<T>(s: seq<T>, i: nat, x: T)
    requires i < |s|
    ensures multiset(s[i := x]) == multiset(s) - multiset{s[i]} + multiset{x}
    ensures s[i] in multiset(s)
  {
  }

  /** The counts, each with the kind of bigram it is for. */
  function Items(counts: seq<nat>): (items: seq<RankItem>)
    ensures |items| == |counts|
  {
    seq(|counts|, i requires 0 <= i < |counts| => RankItem(i, counts[i]))
  }

  /** Ranks the counts of all bigrams. */
  method Ranking(counts: array<nat>) returns (ranks: array<RankItem>)
    ensures fresh(ranks) && multiset(ranks[..]) == multiset(Items(counts[..]))
    ensures ranks.Length == counts.Length
    ensures forall kind :: 0 <= kind < counts.Length ==> RankItem(kind, counts[kind]) in ranks[..]
    ensures forall i, j :: 0 <= i < j < ranks.Length ==> ranks[i].count >= ranks[j].count
  {
    ranks := new RankItem[counts.Length](_ => RankItem(0, 0));
    var i := 0;
    while i < counts.Length
      invariant 0 <= i <= counts.Length
      invariant counts[..] == old(counts[..])
      invariant forall k :: 0 <= k < i ==> ranks[k] == RankItem(k, counts[k])
    {
      ranks[i] := RankItem(i, counts[i]);
      i := i + 1;
    }
    ghost var items := ranks[..];
    assert items == Items(counts[..]);
    forall kind | 0 <= kind < counts.Length ensures RankItem(kind, counts[kind]) in items {
      assert items[kind] == RankItem(kind, counts[kind]);
    }
    Rank(ranks);
    SameItems(items, ranks[..]);
  }

  lemma SameItems(s: seq<RankItem>, t: seq<RankItem>)
    requires multiset(s) == multiset(t)
    ensures |s| == |t| && forall x :: x in s <==> x in t
  {
    assert |multiset(s)| == |s| && |multiset(t)| == |t|;
    assert forall x :: x in s <==> x in multiset(s);
    assert forall x :: x in t <==> x in multiset(t);
  }

  /** The first `i` items are in place. */
  predicate Placed(s: seq<RankItem>, i: nat)
  {
    forall p, q :: 0 <= p < i && p < q < |s| ==> s[p].count >= s[q].count
  }

  lemma SwapKeepsPlaced(s: seq<RankItem>, i: nat, j: nat)
    requires i < j < |s| && Placed(s, i)
    ensures Placed(s[i := s[j]][j := s[i]], i)
  {
  }

  /** The exchange sort of the ranking: a permutation of the items, by descending count. */
  method Rank(ranks: array<RankItem>)
    modifies ranks
    ensures multiset(ranks[..]) == multiset(old(ranks[..]))
    ensures forall i, j :: 0 <= i < j < ranks.Length ==> ranks[i].count >= ranks[j].count
  {
    var i := 0;
    while i < ranks.Length
      invariant 0 <= i <= ranks.Length
      invariant multiset(ranks[..]) == multiset(old(ranks[..])) && Placed(ranks[..], i)
    {
      Settle(ranks, i);
      i := i + 1;
    }
  }

  /** The inner loop: item `i` becomes the largest of those from `i` on. */
  method Settle(ranks: array<RankItem>, i: nat)
    requires i < ranks.Length && Placed(ranks[..], i)
    modifies ranks
    ensures multiset(ranks[..]) == multiset(old(ranks[..])) && Placed(ranks[..], i + 1)
  {
    var j := i + 1;
    while j < ranks.Length
      invariant i < j <= ranks.Length
      invariant multiset(ranks[..]) == multiset(old(ranks[..])) && Placed(ranks[..], i)
      invariant forall q :: i < q < j ==> ranks[i].count >= ranks[q].count
    {
      if ranks[i].count < ranks[j].count {
        SwapPermutes(ranks[..], i, j);
        SwapKeepsPlaced(ranks[..], i, j);
        hide Placed;
        ghost var before := ranks[..];
        ranks[i], ranks[j] := ranks[j], ranks[i];
        assert ranks[..] == before[i := before[j]][j := before[i]];
      }
      j := j + 1;
    }
  }
}
