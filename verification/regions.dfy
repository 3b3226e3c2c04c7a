/** What a laid-out block holds, region by region, and how stores and copies change it. */
module Regions {
  import opened BitMask
  import opened Memory
  import opened Layout

  /** Region `r` holds `list`, from its first slot on.  Slots past the end of the list hold whatever
      they hold. */
  ghost predicate HoldsRegion(m: seq<Byte>, d: Dims, r: nat, list: seq<int>)
  {
    |list| <= Slots(r, d) && Holds(m, Offset(r, d), ElemSize(r), list)
  }

  /** Each of the first `n` regions holds its list. */
  ghost predicate HoldsFirst(m: seq<Byte>, d: Dims, lists: seq<seq<int>>, n: nat)
  {
    n == 0 || (n <= |lists| && HoldsFirst(m, d, lists, n - 1) && HoldsRegion(m, d, n - 1, lists[n - 1]))
  }

  /** Every region of the block holds its list. */
  ghost predicate Represents(m: seq<Byte>, d: Dims, lists: seq<seq<int>>)
  {
    |lists| == REGIONS && Offset(REGIONS, d) <= |m| && HoldsFirst(m, d, lists, REGIONS)
  }

  lemma {:induction false} HoldsAt(m: seq<Byte>, d: Dims, lists: seq<seq<int>>, n: nat, r: nat)
    requires HoldsFirst(m, d, lists, n) && r < n <= |lists|
    ensures HoldsRegion(m, d, r, lists[r])
  {
    if r < n - 1 {
      HoldsAt(m, d, lists, n - 1, r);
    }
  }

  lemma {:induction false} HoldsEach(m: seq<Byte>, d: Dims, lists: seq<seq<int>>, n: nat)
    requires n <= |lists| && forall r :: 0 <= r < n ==> HoldsRegion(m, d, r, lists[r])
    ensures HoldsFirst(m, d, lists, n)
  {
    if n > 0 {
      HoldsEach(m, d, lists, n - 1);
    }
  }

  /** The lists an upgrade carries over: the arrays' lists, while the rings start out empty. */
  function ArraysOnly(lists: seq<seq<int>>): (kept: seq<seq<int>>)
    requires |lists| == REGIONS
    ensures |kept| == REGIONS
  {
    seq(REGIONS, r requires 0 <= r < REGIONS => if r < ARRAYS then lists[r] else [])
  }

  lemma ArraysRepresent(m: seq<Byte>, d: Dims, lists: seq<seq<int>>)
    requires |lists| == REGIONS && Offset(REGIONS, d) <= |m| && HoldsFirst(m, d, lists, ARRAYS)
    ensures Represents(m, d, ArraysOnly(lists))
  {
    forall r | 0 <= r < REGIONS
      ensures HoldsRegion(m, d, r, ArraysOnly(lists)[r])
    {
      if r < ARRAYS {
        HoldsAt(m, d, lists, ARRAYS, r);
      }
    }
    HoldsEach(m, d, ArraysOnly(lists), REGIONS);
  }

  lemma {:induction false} HoldsFewer(m: seq<Byte>, d: Dims, lists: seq<seq<int>>, n: nat, fewer: nat)
    requires HoldsFirst(m, d, lists, n) && fewer <= n
    ensures HoldsFirst(m, d, lists, fewer)
  {
    if fewer < n {
      HoldsFewer(m, d, lists, n - 1, fewer);
    }
  }

  lemma RegionInBounds(r: nat, d: Dims)
    requires r < REGIONS
    ensures RegionEnd(r, d) <= Offset(REGIONS, d)
    ensures At(Offset(r, d), ElemSize(r), Slots(r, d)) == RegionEnd(r, d)
  {
    RegionsDisjoint(r, REGIONS, d);
  }

  lemma SlotInBounds(r: nat, k: nat, d: Dims)
    requires r < REGIONS && k < Slots(r, d)
    ensures Offset(r, d) <= At(Offset(r, d), ElemSize(r), k)
    ensures At(Offset(r, d), ElemSize(r), k) + ElemSize(r) <= RegionEnd(r, d) <= Offset(REGIONS, d)
  {
    SizeIsPositive(r);
    hide *;
    AtMonotone(Offset(r, d), ElemSize(r), k, Slots(r, d));
    RegionInBounds(r, d);
  }

  lemma SizeIsPositive(r: nat)
    requires r < REGIONS
    ensures ElemSize(r) > 0
  {
  }

  lemma LiveInBounds(r: nat, live: nat, d: Dims)
    requires r < REGIONS && live <= Slots(r, d)
    ensures Offset(r, d) <= At(Offset(r, d), ElemSize(r), live) <= RegionEnd(r, d) <= Offset(REGIONS, d)
  {
    hide *;
    RegionInBounds(r, d);
    AtOrder(Offset(r, d), ElemSize(r), live, Slots(r, d));
  }

  lemma AtOrder(base: nat, size: nat, j: nat, k: nat)
    requires j <= k
    ensures base <= At(base, size, j) <= At(base, size, k)
  {
    assert (k - j) * size >= 0;
  }


  /** A write that stays inside region `r` leaves every other region's list alone. */
  lemma OtherRegionKept(m: seq<Byte>, d: Dims, r: nat, a: nat, b: seq<Byte>, q: nat, vals: seq<int>)
    requires Offset(REGIONS, d) <= |m| && r < REGIONS && q < REGIONS && q != r
    requires Offset(r, d) <= a && a + |b| <= RegionEnd(r, d) <= |m|
    requires HoldsRegion(m, d, q, vals)
    ensures HoldsRegion(Splice(m, a, b), d, q, vals)
  {
    LiveInBounds(q, |vals|, d);
    if q < r {
      RegionsDisjoint(q, r, d);
    } else {
      RegionsDisjoint(r, q, d);
    }
    var lo, hi := Offset(q, d), At(Offset(q, d), ElemSize(q), |vals|);
    SpliceFrame(m, a, b, lo, hi);
    HoldsFrame(m, Splice(m, a, b), lo, ElemSize(q), vals);
  }

  /** Storing one element in region `r` changes that region's list and nothing else. */
  lemma StoreRegion(m: seq<Byte>, d: Dims, lists: seq<seq<int>>, r: nat, k: nat, v: int)
    requires Represents(m, d, lists) && r < REGIONS && k < Slots(r, d) && k <= |lists[r]|
    ensures At(Offset(r, d), ElemSize(r), k) + ElemSize(r) <= |m|
    ensures Represents(Splice(m, At(Offset(r, d), ElemSize(r), k), Encode(v, ElemSize(r))), d,
                       lists[r := Stored(lists[r], k, v)])
  {
    SlotInBounds(r, k, d);
    HoldsAt(m, d, lists, REGIONS, r);
    var a, b := At(Offset(r, d), ElemSize(r), k), Encode(v, ElemSize(r));
    var m', lists' := Splice(m, a, b), lists[r := Stored(lists[r], k, v)];
    StoreHolds(m, Offset(r, d), ElemSize(r), lists[r], k, v);
    forall q | 0 <= q < REGIONS
      ensures HoldsRegion(m', d, q, lists'[q])
    {
      if q != r {
        HoldsAt(m, d, lists, REGIONS, q);
        OtherRegionKept(m, d, r, a, b, q, lists[q]);
      }
    }
    HoldsEach(m', d, lists', REGIONS);
  }

  /** Copying region `r` out of an old block adds its list to what a new block holds. */
  lemma CopyRegion(m: seq<Byte>, d: Dims, src: seq<Byte>, d0: Dims, lists: seq<seq<int>>, r: nat, slots: nat)
    requires HoldsFirst(m, d, lists, r) && Offset(REGIONS, d) <= |m| && r < REGIONS
    requires Represents(src, d0, lists)
    requires |lists[r]| <= slots <= Slots(r, d0) && slots <= Slots(r, d)
    ensures var from, to := Offset(r, d0), At(Offset(r, d0), ElemSize(r), slots);
            && from <= to <= |src| && Offset(r, d) + (to - from) <= |m|
            && HoldsFirst(Splice(m, Offset(r, d), src[from..to]), d, lists, r + 1)
  {
    LiveInBounds(r, slots, d0);
    LiveInBounds(r, slots, d);
    var b := src[Offset(r, d0)..At(Offset(r, d0), ElemSize(r), slots)];
    var m' := Splice(m, Offset(r, d), b);
    HoldsAt(src, d0, lists, REGIONS, r);
    CopyHolds(m, Offset(r, d), src, Offset(r, d0), ElemSize(r), lists[r], slots);
    forall q | 0 <= q < r + 1
      ensures HoldsRegion(m', d, q, lists[q])
    {
      if q < r {
        HoldsAt(m, d, lists, r, q);
        OtherRegionKept(m, d, r, Offset(r, d), b, q, lists[q]);
      }
    }
    HoldsEach(m', d, lists, r + 1);
  }

  /** Writing past the first `n` regions leaves them alone. */
  lemma TailWriteKept(m: seq<Byte>, d: Dims, lists: seq<seq<int>>, n: nat, a: nat, b: seq<Byte>)
    requires n <= |lists| && n <= REGIONS && HoldsFirst(m, d, lists, n) && Offset(n, d) <= a && a + |b| <= |m|
    ensures HoldsFirst(Splice(m, a, b), d, lists, n)
  {
    forall r | 0 <= r < n
      ensures HoldsRegion(Splice(m, a, b), d, r, lists[r])
    {
      HoldsAt(m, d, lists, n, r);
      LiveInBounds(r, |lists[r]|, d);
      RegionsDisjoint(r, n, d);
      var lo, hi := Offset(r, d), At(Offset(r, d), ElemSize(r), |lists[r]|);
      SpliceFrame(m, a, b, lo, hi);
      HoldsFrame(m, Splice(m, a, b), lo, ElemSize(r), lists[r]);
    }
    HoldsEach(Splice(m, a, b), d, lists, n);
  }

  /** The lists of a fresh flow: window counters at zero, everything else empty. */
  function EmptyLists(windows: nat): (lists: seq<seq<int>>)
    ensures |lists| == REGIONS
  {
    seq(REGIONS, r => if WINDOW_PKT_COUNTS <= r <= WINDOW_BITRATE then seq(windows, _ => 0) else [])
  }

  lemma ZeroedBlock(m: seq<Byte>, d: Dims)
    requires Offset(REGIONS, d) <= |m| && forall i :: 0 <= i < |m| ==> m[i] == Zero
    ensures Represents(m, d, EmptyLists(d.windows))
  {
    var lists := EmptyLists(d.windows);
    forall r | 0 <= r < REGIONS
      ensures HoldsRegion(m, d, r, lists[r])
    {
      if WINDOW_PKT_COUNTS <= r <= WINDOW_BITRATE {
        RegionInBounds(r, d);
        ZeroHolds(m, Offset(r, d), ElemSize(r), d.windows);
      }
    }
    HoldsEach(m, d, lists, REGIONS);
  }

  /** Filling an empty region from a saved copy gives it the copy's list. */
  lemma FillRegion(m: seq<Byte>, d: Dims, lists: seq<seq<int>>, r: nat, bytes: seq<Byte>, vals: seq<int>)
    requires Represents(m, d, lists) && r < REGIONS && |vals| <= Slots(r, d)
    requires |bytes| == At(0, ElemSize(r), |vals|) && Holds(bytes, 0, ElemSize(r), vals)
    ensures Offset(r, d) + |bytes| <= |m|
    ensures Represents(Splice(m, Offset(r, d), bytes), d, lists[r := vals])
  {
    LiveInBounds(r, |vals|, d);
    var m', lists' := Splice(m, Offset(r, d), bytes), lists[r := vals];
    CopyHolds(m, Offset(r, d), bytes, 0, ElemSize(r), vals, |vals|);
    assert bytes[0..|bytes|] == bytes;
    forall q | 0 <= q < REGIONS
      ensures HoldsRegion(m', d, q, lists'[q])
    {
      if q != r {
        HoldsAt(m, d, lists, REGIONS, q);
        OtherRegionKept(m, d, r, Offset(r, d), bytes, q, lists[q]);
      }
    }
    HoldsEach(m', d, lists', REGIONS);
  }
}
