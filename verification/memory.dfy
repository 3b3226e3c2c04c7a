/** Byte-addressed memory holding typed elements.

    A block is a sequence of bytes.  Storing an element of `size` bytes writes its representation, and
    byte `i` of that representation is kept symbolically as `Part(value, i)`; the representation of
    zero is all `Zero` bytes, which is what `memset(_, 0, _)` leaves behind.  An element is read back
    only if every one of its bytes is still in place, so overlapping regions would be noticed. */
module Memory {

  datatype Byte = Zero | Part(value: int, index: nat)

  function Encode(v: int, size: nat): (b: seq<Byte>)
    ensures |b| == size
  {
    seq(size, (i: nat) => if v == 0 then Zero else Part(v, i))
  }

  /** The element whose representation `b` is, or zero if `b` represents none. */
  function Decode(b: seq<Byte>): int
  {
    if |b| > 0 && b[0].Part? && b == Encode(b[0].value, |b|) then b[0].value else 0
  }

  lemma DecodeEncode(v: int, size: nat)
    requires size > 0
    ensures Decode(Encode(v, size)) == v
  {
    assert v != 0 ==> Encode(v, size)[0] == Part(v, 0);
  }

  /** Address of slot `k` in an array of `size`-byte elements starting at `base`. */
  function At(base: nat, size: nat, k: nat): nat
  {
    base + k * size
  }

  /** The bytes of slot `k`, or none if the block ends before it does. */
  function Slot(m: seq<Byte>, base: nat, size: nat, k: nat): seq<Byte>
  {
    if At(base, size, k) + size <= |m| then m[At(base, size, k)..At(base, size, k) + size] else []
  }

  /** `memcpy(m + a, b, |b|)`. */
  function Splice(m: seq<Byte>, a: nat, b: seq<Byte>): (r: seq<Byte>)
    requires a + |b| <= |m|
    ensures |r| == |m|
  {
    m[..a] + b + m[a + |b|..]
  }

  /** The first `|vals|` slots of the array at `base` represent `vals`. */
  ghost predicate Holds(m: seq<Byte>, base: nat, size: nat, vals: seq<int>)
  {
    forall k :: 0 <= k < |vals| ==> Slot(m, base, size, k) == Encode(vals[k], size)
  }

  lemma AtMonotone(base: nat, size: nat, j: nat, k: nat)
    requires j < k
    ensures At(base, size, j) + size <= At(base, size, k)
  {
    assert (k - j - 1) * size >= 0;
  }

  /** Bytes outside the target range keep their value. */
  lemma SpliceFrame(m: seq<Byte>, a: nat, b: seq<Byte>, lo: nat, hi: nat)
    requires a + |b| <= |m| && lo <= hi <= |m|
    requires hi <= a || a + |b| <= lo
    ensures Splice(m, a, b)[lo..hi] == m[lo..hi]
  {
  }

  /** An array keeps its contents as long as its bytes are untouched. */
  lemma HoldsFrame(m: seq<Byte>, m': seq<Byte>, base: nat, size: nat, vals: seq<int>)
    requires Holds(m, base, size, vals)
    requires At(base, size, |vals|) <= |m| && At(base, size, |vals|) <= |m'|
    requires m[base..At(base, size, |vals|)] == m'[base..At(base, size, |vals|)]
    ensures Holds(m', base, size, vals)
  {
    forall k | 0 <= k < |vals|
      ensures Slot(m', base, size, k) == Encode(vals[k], size)
    {
      SlotInRange(m, m', base, size, k, |vals|);
    }
  }

  lemma SlotInRange(m: seq<Byte>, m': seq<Byte>, base: nat, size: nat, k: nat, n: nat)
    requires k < n && At(base, size, n) <= |m| && At(base, size, n) <= |m'|
    requires m[base..At(base, size, n)] == m'[base..At(base, size, n)]
    ensures Slot(m, base, size, k) == Slot(m', base, size, k)
  {
    AtMonotone(base, size, k, n);
    var a, hi := At(base, size, k), At(base, size, n);
    assert base <= a by { assert k * size >= 0; }
    SliceOfSlice(m, base, hi, a, a + size);
    SliceOfSlice(m', base, hi, a, a + size);
  }

  lemma SliceOfSlice(m: seq<Byte>, lo: nat, hi: nat, a: nat, b: nat)
    requires lo <= a <= b <= hi <= |m|
    ensures m[lo..hi][a - lo..b - lo] == m[a..b]
  {
    forall i | 0 <= i < b - a
      ensures m[lo..hi][a - lo..b - lo][i] == m[a..b][i]
    {
      assert m[lo..hi][a - lo + i] == m[a + i];
    }
  }

  function Stored(vals: seq<int>, k: nat, v: int): seq<int>
    requires k <= |vals|
  {
    if k < |vals| then vals[k := v] else vals + [v]
  }

  /** Storing an element replaces its own slot and no other. */
  lemma StoreSlot(m: seq<Byte>, base: nat, size: nat, k: nat, elem: seq<Byte>, j: nat)
    requires size > 0 && |elem| == size && At(base, size, k) + size <= |m|
    ensures Slot(Splice(m, At(base, size, k), elem), base, size, j) == if j == k then elem else Slot(m, base, size, j)
  {
    if j < k {
      AtMonotone(base, size, j, k);
    } else if k < j {
      AtMonotone(base, size, k, j);
    }
    if j != k && At(base, size, j) + size <= |m| {
      SpliceFrame(m, At(base, size, k), elem, At(base, size, j), At(base, size, j) + size);
    }
  }

  /** Storing into a live slot updates it; storing just past the live slots appends. */
  lemma StoreHolds(m: seq<Byte>, base: nat, size: nat, vals: seq<int>, k: nat, v: int)
    requires Holds(m, base, size, vals) && k <= |vals|
    requires size > 0 && At(base, size, k) + size <= |m|
    ensures Holds(Splice(m, At(base, size, k), Encode(v, size)), base, size, Stored(vals, k, v))
  {
    var m', vals' := Splice(m, At(base, size, k), Encode(v, size)), Stored(vals, k, v);
    forall j | 0 <= j < |vals'|
      ensures Slot(m', base, size, j) == Encode(vals'[j], size)
    {
      StoreSlot(m, base, size, k, Encode(v, size), j);
    }
  }

  /** Copying at least the live slots of an array carries its contents over. */
  lemma CopyHolds(m: seq<Byte>, base: nat, src: seq<Byte>, srcBase: nat, size: nat, vals: seq<int>, slots: nat)
    requires Holds(src, srcBase, size, vals) && |vals| <= slots
    requires At(srcBase, size, slots) <= |src| && At(base, size, slots) <= |m|
    ensures At(srcBase, size, slots) - srcBase == slots * size
    ensures Holds(Splice(m, base, src[srcBase..At(srcBase, size, slots)]), base, size, vals)
  {
    var bytes := src[srcBase..At(srcBase, size, slots)];
    var m' := Splice(m, base, bytes);
    forall k | 0 <= k < |vals|
      ensures Slot(m', base, size, k) == Encode(vals[k], size)
    {
      AtMonotone(base, size, k, slots);
      AtMonotone(srcBase, size, k, slots);
      CopiedSlice(m, base, bytes, k * size, size);
      SliceOfSlice(src, srcBase, At(srcBase, size, slots), At(srcBase, size, k), At(srcBase, size, k) + size);
      assert Slot(src, srcBase, size, k) == Encode(vals[k], size);
    }
  }

  lemma CopiedSlice(m: seq<Byte>, at: nat, b: seq<Byte>, from: nat, n: nat)
    requires at + |b| <= |m| && from + n <= |b|
    ensures Splice(m, at, b)[at + from..at + from + n] == b[from..from + n]
  {
    var m' := Splice(m, at, b);
    assert m'[at..at + |b|] == b;
    SliceOfSlice(m', at, at + |b|, at + from, at + from + n);
  }

  /** A zeroed array represents zeros. */
  lemma ZeroHolds(m: seq<Byte>, base: nat, size: nat, n: nat)
    requires At(base, size, n) <= |m|
    requires forall i :: base <= i < At(base, size, n) ==> m[i] == Zero
    ensures Holds(m, base, size, seq(n, _ => 0))
  {
    var zeros := seq(n, _ => 0);
    forall k | 0 <= k < n
      ensures Slot(m, base, size, k) == Encode(zeros[k], size)
    {
      AtMonotone(base, size, k, n);
    }
  }

  /** `memcpy` between blocks, or into a block from a saved copy. */
  lemma SpliceOneMore(m: seq<Byte>, at: nat, src: seq<Byte>, i: nat)
    requires i < |src| && at + |src| <= |m|
    ensures Splice(m, at, src[..i])[at + i := src[i]] == Splice(m, at, src[..i + 1])
  {
    var a, b := Splice(m, at, src[..i])[at + i := src[i]], Splice(m, at, src[..i + 1]);
    forall k | 0 <= k < |m| ensures a[k] == b[k] {
    }
  }

  lemma SpliceNothing(m: seq<Byte>, at: nat)
    requires at <= |m|
    ensures Splice(m, at, []) == m
  {
  }

  method MemCpy(dst: array<Byte>, at: nat, src: seq<Byte>)
    requires at + |src| <= dst.Length
    modifies dst
    ensures dst[..] == Splice(old(dst[..]), at, src)
  {
    ghost var before := dst[..];
    SpliceNothing(before, at);
    assert src[..0] == [] && src[..|src|] == src;
    hide Splice;
    for i := 0 to |src|
      invariant dst[..] == Splice(before, at, src[..i])
    {
      SpliceOneMore(before, at, src, i);
      dst[at + i] := src[i];
    }
  }
}
