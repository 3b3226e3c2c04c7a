/** The ring buffer that keeps a flow's recent elements.

    Elements are untyped: strings of `elemSize` bytes copied in and out of a data area that the ring
    borrows from a larger block, starting at `base`. */
module CircularBuffers {
  import opened BitMask
  import opened Memory

  /** `x % capacity` for an index that ran past the end at most once. */
  function Wrap(x: nat, capacity: nat): (i: nat)
    requires 0 < capacity && x < 2 * capacity
    ensures i == if x < capacity then x else x - capacity
  {
    DivModUnique(x, capacity, if x < capacity then 0 else 1, if x < capacity then x else x - capacity);
    x % capacity
  }

  /** Slot that holds the `i`-th oldest element. */
  function Index(i: nat, capacity: nat, tail: nat, isFull: bool): nat
    requires i < capacity && tail < capacity
  {
    if isFull then Wrap(tail + i, capacity) else i
  }

  /** The ring's elements, oldest first. */
  function View(m: seq<Byte>, base: nat, elemSize: nat, capacity: nat, count: nat, tail: nat, isFull: bool): (v: seq<seq<Byte>>)
    requires count <= capacity && tail < capacity
    ensures |v| == count
  {
    seq(count, (i: nat) requires i < count => Slot(m, base, elemSize, Index(i, capacity, tail, isFull)))
  }

  /** What pushing does to a bounded history: the oldest element makes room once it is full. */
  function Pushed<T>(v: seq<T>, capacity: nat, x: T): seq<T>
  {
    if |v| < capacity || |v| == 0 then v + [x] else v[1..] + [x]
  }

  class CircularBuffer {
    var data: array?<Byte>
    var base: nat
    var elemSize: nat
    var capacity: nat
    var count: nat
    var head: nat
    var tail: nat
    var isFull: bool

    /** How the indices relate. */
    ghost predicate Shape()
      reads this
    {
      && capacity > 0 && elemSize > 0
      && count <= capacity && head < capacity && tail < capacity
      && (isFull <==> count == capacity)
      && (if isFull then head == tail else tail == 0 && head == count)
    }

    /** The indices are consistent and the data area lies within the block. */
    ghost predicate Valid()
      reads this
    {
      Shape() && data != null && At(base, elemSize, capacity) <= data.Length
    }

    ghost function Contents(): (v: seq<seq<Byte>>)
      requires Valid()
      reads this, data
      ensures |v| == count
    {
      View(data[..], base, elemSize, capacity, count, tail, isFull)
    }

    /** The checks every operation makes first. */
    predicate Usable()
      reads this
    {
      data != null && capacity != 0 && elemSize != 0 && count <= capacity
    }

    constructor ()
      ensures data == null && base == elemSize == capacity == count == head == tail == 0 && !isFull
    {
      data := null;
      base, elemSize, capacity, count, head, tail, isFull := 0, 0, 0, 0, 0, 0, false;
    }

    /** Attaches the ring, empty, to a data area. */
    method Bind(block: array<Byte>, at: nat, slots: nat, size: nat)
      requires slots > 0 && size > 0 && At(at, size, slots) <= block.Length
      modifies this
      ensures Valid() && data == block && base == at && capacity == slots && elemSize == size
      ensures count == 0 && head == 0 && !isFull
    {
      data, base, elemSize, capacity := block, at, size, slots;
      count, head, tail, isFull := 0, 0, 0, false;
    }

    /** Fills a freshly bound ring with saved elements. */
    method Restore(bytes: seq<Byte>, n: nat)
      requires Valid() && count == 0 && n <= capacity && |bytes| == At(0, elemSize, n)
      modifies this`count, this`head, this`tail, this`isFull, data
      ensures Valid() && count == n && tail == 0
      ensures base + |bytes| <= data.Length && data[..] == Splice(old(data[..]), base, bytes)
    {
      if n < capacity {
        AtMonotone(base, elemSize, n, capacity);
      }
      MemCpy(data, base, bytes);
      count := n;
      tail := 0;
      head := Wrap(n, capacity);
      isFull := n == capacity;
    }

    /** Appends an element, dropping the oldest one when the ring is full.  Only the bytes of the
        written slot change. */
    method Push(elem: seq<Byte>) returns (rc: int)
      requires Usable() ==> Valid() && |elem| == elemSize
      modifies this, data
      ensures rc == if old(Usable()) then 0 else -1
      ensures rc != 0 ==> unchanged(this) && (data != null ==> data[..] == old(data[..]))
      ensures data == old(data) && base == old(base) && elemSize == old(elemSize) && capacity == old(capacity)
      ensures rc == 0 ==> Valid() && Contents() == Pushed(old(Contents()), capacity, elem)
      ensures rc == 0 ==> old(At(base, elemSize, head)) + |elem| <= data.Length
      ensures rc == 0 ==> data[..] == Splice(old(data[..]), old(At(base, elemSize, head)), elem)
      ensures rc == 0 ==> count == if old(isFull) then old(count) else old(count) + 1
      ensures rc == 0 ==> old(head) < capacity && head == Wrap(old(head) + 1, capacity)
      ensures rc == 0 ==> tail == if old(isFull) then Wrap(old(tail) + 1, capacity) else 0
      ensures rc == 0 ==> isFull == (old(isFull) || old(count) + 1 == capacity)
    {
      if data == null || capacity == 0 || elemSize == 0 {
        return -1;
      }
      if count > capacity {
        return -1;
      }
      AtMonotone(base, elemSize, head, capacity);
      ghost var before := data[..];
      PushView(before, base, elemSize, capacity, count, tail, elem);
      hide View, Splice, Pushed, At, Slot, Wrap, Index;
      MemCpy(data, At(base, elemSize, head), elem);
      Advance();
      rc := 0;
    }

    /** Moves the indices past the element just written. */
    method Advance()
      requires Shape()
      modifies this`head, this`tail, this`count, this`isFull
      ensures Shape() && head == Wrap(old(head) + 1, capacity)
      ensures count == if old(isFull) then old(count) else old(count) + 1
      ensures tail == if old(isFull) then Wrap(old(tail) + 1, capacity) else 0
      ensures isFull == (old(isFull) || old(count) + 1 == capacity)
    {
      head := Wrap(head + 1, capacity);
      if isFull {
        tail := Wrap(tail + 1, capacity);
      } else {
        count := count + 1;
        if count == capacity {
          isFull := true;
        }
      }
    }

    /** Address of the `index`-th oldest element in the block, or -1. */
    method Get(index: nat) returns (at: int)
      requires Usable() ==> Valid()
      ensures at == -1 <==> !Usable() || index >= count
      ensures at != -1 ==> 0 <= at <= at + elemSize <= data.Length && data[at..at + elemSize] == Contents()[index]
    {
      if data == null || capacity == 0 || elemSize == 0 {
        return -1;
      }
      if count > capacity || index >= count {
        return -1;
      }
      var actual := if isFull then Wrap(tail + index, capacity) else index;
      AtMonotone(base, elemSize, actual, capacity);
      at := At(base, elemSize, actual);
    }

    /** Copies the elements, oldest first, into a fresh array; null when there is nothing to copy or
        the allocation fails. */
    method GetArray(mallocOk: bool) returns (arr: array?<Byte>, outCount: nat)
      requires count == 0 || data == null || elemSize == 0 || Valid()
      ensures outCount == count
      ensures arr == null <==> count == 0 || data == null || elemSize == 0 || !mallocOk
      ensures arr != null ==> fresh(arr) && arr.Length == count * elemSize
      ensures arr != null ==> forall i :: 0 <= i < count ==> Slot(arr[..], 0, elemSize, i) == Contents()[i]
    {
      outCount := count;
      if count == 0 || data == null || elemSize == 0 || !mallocOk {
        return null, outCount;
      }
      arr := new Byte[count * elemSize](_ => Zero);
      ghost var view := Contents();
      for i := 0 to count
        invariant Contents() == view
        invariant forall j :: 0 <= j < i ==> Slot(arr[..], 0, elemSize, j) == view[j]
      {
        var idx := if isFull then Wrap(tail + i, capacity) else i;
        AtMonotone(base, elemSize, idx, capacity);
        AtMonotone(0, elemSize, i, count);
        var elem := data[At(base, elemSize, idx)..At(base, elemSize, idx) + elemSize];
        CopySlot(arr, elemSize, i, elem, view);
      }
    }

    method Clear()
      modifies this
      ensures count == head == tail == 0 && !isFull
      ensures data == old(data) && base == old(base) && elemSize == old(elemSize) && capacity == old(capacity)
      ensures old(Valid()) ==> Valid() && Contents() == []
    {
      count, head, tail, isFull := 0, 0, 0, false;
    }
  }

  /** `memcpy` of one element into slot `i` of a plain array whose earlier slots are filled. */
  method CopySlot(arr: array<Byte>, size: nat, i: nat, elem: seq<Byte>, ghost view: seq<seq<Byte>>)
    requires size > 0 && |elem| == size && At(0, size, i) + size <= arr.Length
    requires i < |view| && view[i] == elem
    requires forall j :: 0 <= j < i ==> Slot(arr[..], 0, size, j) == view[j]
    modifies arr
    ensures forall j :: 0 <= j <= i ==> Slot(arr[..], 0, size, j) == view[j]
  {
    ghost var before := arr[..];
    MemCpy(arr, At(0, size, i), elem);
    forall j | 0 <= j <= i
      ensures Slot(arr[..], 0, size, j) == view[j]
    {
      StoreSlot(before, 0, size, i, elem, j);
    }
  }

  /** Writing at the head and advancing the indices is `Pushed` on the view. */
  lemma PushView(m: seq<Byte>, base: nat, size: nat, capacity: nat, count: nat, tail: nat, elem: seq<Byte>)
    requires capacity > 0 && size > 0 && |elem| == size && count <= capacity && tail < capacity
    requires count < capacity ==> tail == 0
    requires At(base, size, capacity) <= |m|
    ensures var full, head := count == capacity, if count == capacity then tail else count;
            && At(base, size, head) + size <= |m|
            && Pushed(View(m, base, size, capacity, count, tail, full), capacity, elem)
               == View(Splice(m, At(base, size, head), elem), base, size, capacity,
                       if full then count else count + 1, if full then Wrap(tail + 1, capacity) else 0,
                       full || count + 1 == capacity)
  {
    var full, head := count == capacity, if count == capacity then tail else count;
    AtMonotone(base, size, head, capacity);
    var m' := Splice(m, At(base, size, head), elem);
    var tail' := if full then Wrap(tail + 1, capacity) else 0;
    var count', full' := if full then count else count + 1, full || count + 1 == capacity;
    var v := Pushed(View(m, base, size, capacity, count, tail, full), capacity, elem);
    var v' := View(m', base, size, capacity, count', tail', full');
    forall i | 0 <= i < |v|
      ensures v[i] == v'[i]
    {
      var at := Index(i, capacity, tail', full');
      StoreSlot(m, base, size, head, elem, at);
    }
  }
}
