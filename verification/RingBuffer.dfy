/**
 The ring buffer: a double-ended queue of bounded length in an array used as a circle.
 */
module RingBuffer {

  /** Position of the i-th item counted from head. */
  function Wrapped(head: nat, i: nat, capacity: nat): (p: nat)
    requires i <= capacity && head <= capacity
    ensures head < capacity && i < capacity ==> p < capacity
  {
    if head + i >= capacity then head + i - capacity else head + i
  }

  class NetRingBuffer<T(==)> {
    const buf: array<T>
    const capacity: nat
    var count: nat
    var head: nat
    var tail: nat
    var interrupt: bool

    ghost predicate Valid()
      reads this
    {
      && buf.Length == capacity && count <= capacity
      && (if capacity == 0 then head == 0 else head < capacity)
      && tail == (if capacity == 0 then 0 else Wrapped(head, count, capacity))
    }

    /** The items from the front to the back. */
    ghost function Items(): (s: seq<T>)
      requires Valid()
      reads this, buf
      ensures |s| == count
    {
      seq(count, i requires 0 <= i < count reads this, buf requires Valid() => buf[Wrapped(head, i, capacity)])
    }

    constructor (capacity: nat, fill: T)
      ensures Valid() && Items() == [] && this.capacity == capacity && !interrupt && fresh(buf)
    {
      this.capacity := capacity;
      buf := new T[capacity](_ => fill);
      count, head, tail, interrupt := 0, 0, 0, false;
    }

    /** Append an item; it fails exactly if the buffer is full. */
    method PushBack(item: T) returns (ok: bool)
      requires Valid()
      modifies this`count, this`tail, buf
      ensures Valid() && (ok <==> |old(Items())| < capacity)
      ensures Items() == if ok then old(Items()) + [item] else old(Items())
    {
      if capacity <= count {
        return false;
      }
      buf[tail] := item;
      if tail != capacity - 1 {
        tail := tail + 1;
      } else {
        tail := 0;
      }
      count := count + 1;
      ok := true;
    }

    /** Append an item unless the buffer is full or was interrupted. */
    method InterruptablePushBack(item: T) returns (ok: bool, isInterrupted: bool)
      requires Valid()
      modifies this`count, this`tail, buf
      ensures Valid() && (ok <==> |old(Items())| < capacity && !interrupt)
      ensures isInterrupted <==> |old(Items())| < capacity && interrupt
      ensures Items() == if ok then old(Items()) + [item] else old(Items())
    {
      if capacity <= count {
        return false, false;
      }
      if interrupt {
        return false, true;
      }
      buf[tail] := item;
      if tail != capacity - 1 {
        tail := tail + 1;
      } else {
        tail := 0;
      }
      count := count + 1;
      return true, false;
    }

    /** Put an item in front; it fails exactly if the buffer is full. */
    method PushFront(item: T) returns (ok: bool)
      requires Valid()
      modifies this`count, this`head, buf
      ensures Valid() && (ok <==> |old(Items())| < capacity)
      ensures Items() == if ok then [item] + old(Items()) else old(Items())
    {
      if capacity <= count {
        return false;
      }
      if head == 0 {
        head := capacity - 1;
      } else {
        head := head - 1;
      }
      buf[head] := item;
      count := count + 1;
      ok := true;
    }

    /** Take the item in front; it fails exactly if there is none. */
    method PopFront(fallback: T) returns (ok: bool, item: T)
      requires Valid()
      modifies this`count, this`head
      ensures Valid() && (ok <==> old(Items()) != [])
      ensures ok ==> [item] + Items() == old(Items())
      ensures !ok ==> Items() == old(Items())
    {
      if count == 0 {
        return false, fallback;
      }
      item := buf[head];
      if head != capacity - 1 {
        head := head + 1;
      } else {
        head := 0;
      }
      count := count - 1;
      ok := true;
    }

    /** Look at the item in front. */
    method GetFront(fallback: T) returns (ok: bool, item: T)
      requires Valid()
      ensures ok <==> Items() != []
      ensures ok ==> item == Items()[0]
    {
      if count == 0 {
        return false, fallback;
      }
      return true, buf[head];
    }

    /** Take the first n items at once; it fails exactly if there are fewer. */
    method PopFrontN(n: nat) returns (ok: bool, items: seq<T>)
      requires Valid()
      modifies this`count, this`head
      ensures Valid() && (ok <==> n <= |old(Items())|)
      ensures ok ==> |items| == n && items + Items() == old(Items())
      ensures !ok ==> Items() == old(Items())
    {
      items := [];
      if count < n {
        return false, items;
      }
      ghost var head0 := head;
      for i := 0 to n
        invariant |items| == i && count == old(count) && buf[..] == old(buf[..])
        invariant if capacity == 0 then head == 0 else head == Wrapped(head0, i, capacity) && head < capacity
        invariant items == old(Items())[..i]
      {
        items := items + [buf[head]];
        if head != capacity - 1 {
          head := head + 1;
        } else {
          head := 0;
        }
      }
      count := count - n;
      ok := true;
      assert Items() == old(Items())[n..];
    }

    method Interrupt()
      requires Valid()
      modifies this`interrupt
      ensures Valid() && interrupt && Items() == old(Items())
    {
      interrupt := true;
    }
  }
}
