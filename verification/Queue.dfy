/** The ring buffer of src/queue.c. Its unsynchronised operations refine a sequence. */
module Queue {
  class Queue<T> {
    var front: nat
    var rear: nat
    var counter: nat
    const buffer: array<T>
    const zero: T   // the bytes memset leaves in a vacated place

    ghost predicate Valid()
      reads this, buffer
    {
      && counter <= buffer.Length
      && (buffer.Length > 0 ==> front < buffer.Length && rear == Place(front, counter, buffer.Length))
    }

    /** The items in the order they will leave. */
    ghost function Contents(): (s: seq<T>)
      requires Valid()
      reads this, buffer
      ensures |s| == counter
    {
      seq(counter, i requires 0 <= i < counter && Valid() reads this, buffer => buffer[Place(front, i, buffer.Length)])
    }

    constructor (bufSz: nat, zero: T)
      ensures Valid() && Contents() == [] && fresh(buffer) && buffer.Length == bufSz
    {
      this.zero := zero;
      buffer := new T[bufSz](_ => zero);
      front, rear, counter := 0, 0, 0;
    }

    predicate IsEmpty()
      requires Valid()
      reads this, buffer
      ensures IsEmpty() <==> Contents() == []
    {
      counter <= 0
    }

    predicate IsFull()
      requires Valid()
      reads this, buffer
      ensures IsFull() <==> |Contents()| == buffer.Length
    {
      counter == buffer.Length
    }

    method Enqueue(item: T)
      requires Valid() && !IsFull()
      modifies this, buffer
      ensures Valid() && Contents() == old(Contents()) + [item]
    {
      var n := buffer.Length;
      assert forall i: nat :: i < counter ==> Place(front, i, n) != rear;
      counter := counter + 1;
      buffer[rear] := item;
      PlaceIsRemainder(rear, 1, n);
      rear := (rear + 1) % n;
    }

    method Dequeue() returns (item: T)
      requires Valid() && !IsEmpty()
      modifies this, buffer
      ensures Valid() && [item] + Contents() == old(Contents())
    {
      var n := buffer.Length;
      PlaceIsRemainder(front, 1, n);
      var next := (front + 1) % n;
      assert forall i: nat :: i < counter ==> Place(next, i, n) == Place(front, i + 1, n);
      counter := counter - 1;
      item := buffer[front];
      buffer[front] := zero;
      front := next;
    }

    /** queue_enqueue without synchronisation: refuses an item when full. */
    method QueueEnqueue(item: T) returns (ok: bool)
      requires Valid()
      modifies this, buffer
      ensures Valid() && ok == (|old(Contents())| < buffer.Length)
      ensures Contents() == if ok then old(Contents()) + [item] else old(Contents())
    {
      ok := !IsFull();
      if ok { Enqueue(item); }
    }

    /** queue_dequeue without synchronisation: leaves the caller's item alone when empty. */
    method QueueDequeue(item: T) returns (ok: bool, out: T)
      requires Valid()
      modifies this, buffer
      ensures Valid() && ok == (old(Contents()) != [])
      ensures if ok then [out] + Contents() == old(Contents()) else out == item && Contents() == old(Contents())
    {
      ok, out := !IsEmpty(), item;
      if ok { out := Dequeue(); }
    }
  }

  /** The place i items behind the front. */
  function Place(front: nat, i: nat, n: nat): (r: nat)
    requires front < n && i <= n
    ensures r < n
  {
    if front + i < n then front + i else front + i - n
  }

  /** The code computes it as a remainder. */
  lemma PlaceIsRemainder(front: nat, i: nat, n: nat)
    requires front < n && i <= n
    ensures Place(front, i, n) == (front + i) % n
  {
    var x, q := front + i, (front + i) / n;
    assert x == q * n + x % n;
    assert q >= 2 ==> q * n >= 2 * n;
    assert q <= 0 ==> q * n <= 0;
  }
}
