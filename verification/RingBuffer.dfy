// The RingBuffer of lib/pg.js: 65536 slots and two 16-bit indices that wrap.
module RingBuffer {
  import opened Prelude

  const CAPACITY := 65536

  // Incrementing or offsetting a 16-bit index.
  function Wrap(i: nat): nat
    requires i < 2 * CAPACITY
  {
    if i >= CAPACITY then i - CAPACITY else i
  }

  // Pushing to a queue that drops its oldest element when it is full.
  function PushTo<T>(queue: seq<T>, x: T): (r: seq<T>)
    requires |queue| <= CAPACITY
    ensures |r| <= CAPACITY
  {
    (if |queue| == CAPACITY then queue[1..] else queue) + [x]
  }

  // The slot of the i-th element from the head.
  function Slot(head: nat, i: nat): nat
    requires head < CAPACITY && i <= CAPACITY
  {
    Wrap(head + i)
  }

  class RingBuffer<T> {
    ghost var contents: seq<T>  // what is in the queue, oldest first

    const rb: array<Option<T>>
    var head: nat
    var tail: nat
    var length: int

    ghost predicate Valid()
      reads this, rb
    {
      && rb.Length == CAPACITY && head < CAPACITY && tail < CAPACITY
      && length == |contents| <= CAPACITY
      && tail == Slot(head, |contents|)
      && forall i :: 0 <= i < |contents| ==> rb[Slot(head, i)] == Some(contents[i])
    }

    constructor ()
      ensures Valid() && contents == [] && fresh(rb)
    {
      rb := new Option<T>[CAPACITY](_ => None);
      head, tail, length := 0, 0, 0;
      contents := [];
    }

    method Push(x: T)
      requires Valid()
      modifies this, rb
      ensures Valid() && contents == PushTo(old(contents), x)
    {
      if length == CAPACITY {
        var _ := Shift();
      }
      rb[tail] := Some(x);
      tail := Wrap(tail + 1);
      length := length + 1;
      contents := contents + [x];
    }

    // The oldest element. Shifting an empty buffer is not guarded against: it
    // gives a stale slot and leaves the length at -1.
    method Shift() returns (x: Option<T>)
      requires Valid()
      modifies this
      ensures old(contents) != [] ==> Valid() && x == Some(old(contents)[0]) && contents == old(contents)[1..]
      ensures x == old(rb[head])
      ensures old(contents) == [] ==> length == -1 && !Valid()
    {
      ghost var before := head;
      length := length - 1;
      x := rb[head];
      head := Wrap(head + 1);
      if contents != [] {
        assert x == rb[Slot(before, 0)];
        forall i | 0 <= i < |contents| - 1 ensures rb[Slot(head, i)] == Some(contents[i + 1]) {
          assert Slot(head, i) == Slot(before, i + 1);
        }
        contents := contents[1..];
      }
    }
  }
}
