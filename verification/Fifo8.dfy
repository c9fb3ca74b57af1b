/** The byte ring under the UART (src/device/fifo8.cpp): a circular buffer that behaves as a
    bounded queue. */
module Fifos {
  class Fifo8<T(0)> {
    const data: array<T>
    var head: nat
    var num: nat

    ghost predicate Valid()
      reads this
    {
      0 < data.Length && head < data.Length && num <= data.Length
    }

    ghost function Contents(): (s: seq<T>)
      requires Valid()
      reads this, data
      ensures |s| == num
    {
      seq(num, i requires 0 <= i < num && Valid() reads this, data => data[Slot(head, i, data.Length)])
    }

    constructor (capacity: nat)
      requires 0 < capacity
      ensures Valid() && fresh(data) && data.Length == capacity && Contents() == []
    {
      data := new T[capacity];
      head, num := 0, 0;
    }

    method Push(x: T)
      requires Valid() && num < data.Length
      modifies this, data
      ensures Valid() && Contents() == old(Contents()) + [x]
    {
      var i := (head + num) % data.Length;
      SlotIsMod(head, num, data.Length);
      data[i] := x;
      num := num + 1;
      assert forall j :: 0 <= j < num - 1 ==> Slot(head, j, data.Length) != i;
      assert Contents()[..num - 1] == old(Contents());
    }

    /** memcpy in one or two pieces. */
    method CopyIn(start: nat, xs: seq<T>)
      requires start < data.Length && |xs| <= data.Length
      modifies data
      ensures forall j :: 0 <= j < |xs| ==> data[Slot(start, j, data.Length)] == xs[j]
      ensures forall j :: |xs| <= j < data.Length ==>
        data[Slot(start, j, data.Length)] == old(data[Slot(start, j, data.Length)])
    {
      if start + |xs| <= data.Length {
        forall i | 0 <= i < |xs| { data[start + i] := xs[i]; }
      } else {
        var avail := data.Length - start;
        forall i | 0 <= i < avail { data[start + i] := xs[i]; }
        forall i | avail <= i < |xs| { data[i - avail] := xs[i]; }
      }
    }

    method PushAll(xs: seq<T>)
      requires Valid() && num + |xs| <= data.Length
      modifies this, data
      ensures Valid() && Contents() == old(Contents()) + xs
    {
      var start := (head + num) % data.Length;
      SlotIsMod(head, num, data.Length);
      CopyIn(start, xs);
      num := num + |xs|;
      forall j | 0 <= j < |xs| ensures Contents()[old(num) + j] == xs[j] {
        SlotSum(head, old(num), j, data.Length);
      }
      forall j | 0 <= j < old(num) ensures Contents()[j] == old(Contents())[j] {
        SlotBehind(head, old(num), j, data.Length);
      }
    }

    method Pop() returns (x: T)
      requires Valid() && 0 < num
      modifies this
      ensures Valid() && [x] + Contents() == old(Contents())
    {
      x := data[head];
      Advance(1);
      assert x == old(Contents())[0];
    }

    /** head moves past the first n elements. */
    method Advance(n: nat)
      requires Valid() && n <= num
      modifies this
      ensures Valid() && Contents() == old(Contents())[n..]
    {
      SlotIsMod(head, n, data.Length);
      head := (head + n) % data.Length;
      num := num - n;
      forall i | 0 <= i < num ensures Contents()[i] == old(Contents())[n + i] {
        SlotSum(old(head), n, i, data.Length);
      }
    }

    /** The longest run in one piece, at most `max` long. */
    method PopBuf(max: nat) returns (xs: seq<T>)
      requires Valid() && 0 < max <= num
      modifies this
      ensures Valid() && xs + Contents() == old(Contents())
      ensures |xs| == if data.Length - old(head) < max then data.Length - old(head) else max
    {
      var n := if data.Length - head < max then data.Length - head else max;
      xs := data[head..head + n];
      assert xs == old(Contents())[..n];
      Advance(n);
    }

    method Reset()
      requires Valid()
      modifies this
      ensures Valid() && Contents() == []
    {
      num := 0;
      head := 0;
    }
  }

  /** Where the i-th element is in a ring of n. */
  function Slot(head: nat, i: nat, n: nat): (s: nat)
    requires head < n && i <= n
    ensures s < n
  {
    if head + i < n then head + i else head + i - n
  }

  lemma SlotIsMod(head: nat, i: nat, n: nat)
    requires head < n && i <= n
    ensures Slot(head, i, n) == (head + i) % n
  {
    WrapOnce(head + i, n);
  }

  lemma WrapOnce(x: nat, n: nat)
    requires 0 < n && x < 2 * n
    ensures x % n == if x < n then x else x - n
  {}

  lemma SlotSum(head: nat, i: nat, j: nat, n: nat)
    requires head < n && i + j <= n
    ensures Slot(Slot(head, i, n), j, n) == Slot(head, i + j, n)
  {}

  /** Seen from the end, the elements before it come round again. */
  lemma SlotBehind(head: nat, i: nat, j: nat, n: nat)
    requires head < n && j < i <= n
    ensures Slot(Slot(head, i, n), n - i + j, n) == Slot(head, j, n)
  {}
}
