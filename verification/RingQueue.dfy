/** The shared objects of the server: a bounded ring queue and an auto-reset trigger. Every method is
    one pass through its lock; the blocking forms of the source repeat the pass until it succeeds. */
module RingQueue {

  /** The elements from index `f` up to, not including, `r`, going round the end of `s`. */
  function Ring<T>(s: seq<T>, f: nat, r: nat): seq<T>
    requires f < |s| && r < |s|
  {
    if f <= r then s[f..r] else s[f..] + s[..r]
  }

  function Wrap(i: nat, size: nat): nat
    requires size > 0
  {
    (i + 1) % size
  }

  lemma WrapValue(i: nat, size: nat)
    requires i < size
    ensures Wrap(i, size) == if i + 1 == size then 0 else i + 1
  {
    if i + 1 < size { SmallMod(i + 1, size); } else { MultipleMod(0, size); }
  }

  lemma SmallMod(i: nat, size: nat)
    requires i < size
    ensures i % size == i
  {
  }

  lemma MultipleMod(i: nat, size: nat)
    requires i < size
    ensures (i + size) % size == i
  {
  }

  /** The size formula counts the elements; one slot always stays empty. */
  lemma RingLength<T>(s: seq<T>, f: nat, r: nat)
    requires f < |s| && r < |s|
    ensures |Ring(s, f, r)| == (r - f + |s|) % |s| < |s|
    ensures Wrap(r, |s|) == f <==> |Ring(s, f, r)| == |s| - 1
    ensures f == r <==> Ring(s, f, r) == []
  {
    hide Wrap;
    WrapValue(r, |s|);
    if f <= r { MultipleMod(r - f, |s|); } else { SmallMod(r - f + |s|, |s|); }
  }

  /** Writing at the rear appends, unless the ring is full. */
  lemma RingPush<T>(s: seq<T>, f: nat, r: nat, x: T)
    requires f < |s| && r < |s| && Wrap(r, |s|) != f
    ensures Ring(s[r := x], f, Wrap(r, |s|)) == Ring(s, f, r) + [x]
  {
    hide Wrap;
    WrapValue(r, |s|);
    var t := s[r := x];
    if r + 1 == |s| {
      assert t[f..] + t[..0] == s[f..r] + [x];
    } else if f <= r {
      assert t[f..r + 1] == s[f..r] + [x];
    } else {
      assert t[f..] == s[f..] && t[..r + 1] == s[..r] + [x];
      assert t[f..] + t[..r + 1] == s[f..] + s[..r] + [x];
    }
  }

  /** Stepping the front removes the oldest element. */
  lemma RingPop<T>(s: seq<T>, f: nat, r: nat)
    requires f < |s| && r < |s| && f != r
    ensures Ring(s, f, r) == [s[f]] + Ring(s, Wrap(f, |s|), r)
  {
    hide Wrap;
    WrapValue(f, |s|);
    if f + 1 == |s| {
      assert s[f..] + s[..r] == [s[f]] + s[0..r];
    } else if f < r {
      assert s[f..r] == [s[f]] + s[f + 1..r];
    } else {
      assert s[f..] == [s[f]] + s[f + 1..];
      assert s[f..] + s[..r] == [s[f]] + (s[f + 1..] + s[..r]);
    }
  }

  class QQueue<T(0)> {
    var queue: array<T>
    var maxSize: int
    var front: int
    var rear: int

    ghost predicate Valid()
      reads this
    {
      maxSize == queue.Length >= 1 && 0 <= front < maxSize && 0 <= rear < maxSize
    }

    /** Front to rear. */
    ghost function Contents(): seq<T>
      requires Valid()
      reads this, queue
    {
      Ring(queue[..], front, rear)
    }

    ghost function Capacity(): nat
      requires Valid()
      reads this
    {
      maxSize - 1
    }

    constructor ()
      ensures fresh(queue) && maxSize == 0
    {
      queue := new T[0];
      maxSize, front, rear := 0, 0, 0;
    }

    /** `memoryLeft` says whether the slots can be had; without them the queue has its size but no slot. */
    method Init(size: int, memoryLeft: bool) returns (code: int)
      modifies this
      ensures size <= 0 ==> code == -1 && unchanged(this)
      ensures size > 0 && !memoryLeft ==> code == -2 && maxSize == size && queue.Length == 0
      ensures size > 0 && !memoryLeft ==> unchanged(`front) && unchanged(`rear)
      ensures size > 0 && memoryLeft ==>
        code == 0 && fresh(queue) && Valid() && Contents() == [] && Capacity() == size - 1
    {
      if size <= 0 { return -1; }
      maxSize := size;
      if !memoryLeft {
        queue := new T[0];
        return -2;
      }
      queue := new T[size];
      front, rear := 0, 0;
      code := 0;
    }

    method Clear()
      requires Valid()
      modifies this`front, this`rear
      ensures Valid() && Contents() == []
    {
      front, rear := 0, 0;
    }

    method Size() returns (n: int)
      requires Valid()
      ensures n == |Contents()| <= Capacity()
    {
      RingLength(queue[..], front, rear);
      n := (rear - front + maxSize) % maxSize;
    }

    method Full() returns (b: bool)
      requires Valid()
      ensures b <==> |Contents()| == Capacity()
    {
      RingLength(queue[..], front, rear);
      b := (rear + 1) % maxSize == front;
    }

    method Empty() returns (b: bool)
      requires Valid()
      ensures b <==> Contents() == []
    {
      RingLength(queue[..], front, rear);
      b := front == rear;
    }

    method PushNonBlocking(item: T) returns (code: int)
      requires Valid()
      modifies this`rear, queue
      ensures Valid()
      ensures |old(Contents())| == Capacity() ==> code == -1 && Contents() == old(Contents())
      ensures |old(Contents())| < Capacity() ==> code == 0 && Contents() == old(Contents()) + [item]
    {
      RingLength(queue[..], front, rear);
      var full := Full();
      if full { return -1; }
      RingPush(queue[..], front, rear, item);
      ghost var before := queue[..];
      queue[rear] := item;
      assert queue[..] == before[rear := item];
      rear := (rear + 1) % maxSize;
      code := 0;
    }

    method PopNonBlocking() returns (code: int, item: T)
      requires Valid()
      modifies this`front
      ensures Valid()
      ensures old(Contents()) == [] ==> code == -1 && Contents() == []
      ensures old(Contents()) != [] ==> code == 0 && old(Contents()) == [item] + Contents()
    {
      item := queue[front];
      var empty := Empty();
      if empty { return -1, item; }
      RingPop(queue[..], front, rear);
      front := (front + 1) % maxSize;
      code := 0;
    }
  }

  class QTrigger {
    const autoreset: bool
    var state: bool

    constructor (autoreset: bool, state: bool)
      ensures this.autoreset == autoreset && this.state == state
    {
      this.autoreset, this.state := autoreset, state;
    }

    method Signal()
      modifies this`state
      ensures state
    {
      state := true;
    }

    /** One look at the state under the lock: a waiter passes only if it is set, and consumes it. */
    method Wait() returns (passed: bool)
      modifies this`state
      ensures passed == old(state)
      ensures state == (old(state) && !autoreset)
    {
      passed := state;
      if passed && autoreset { state := false; }
    }
  }
}
