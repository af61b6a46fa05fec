/** A circular buffer read as a queue; one slot stays empty to tell full from empty. */
module RingQueue {
  /** Elements from tail up to head, oldest first. */
  ghost function Queue<T>(buf: seq<T>, head: nat, tail: nat): seq<T>
    requires head < |buf| && tail < |buf|
  {
    if tail <= head then buf[tail..head] else buf[tail..] + buf[..head]
  }

  lemma Wrap(i: nat, n: nat)
    requires i < n
    ensures (i + 1) % n == if i + 1 == n then 0 else i + 1
  {}

  lemma Pushed<T>(buf: seq<T>, head: nat, tail: nat, x: T)
    requires head < |buf| && tail < |buf| && (head + 1) % |buf| != tail
    ensures Queue(buf[head := x], (head + 1) % |buf|, tail) == Queue(buf, head, tail) + [x]
  {
    Wrap(head, |buf|);
    var q, q' := Queue(buf, head, tail), Queue(buf[head := x], (head + 1) % |buf|, tail);
    assert |q'| == |q| + 1;
    forall i | 0 <= i < |q'|
      ensures q'[i] == (q + [x])[i]
    {}
  }

  lemma Popped<T>(buf: seq<T>, head: nat, tail: nat)
    requires head < |buf| && tail < |buf| && head != tail
    ensures Queue(buf, head, tail) == [buf[tail]] + Queue(buf, head, (tail + 1) % |buf|)
  {
    Wrap(tail, |buf|);
    var q, q' := Queue(buf, head, tail), Queue(buf, head, (tail + 1) % |buf|);
    assert |q| == |q'| + 1;
    forall i | 0 <= i < |q|
      ensures q[i] == ([buf[tail]] + q')[i]
    {}
  }

  lemma ModOnce(x: nat, n: nat)
    requires 0 < n <= x < 2 * n
    ensures x % n == x - n
  {
    assert x == n * 1 + (x - n);
  }

  /** How many are in it, as the code computes it. */
  lemma Occupied<T>(buf: seq<T>, head: nat, tail: nat)
    requires head < |buf| && tail < |buf|
    ensures (head - tail + |buf|) % |buf| == |Queue(buf, head, tail)| < |buf|
  {
    if tail <= head { ModOnce(head - tail + |buf|, |buf|); }
  }

  /** Full and empty, as the code tests for them. */
  lemma FullEmpty<T>(buf: seq<T>, head: nat, tail: nat)
    requires head < |buf| && tail < |buf|
    ensures (head + 1) % |buf| == tail <==> |Queue(buf, head, tail)| == |buf| - 1
    ensures head == tail <==> Queue(buf, head, tail) == []
  {
    Wrap(head, |buf|);
  }

  /** A byte ring in a fixed array; the copy loops of pipes and sockets. */
  class Ring<T> {
    const buf: array<T>
    var head: nat  // next write
    var tail: nat  // next read

    ghost predicate Valid()
      reads this
    {
      head < buf.Length && tail < buf.Length
    }

    ghost function Bytes(): seq<T>
      requires Valid()
      reads this, buf
    {
      Queue(buf[..], head, tail)
    }

    constructor (buf: array<T>)
      requires buf.Length > 0
      ensures Valid() && Bytes() == [] && this.buf == buf
    {
      this.buf, head, tail := buf, 0, 0;
    }

    /** Append as much of p as there is room for, no less. */
    method Put(p: seq<T>) returns (put: nat)
      requires Valid()
      modifies `head, buf
      ensures Valid() && |old(Bytes())| < buf.Length
      ensures var room := buf.Length - 1 - |old(Bytes())|; put == if |p| <= room then |p| else room
      ensures Bytes() == old(Bytes()) + p[..put]
    {
      hide Queue;
      put := 0;
      Occupied(buf[..], head, tail);
      while put < |p|
        invariant Valid() && put <= |p| && Bytes() == old(Bytes()) + p[..put] && |Bytes()| < buf.Length
      {
        var next := (head + 1) % buf.Length;
        FullEmpty(buf[..], head, tail);
        if next == tail { break; }
        Pushed(buf[..], head, tail, p[put]);
        buf[head] := p[put];
        head := next;
        put := put + 1;
        Occupied(buf[..], head, tail);
      }
    }

    /** Take up to len off the front. */
    method Drain(len: nat) returns (got: seq<T>)
      requires Valid()
      modifies `tail
      ensures Valid() && got + Bytes() == old(Bytes())
      ensures |got| == if len <= |old(Bytes())| then len else |old(Bytes())|
    {
      hide Queue;
      got := [];
      FullEmpty(buf[..], head, tail);
      while |got| < len && tail != head
        invariant Valid() && got + Bytes() == old(Bytes()) && |got| <= len
        invariant tail == head ==> Bytes() == []
        decreases |Bytes()|
      {
        Popped(buf[..], head, tail);
        got := got + [buf[tail]];
        tail := (tail + 1) % buf.Length;
        FullEmpty(buf[..], head, tail);
      }
    }
  }
}
