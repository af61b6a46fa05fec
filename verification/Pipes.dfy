/** Pipes (kernel/pipe.c:8-103). Every section run with interrupts off is one
    method, so any interleaving of readers and writers is a sequence of calls. */
module Pipes {
  import opened Machine
  import opened RingQueue

  const PIPE_SZ: nat := 512

  /** Descriptors naming each end. */
  datatype Ends = Ends(readers: nat, writers: nat) {
    function Count(writable: bool): nat { if writable then writers else readers }

    function More(writable: bool): Ends
    {
      if writable then Ends(readers, writers + 1) else Ends(readers + 1, writers)
    }

    function Less(writable: bool): Ends
      requires Count(writable) > 0
    {
      if writable then Ends(readers, writers - 1) else Ends(readers - 1, writers)
    }

    predicate Dead() { readers == 0 && writers == 0 }
  }

  /** How one pass of pipe_read ends. */
  datatype Taken = Data(bytes: seq<Byte>) | Eof | Again

  class Pipe {
    const ring: Ring<Byte>
    var ends: Ends
    ghost var written: seq<Byte>  // all bytes writers put in
    ghost var taken: seq<Byte>    // all bytes readers got out

    ghost predicate Valid()
      reads this, ring, ring.buf
    {
      ring.Valid() && ring.buf.Length == PIPE_SZ && taken + ring.Bytes() == written
    }

    constructor (buf: array<Byte>)
      requires buf.Length == PIPE_SZ
      ensures Valid() && ends == Ends(1, 1) && written == [] && taken == []
      ensures fresh(ring) && ring.buf == buf
    {
      ring := new Ring<Byte>(buf);
      ends, written, taken := Ends(1, 1), [], [];
    }

    lemma RoomLeft()
      requires Valid()
      ensures |ring.Bytes()| < PIPE_SZ
    {
      Occupied(ring.buf[..], ring.head, ring.tail);
    }

    /** A descriptor of this end is copied; whoever copies it has one. */
    method AddRef(writable: bool)
      requires Valid() && ends.Count(writable) > 0
      modifies `ends
      ensures Valid() && ends == old(ends).More(writable)
      ensures old(ends.writers) == 0 ==> ends.writers == 0
    {
      ends := ends.More(writable);
    }

    method Release(writable: bool) returns (dead: bool)
      requires Valid() && ends.Count(writable) > 0
      modifies `ends
      ensures Valid() && ends == old(ends).Less(writable) && (dead <==> ends.Dead())
      ensures old(ends.writers) == 0 ==> ends.writers == 0
    {
      ends := ends.Less(writable);
      dead := ends.readers == 0 && ends.writers == 0;
    }

    /** One pass of pipe_read by a task with the read end. */
    method ReadStep(len: nat) returns (r: Taken)
      requires Valid() && len > 0 && ends.readers > 0
      modifies `taken, ring`tail
      ensures Valid() && r.Data? == (old(ring.Bytes()) != [])
      ensures r.Data? ==> taken == old(taken) + r.bytes && r.bytes + ring.Bytes() == old(ring.Bytes())
                          && |r.bytes| == if len < |old(ring.Bytes())| then len else |old(ring.Bytes())|
      ensures !r.Data? ==> taken == old(taken)
      // End of file means nothing is left and nothing can come: every byte written has been read, no writer remains.
      ensures r.Eof? ==> taken == written && ends.writers == 0
      ensures r.Again? ==> taken == written && ends.writers > 0
    {
      hide Queue;
      ghost var was := ring.Bytes();
      var got := ring.Drain(len);
      taken := taken + got;
      assert taken + ring.Bytes() == old(taken) + was;
      var writers := ends.writers;
      if |got| > 0 { return Data(got); }
      r := if writers == 0 then Eof else Again;
    }

    /** One pass of pipe_write by a task with the write end; `done` bytes of buf went in before. */
    method WriteStep(buf: seq<Byte>, done0: nat) returns (ok: bool, done: nat)
      requires Valid() && done0 < |buf| && ends.writers > 0
      modifies `written, ring`head, ring.buf
      ensures Valid() && ok == (ends.readers > 0)
      ensures !ok ==> done == done0 && written == old(written)
      ensures done0 <= done <= |buf| && written == old(written) + buf[done0..done]
      ensures ring.Bytes() == old(ring.Bytes()) + buf[done0..done]
      // The pass stops short only on a full ring.
      ensures ok && done < |buf| ==> |ring.Bytes()| == PIPE_SZ - 1
    {
      hide Queue;
      if ends.readers == 0 { return false, done0; }
      ghost var was := ring.Bytes();
      var put := ring.Put(buf[done0..]);
      ok, done := true, done0 + put;
      assert buf[done0..][..put] == buf[done0..done];
      written := written + buf[done0..done];
      assert taken + ring.Bytes() == (taken + was) + buf[done0..done];
    }
  }

  /** What tasks holding descriptors of the pipe may do; each is one pass through the kernel. */
  datatype PipeOp = Get(len: nat) | Put(buf: seq<Byte>) | Dup(writable: bool) | Drop(writable: bool)

  /** A pipe as a plain bounded queue. */
  datatype Model = Model(ends: Ends, queue: seq<Byte>)

  /** What one operation does to it; an operation by a task without the descriptor does not happen. */
  function Next(m: Model, op: PipeOp): Model
  {
    match op
    case Get(len) => if m.ends.readers > 0 then m.(queue := m.queue[Min(len, |m.queue|)..]) else m
    case Put(buf) =>
      if m.ends.writers > 0 && m.ends.readers > 0 && |m.queue| < PIPE_SZ
      then m.(queue := m.queue + buf[..Min(|buf|, PIPE_SZ - 1 - |m.queue|)]) else m
    case Dup(w) => if m.ends.Count(w) > 0 then m.(ends := m.ends.More(w)) else m
    case Drop(w) => if m.ends.Count(w) > 0 then m.(ends := m.ends.Less(w)) else m
  }

  /** What a reader gets from it. */
  function Reads(m: Model, op: PipeOp): seq<Taken>
  {
    if !op.Get? || op.len == 0 || m.ends.readers == 0 then []
    else if m.queue != [] then [Data(m.queue[..Min(op.len, |m.queue|)])]
    else [if m.ends.writers == 0 then Eof else Again]
  }

  /** How one pass of a writer ends: so many bytes went in, or there is no reader left. */
  datatype Given = Wrote(n: nat) | Broken

  /** What a writer is told. */
  function Writes(m: Model, op: PipeOp): seq<Given>
  {
    if !op.Put? || op.buf == [] || m.ends.writers == 0 then []
    else if m.ends.readers == 0 then [Broken]
    else [Wrote(|Next(m, op).queue| - |m.queue|)]
  }

  function After(m: Model, ops: seq<PipeOp>): Model
  {
    if ops == [] then m else Next(After(m, ops[..|ops| - 1]), ops[|ops| - 1])
  }

  function AllReads(m: Model, ops: seq<PipeOp>): seq<Taken>
  {
    if ops == [] then []
    else AllReads(m, ops[..|ops| - 1]) + Reads(After(m, ops[..|ops| - 1]), ops[|ops| - 1])
  }

  function AllWrites(m: Model, ops: seq<PipeOp>): seq<Given>
  {
    if ops == [] then []
    else AllWrites(m, ops[..|ops| - 1]) + Writes(After(m, ops[..|ops| - 1]), ops[|ops| - 1])
  }

  lemma OneMore(m: Model, ops: seq<PipeOp>, k: nat)
    requires k < |ops|
    ensures AllWrites(m, ops[..k + 1]) == AllWrites(m, ops[..k]) + Writes(After(m, ops[..k]), ops[k])
    ensures After(m, ops[..k + 1]) == Next(After(m, ops[..k]), ops[k])
    ensures AllReads(m, ops[..k + 1]) == AllReads(m, ops[..k]) + Reads(After(m, ops[..k]), ops[k])
  {
    assert ops[..k + 1][..k] == ops[..k];
  }

  /** Bytes handed to readers, in order. */
  function Handed(outs: seq<Taken>): seq<Byte>
  {
    if outs == [] then []
    else Handed(outs[..|outs| - 1]) + if outs[|outs| - 1].Data? then outs[|outs| - 1].bytes else []
  }

  /** How many bytes writers were told went in. */
  function Total(ins: seq<Given>): nat
  {
    if ins == [] then 0
    else Total(ins[..|ins| - 1]) + if ins[|ins| - 1].Wrote? then ins[|ins| - 1].n else 0
  }

  lemma TotalMore(ins: seq<Given>, more: seq<Given>)
    requires |more| <= 1
    ensures Total(ins + more) == Total(ins) + if more != [] && more[0].Wrote? then more[0].n else 0
  {
    if more == [] { assert ins + more == ins; } else { assert (ins + more)[..|ins|] == ins; }
  }

  lemma Nothing()
    ensures Total([]) == 0 && Handed([]) == [] && EofStays([])
  {}

  lemma HandedMore(outs: seq<Taken>, more: seq<Taken>)
    requires |more| <= 1
    ensures Handed(outs + more) == Handed(outs) + if more != [] && more[0].Data? then more[0].bytes else []
  {
    if more == [] { assert outs + more == outs; } else { assert (outs + more)[..|outs|] == outs; }
  }

  /** Once end of file is seen, every later read sees it too. */
  ghost predicate EofStays(outs: seq<Taken>)
  {
    forall i, j :: 0 <= i < j < |outs| && outs[i].Eof? ==> outs[j].Eof?
  }

  lemma EofStaysMore(outs: seq<Taken>, r: Taken)
    requires EofStays(outs) && (Eof in outs ==> r.Eof?)
    ensures EofStays(outs + [r]) && (Eof in outs + [r] <==> Eof in outs || r.Eof?)
  {
    forall i | 0 <= i < |outs| && outs[i].Eof?
      ensures r.Eof?
    {
      assert outs[i] == Eof;
    }
  }

  /** One operation on the pipe is one operation on the queue. */
  method Perform(p: Pipe, op: PipeOp) returns (outs: seq<Taken>, ins: seq<Given>)
    requires p.Valid()
    modifies p, p.ring, p.ring.buf
    ensures p.Valid() && Model(p.ends, p.ring.Bytes()) == Next(old(Model(p.ends, p.ring.Bytes())), op)
    ensures outs == Reads(old(Model(p.ends, p.ring.Bytes())), op) && |outs| <= 1
    ensures ins == Writes(old(Model(p.ends, p.ring.Bytes())), op) && |ins| <= 1
    ensures |p.written| == |old(p.written)| + (if ins != [] && ins[0].Wrote? then ins[0].n else 0)
    ensures p.taken == old(p.taken) + (if outs != [] && outs[0].Data? then outs[0].bytes else [])
    ensures old(p.written) <= p.written
    ensures old(p.ends).writers == 0 ==> p.ends.writers == 0 && p.written == old(p.written)
  {
    hide Queue;
    outs, ins := [], [];
    ghost var was := p.ring.Bytes();
    p.RoomLeft();
    assert was[0..] == was && was + [] == was;
    match op
    case Get(len) =>
      if len > 0 && p.ends.readers > 0 {
        var r := p.ReadStep(len);
        if r.Data? {
          assert was[|r.bytes|..] == p.ring.Bytes() && was[..|r.bytes|] == r.bytes;
        } else {
          assert was == [] && p.ring.Bytes() == [];
        }
        outs := [r];
      }
    case Put(buf) =>
      if |buf| > 0 && p.ends.writers > 0 {
        var ok, done := p.WriteStep(buf, 0);
        p.RoomLeft();
        assert buf[..done] == buf[0..done];
        ins := [if ok then Wrote(done) else Broken];
      }
    case Dup(w) =>
      if p.ends.Count(w) > 0 { p.AddRef(w); }
    case Drop(w) =>
      if p.ends.Count(w) > 0 { var dead := p.Release(w); }
  }

  /** Any interleaving: the pipe is a bounded queue, readers get exactly what
      writers put in, in order, and after one reader saw end of file no reader
      sees anything else. */
  method Interleave(p: Pipe, ops: seq<PipeOp>) returns (outs: seq<Taken>, ins: seq<Given>)
    requires p.Valid()
    modifies p, p.ring, p.ring.buf
    ensures p.Valid() && p.written == p.taken + p.ring.Bytes()
    ensures Model(p.ends, p.ring.Bytes()) == After(old(Model(p.ends, p.ring.Bytes())), ops)
    ensures outs == AllReads(old(Model(p.ends, p.ring.Bytes())), ops)
    ensures ins == AllWrites(old(Model(p.ends, p.ring.Bytes())), ops) && |p.written| == |old(p.written)| + Total(ins)
    ensures p.taken == old(p.taken) + Handed(outs) && old(p.written) <= p.written
    ensures EofStays(outs)
    ensures Eof in outs ==> p.taken == p.written && p.ends.writers == 0
  {
    hide Queue, Handed, Total, EofStays, Next, Reads, Writes;
    outs, ins := [], [];
    ghost var m := Model(p.ends, p.ring.Bytes());
    Nothing();
    assert ops[..0] == [];
    for k := 0 to |ops|
      invariant p.Valid() && p.taken == old(p.taken) + Handed(outs) && old(p.written) <= p.written
      invariant Model(p.ends, p.ring.Bytes()) == After(m, ops[..k]) && outs == AllReads(m, ops[..k])
      invariant ins == AllWrites(m, ops[..k]) && |p.written| == |old(p.written)| + Total(ins)
      invariant EofStays(outs)
      invariant Eof in outs ==> p.taken == p.written && p.ends.writers == 0
    {
      OneMore(m, ops, k);
      ghost var state := Model(p.ends, p.ring.Bytes());
      var more, given := Perform(p, ops[k]);
      HandedMore(outs, more);
      TotalMore(ins, given);
      if more != [] {
        EofAfter(state, ops[k], more);
        EofStaysMore(outs, more[0]);
        assert outs + [more[0]] == outs + more;
      } else {
        assert outs + more == outs;
      }
      outs, ins := outs + more, ins + given;
    }
    assert ops[..|ops|] == ops;
  }

  /** An empty pipe without writers reads as end of file; only such a pipe does. */
  lemma EofAfter(m: Model, op: PipeOp, outs: seq<Taken>)
    requires outs == Reads(m, op) && outs != []
    ensures outs[0].Eof? <==> m.queue == [] && m.ends.writers == 0
  {}
}
