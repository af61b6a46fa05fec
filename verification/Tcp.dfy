/** The client TCP (kernel/tcp.c:77-409): one connection against a truthful
    peer over a network that loses, repeats and reorders. Each section the
    kernel runs with interrupts off is one method. */
module Tcp {
  import opened Machine
  import opened RingQueue

  const RXBUF: nat := 16384
  const MSS: nat := 1460
  const TWO31: int := 0x8000_0000

  /** a - b in sequence space, as int32_t. */
  function SeqDiff(a: nat, b: nat): int
  {
    var d := W(a - b);
    if d >= TWO31 then d - TWO32 else d
  }

  /** Offsets closer than half the number space compare as the numbers do. */
  lemma DiffIs(base: int, x: int, y: int)
    requires -TWO31 <= x - y < TWO31
    ensures SeqDiff(W(base + x), W(base + y)) == x - y
  {
    var q := (base + y) / TWO32;
    assert base + y == TWO32 * q + W(base + y);
    WSum(base + x, 0 - W(base + y));
    assert base + x - W(base + y) == TWO32 * q + (x - y);
    Shift(x - y, q);
  }

  lemma SameOffset(base: int, x: int, y: int)
    requires -TWO32 < x - y < TWO32
    ensures W(base + x) == W(base + y) <==> x == y
  {
    var p, q := (base + x) / TWO32, (base + y) / TWO32;
    assert base + x == TWO32 * p + W(base + x);
    assert base + y == TWO32 * q + W(base + y);
  }

  lemma PrefixMore(s: seq<Byte>, a: seq<Byte>, b: seq<Byte>, payload: seq<Byte>, n: nat)
    requires a + b <= s && |a| + |b| + |payload| <= |s| && n <= |payload|
    requires payload == s[|a| + |b|..|a| + |b| + |payload|]
    ensures a + (b + payload[..n]) <= s
  {
    var c := a + (b + payload[..n]);
    assert forall i :: 0 <= i < |a| + |b| ==> c[i] == (a + b)[i];
    assert forall i :: |a| + |b| <= i < |c| ==> c[i] == payload[i - |a| - |b|];
  }

  /** Bytes of our stream at an absolute offset. */
  datatype Packet = Packet(off: nat, bytes: seq<Byte>)

  ghost predicate Within(s: seq<Byte>, p: Packet)
  {
    p.off + |p.bytes| <= |s| && s[p.off..p.off + |p.bytes|] == p.bytes
  }

  lemma WithinMore(s: seq<Byte>, s': seq<Byte>, p: Packet)
    requires s <= s' && Within(s, p)
    ensures Within(s', p)
  {
    assert s'[p.off..p.off + |p.bytes|] == s[p.off..p.off + |p.bytes|];
  }

  /** What the peer holds after a packet: it keeps what joins on. */
  function Extend(held: seq<Byte>, p: Packet): (h: seq<Byte>)
    ensures held <= h && (p.off <= |held| ==> p.off + |p.bytes| <= |h|)
  {
    if p.off <= |held| < p.off + |p.bytes| then held + p.bytes[|held| - p.off..] else held
  }

  /** What a run of packets carries, end to end. */
  function Join(ps: seq<Packet>): seq<Byte>
  {
    if ps == [] then [] else Join(ps[..|ps| - 1]) + ps[|ps| - 1].bytes
  }

  /** A call of tcp_send in progress. `done` are its chunks acknowledged so far;
      when `claimed`, the next chunk holds sequence numbers from `seqNo` on. */
  datatype Job = Job(buf: seq<Byte>, sent: nat, claimed: bool, chunk: nat, seqNo: nat, off: nat, done: seq<Packet>)

  /** The job with its next chunk, at most MSS bytes, placed at `off`. */
  function Claimant(j: Job, seqNo: nat, off: nat): (c: Job)
    requires j.sent < |j.buf|
    ensures c.sent + c.chunk <= |c.buf|
  {
    var left := |j.buf| - j.sent;
    j.(claimed := true, chunk := if left > MSS then MSS else left, seqNo := seqNo, off := off)
  }

  function Current(j: Job): Packet
    requires j.sent + j.chunk <= |j.buf|
  {
    Packet(j.off, j.buf[j.sent..j.sent + j.chunk])
  }

  function Advanced(j: Job): Job
    requires j.sent + j.chunk <= |j.buf|
  {
    j.(claimed := false, sent := j.sent + j.chunk, done := j.done + [Current(j)])
  }

  ghost predicate JobOk(iss: nat, out: seq<Byte>, held: seq<Byte>, j: Job)
  {
    && j.sent <= |j.buf| && Join(j.done) == j.buf[..j.sent]
    && (forall p :: p in j.done ==> Within(held, p))
    && (forall a, b :: 0 <= a < b < |j.done| ==> j.done[a].off + |j.done[a].bytes| <= j.done[b].off)
    && (j.claimed ==>
          && 0 < j.chunk && j.sent + j.chunk <= |j.buf| && Within(out, Current(j)) && j.seqNo == W(iss + 1 + j.off)
          && forall a :: 0 <= a < |j.done| ==> j.done[a].off + |j.done[a].bytes| <= j.off)
  }

  lemma JobStays(iss: nat, out: seq<Byte>, out': seq<Byte>, held: seq<Byte>, held': seq<Byte>, j: Job)
    requires JobOk(iss, out, held, j) && out <= out' && held <= held'
    ensures JobOk(iss, out', held', j)
  {
    forall p | p in j.done
      ensures Within(held', p)
    {
      WithinMore(held, held', p);
    }
    if j.claimed { WithinMore(out, out', Current(j)); }
  }

  /** How one pass of tcp_recv ends: bytes, end of stream, an error, or the task sleeps and tries again. */
  datatype Received = Data(bytes: seq<Byte>) | Eof | Failed | Again

  datatype State = SynSent | Established | Linger | Free

  /** A connection in absolute offsets, without sequence numbers: what the 32-bit
      socket is meant to be. */
  datatype Scene = Scene(
    state: State, reset: bool, una: int, rcv: nat, peerFin: bool, buffered: seq<Byte>, delivered: seq<Byte>,
    out: seq<Byte>, wire: seq<Packet>, held: seq<Byte>, finSent: bool, finHeld: bool, jobs: map<nat, Job>)
  {
    function SndOff(): int { |out| + if finSent then 1 else 0 }
  }

  function Unnumbered(jobs: map<nat, Job>): map<nat, Job>
  {
    map t | t in jobs :: jobs[t].(seqNo := 0)
  }

  lemma UnnumberedSet(jobs: map<nat, Job>, t: nat, j: Job)
    ensures Unnumbered(jobs[t := j]) == Unnumbered(jobs)[t := j.(seqNo := 0)]
  {}

  lemma UnnumberedDrop(jobs: map<nat, Job>, t: nat)
    ensures Unnumbered(jobs - {t}) == Unnumbered(jobs) - {t}
  {}

  lemma UnnumberedAt(jobs: map<nat, Job>, t: nat)
    ensures t in jobs <==> t in Unnumbered(jobs)
    ensures t in jobs ==> Unnumbered(jobs)[t] == jobs[t].(seqNo := 0)
  {}

  /** An acknowledgement moves `una`, forward only. */
  function Acked(s: Scene, ackOff: int): Scene
  {
    if ackOff > s.una then s.(una := ackOff) else s
  }

  /** Data at `rcv` is taken as far as it fits. */
  function Taken(s: Scene, off: int, payload: seq<Byte>): Scene
  {
    var room := if |s.buffered| < RXBUF then RXBUF - 1 - |s.buffered| else 0;
    var n := if |payload| <= room then |payload| else room;
    if off == s.rcv then s.(rcv := s.rcv + n, buffered := s.buffered + payload[..n]) else s
  }

  /** A read takes from the front. */
  function Drained(s: Scene, len: nat): Scene
  {
    var n := if len <= |s.buffered| then len else |s.buffered|;
    s.(delivered := s.delivered + s.buffered[..n], buffered := s.buffered[n..])
  }

  /** A FIN counts at the end of the stream. */
  function Ended(s: Scene, stream: seq<Byte>): Scene
  {
    if !s.peerFin && s.rcv == |stream| then s.(peerFin := true, rcv := s.rcv + 1) else s
  }

  /** A closed socket is freed once both directions are complete. */
  function Settled(s: Scene): Scene
  {
    if s.state == Linger && s.peerFin && s.una >= s.SndOff() then s.(state := Free) else s
  }

  /** What a segment does. */
  function Arrive(s: Scene, stream: seq<Byte>, off: int, payload: seq<Byte>, syn: bool, fin: bool, hasAck: bool,
                  ackOff: int): Scene
  {
    if s.state == SynSent then
      if syn && hasAck && ackOff == 0 then s.(state := Established, una := 0, rcv := 0) else s
    else
      var a := if hasAck then Acked(s, ackOff) else s;
      var d := if payload != [] then Taken(a, off, payload) else a;
      Settled(if fin then Ended(d, stream) else d)
  }

  /** What a truthful peer may put in a segment: true bytes of its stream at
      their place, FIN at its end, SYN before its start, and acknowledgements
      of what it holds. Live segments are within 2^31 of the current point. */
  predicate TruthfulAt(stream: seq<Byte>, state: State, rcv: nat, una: int, held: nat,
                       off: int, payload: seq<Byte>, syn: bool, fin: bool, ackOff: int)
  {
    && (if syn then off == -1 && payload == [] && !fin
        else if payload == [] then 0 <= off <= |stream| + 1
        else 0 <= off && off + |payload| <= |stream| && payload == stream[off..off + |payload|])
    && (fin ==> off + |payload| == |stream|) && |payload| < 0x10000
    && 0 <= ackOff <= held
    && (state != SynSent ==> -TWO31 < off - rcv < TWO31)
    && -TWO31 < ackOff - una < TWO31
  }

  class Conn {
    // The socket.
    const ring: Ring<Byte>
    var state: State
    var sndNxt: nat
    var sndUna: nat
    var rcvNxt: nat
    var peerFin: bool
    var reset: bool
    var finSent: bool
    var jobs: map<nat, Job>
    // The peer and the wire, in absolute offsets.
    const iss: nat
    const irs: nat
    const stream: seq<Byte>  // all the peer ever sends
    var out: seq<Byte>       // all we were asked to send and gave numbers to
    var wire: seq<Packet>    // every data segment that left
    var held: seq<Byte>      // what the peer has of our stream, contiguously
    var finHeld: bool        // the peer has our FIN
    var una: int             // sndUna as an offset
    var rcv: nat             // rcvNxt as an offset
    ghost var delivered: seq<Byte>  // all bytes tcp_recv returned

    function SndOff(): int
      reads `out, `finSent
    {
      |out| + if finSent then 1 else 0
    }

    /** What the receiver has: delivered bytes, then the ring, a prefix of the peer's stream. */
    ghost predicate RecvOk()
      requires ring.Valid()
      reads `state, `rcvNxt, `rcv, `delivered, `peerFin, ring, ring.buf
    {
      if state == SynSent then delivered == [] && ring.Bytes() == [] && !peerFin
      else
        && rcvNxt == W(irs + 1 + rcv)
        && rcv == |delivered| + |ring.Bytes()| + (if peerFin then 1 else 0)
        && delivered + ring.Bytes() <= stream
        && (peerFin ==> delivered + ring.Bytes() == stream)
    }

    ghost predicate SendOk()
      reads `state, `sndNxt, `sndUna, `una, `out, `wire, `held, `finHeld, `finSent, `jobs
    {
      && sndNxt == W(iss + 1 + SndOff()) && sndUna == W(iss + 1 + una)
      && (if state == SynSent then una == -1 && out == [] && jobs == map[] && !finSent else 0 <= una)
      && una <= |held| + (if finHeld then 1 else 0) && held <= out
      && (finHeld ==> finSent && held == out) && (finSent ==> state in {Linger, Free} && jobs == map[])
      && (state == Linger ==> finSent)
      && SndOff() - una < TWO31
      && (forall p :: p in wire ==> Within(out, p))
      && forall t :: t in jobs ==> JobOk(iss, out, held, jobs[t])
    }

    ghost predicate Valid()
      reads this, ring, ring.buf
    {
      && ring.Valid() && ring.buf.Length == RXBUF && RecvOk() && SendOk()
    }

    /** Free space, as advertised in every segment. */
    function Window(): nat
      requires ring.Valid() && ring.buf.Length == RXBUF
      reads ring
    {
      RXBUF - 1 - (ring.head - ring.tail + RXBUF) % RXBUF
    }

    /** The right edge of the advertised window, as an offset. */
    ghost function Edge(): int
      requires ring.Valid() && ring.buf.Length == RXBUF
      reads `rcv, ring
    {
      rcv + Window()
    }

    ghost function View(): Scene
      requires ring.Valid()
      reads this, ring, ring.buf
    {
      Scene(state, reset, una, rcv, peerFin, ring.Bytes(), delivered, out, wire, held, finSent, finHeld,
            Unnumbered(jobs))
    }

    /** The window is what the ring has room for. */
    lemma EdgeIs()
      requires ring.Valid() && ring.buf.Length == RXBUF
      ensures |ring.Bytes()| < RXBUF && Edge() == rcv + RXBUF - 1 - |ring.Bytes()|
    {
      hide Queue;
      Occupied(ring.buf[..], ring.head, ring.tail);
    }

    /** A socket just set up by tcp_connect, its SYN not yet answered. */
    constructor (ring: Ring<Byte>, iss: nat, irs: nat, stream: seq<Byte>)
      requires ring.Valid() && ring.buf.Length == RXBUF && ring.Bytes() == [] && iss < TWO32 && irs < TWO32
      ensures Valid() && state == SynSent && this.ring == ring && this.iss == iss && this.irs == irs
      ensures this.stream == stream && delivered == [] && out == []
    {
      this.ring, this.iss, this.irs, this.stream := ring, iss, irs, stream;
      state, sndUna, sndNxt, rcvNxt := SynSent, iss, W(iss + 1), 0;
      peerFin, reset, finSent, jobs := false, false, false, map[];
      out, wire, held, finHeld, una, rcv, delivered := [], [], [], false, -1, 0, [];
    }

    // ---------------------------------------------------------------- receiving

    predicate Truthful(off: int, payload: seq<Byte>, syn: bool, fin: bool, ackOff: int)
      reads this
    {
      TruthfulAt(stream, state, rcv, una, |held| + (if finHeld then 1 else 0), off, payload, syn, fin, ackOff)
    }

    /** One arriving segment without RST. */
    method Input(seq_: nat, ack: nat, syn: bool, fin: bool, hasAck: bool, payload: seq<Byte>, off: int, ackOff: int)
      returns (reply: bool)
      requires Valid() && state != Free && Truthful(off, payload, syn, fin, ackOff)
      requires seq_ == W(irs + 1 + off) && ack == W(iss + 1 + ackOff)
      modifies this`state, this`rcvNxt, this`sndUna, this`peerFin, this`una, this`rcv, ring`head, ring.buf
      // It does what it would do on unbounded offsets.
      ensures Valid() && View() == Arrive(old(View()), stream, off, payload, syn, fin, hasAck, ackOff)
      // The window's right edge does not move left.
      ensures old(state) != SynSent ==> state != SynSent && Edge() >= old(Edge())
      // A socket that finished its teardown had everything, and the peer has everything.
      ensures old(state) == Linger && state == Free ==>
                delivered + ring.Bytes() == stream && held == out && finHeld
      // Whatever asks for an acknowledgement gets one, of rcvNxt and the current window.
      ensures reply == if old(state) == SynSent then state == Established else payload != [] || fin
    {
      hide W, RecvOk, SendOk, Queue, Truthful, SeqDiff, Acked, Taken, Ended, Settled, Edge;
      if state == SynSent {
        SynAnswered(off, payload, syn, fin, ackOff);
        reply := syn && hasAck && ack == sndNxt;
        if reply { Establish(seq_, ack, off, payload, fin, ackOff); }
      } else {
        reply := |payload| > 0 || fin;
        TruthfulParts(off, payload, syn, fin, ackOff);
        SetUp(seq_, ack, fin, hasAck, payload, off, ackOff);
      }
    }

    /** A segment on a connection that is set up. */
    method SetUp(seq_: nat, ack: nat, fin: bool, hasAck: bool, payload: seq<Byte>, off: int, ackOff: int)
      requires Valid() && state in {Established, Linger} && seq_ == W(irs + 1 + off) && -TWO31 < off - rcv < TWO31
      requires payload != [] ==> 0 <= off && off + |payload| <= |stream| && payload == stream[off..off + |payload|]
      requires (fin ==> off + |payload| == |stream|) && |payload| < 0x10000
      requires 0 <= ackOff <= |held| + (if finHeld then 1 else 0) && -TWO31 < ackOff - una < TWO31
      requires ack == W(iss + 1 + ackOff)
      modifies this`state, this`rcvNxt, this`sndUna, this`peerFin, this`una, this`rcv, ring`head, ring.buf
      ensures Valid() && View() == Arrive(old(View()), stream, off, payload, false, fin, hasAck, ackOff)
      ensures Edge() >= old(Edge()) && (state == old(state) || state == Free)
      ensures state != old(state) ==> delivered + ring.Bytes() == stream && held == out && finHeld
    {
      hide W, RecvOk, SendOk, Queue, SeqDiff, Acked, Taken, Ended, Settled, Edge;
      if hasAck { TakeAck(ack, ackOff); }
      Segment(seq_, fin, payload, off);
    }

    /** What a segment carries, on a connection that is set up. */
    method Segment(seq_: nat, fin: bool, payload: seq<Byte>, off: int)
      requires Valid() && state in {Established, Linger} && seq_ == W(irs + 1 + off) && -TWO31 < off - rcv < TWO31
      requires payload != [] ==> 0 <= off && off + |payload| <= |stream| && payload == stream[off..off + |payload|]
      requires (fin ==> off + |payload| == |stream|) && |payload| < 0x10000
      modifies this`state, this`rcvNxt, this`peerFin, this`rcv, ring`head, ring.buf
      ensures Valid() && Edge() >= old(Edge())
      ensures var d := if payload != [] then Taken(old(View()), off, payload) else old(View());
              View() == Settled(if fin then Ended(d, stream) else d)
      ensures state != old(state) ==> state == Free && delivered + ring.Bytes() == stream && held == out && finHeld
    {
      hide W, RecvOk, SendOk, Queue, SeqDiff, Taken, Ended, View, Edge;
      if |payload| > 0 { TakeData(seq_, payload, off); }
      if fin { TakeFin(seq_, |payload|, off); }
      Settle();
    }

    lemma SynAnswered(off: int, payload: seq<Byte>, syn: bool, fin: bool, ackOff: int)
      requires Valid() && state == SynSent && Truthful(off, payload, syn, fin, ackOff)
      ensures W(iss + 1 + ackOff) == sndNxt <==> ackOff == 0
    {
      hide W, Queue;
      SameOffset(iss + 1, ackOff, 0);
    }

    /** An acknowledgement moves the oldest unacknowledged number, forward only. */
    method TakeAck(ack: nat, ackOff: int)
      requires Valid() && state in {Established, Linger}
      requires 0 <= ackOff <= |held| + (if finHeld then 1 else 0) && -TWO31 < ackOff - una < TWO31
      requires ack == W(iss + 1 + ackOff)
      modifies this`sndUna, this`una
      ensures Valid() && View() == Acked(old(View()), ackOff)
    {
      hide W, RecvOk, JobOk, Within;
      DiffIs(iss + 1, ackOff, una);
      if ackOff > una { DiffIs(iss + 1, ackOff, SndOff()); }
      if SeqDiff(ack, sndUna) > 0 && SeqDiff(ack, sndNxt) <= 0 {
        sndUna := ack;
        una := ackOff;
      }
    }

    /** In-order data goes into the ring as far as it fits; anything else is dropped. */
    method TakeData(seq_: nat, payload: seq<Byte>, off: int)
      requires Valid() && state in {Established, Linger} && seq_ == W(irs + 1 + off) && -TWO31 < off - rcv < TWO31
      requires 0 <= off && off + |payload| <= |stream| && payload == stream[off..off + |payload|] && payload != []
      modifies this`rcvNxt, this`rcv, ring`head, ring.buf
      ensures Valid() && Edge() == old(Edge()) && old(rcv) <= rcv <= old(rcv) + |payload|
      ensures View() == Taken(old(View()), off, payload)
    {
      hide Queue, W, SendOk, Edge;
      EdgeIs();
      SameOffset(irs + 1, off, rcv);
      if seq_ == rcvNxt {
        ghost var was := ring.Bytes();
        var n := ring.Put(payload);
        PrefixMore(stream, delivered, was, payload, n);
        WSum(irs + 1 + rcv, n);
        rcvNxt := W(rcvNxt + n);
        rcv := rcv + n;
        EdgeIs();
      }
    }

    /** A FIN counts once every byte before it is in. */
    method TakeFin(seq_: nat, n: nat, off: int)
      requires Valid() && state in {Established, Linger} && seq_ == W(irs + 1 + off) && n < 0x10000
      requires off + n == |stream| && -TWO31 - 0x10000 < off - rcv < TWO31 + 0x10000
      modifies this`rcvNxt, this`rcv, this`peerFin
      ensures Valid() && Edge() >= old(Edge()) && rcv >= old(rcv) && View() == Ended(old(View()), stream)
    {
      hide W, SendOk, Queue;
      WSum(irs + 1 + off, n);
      SameOffset(irs + 1, off + n, rcv);
      if !peerFin && W(seq_ + n) == rcvNxt {
        WSum(irs + 1 + rcv, 1);
        rcvNxt := W(rcvNxt + 1);
        rcv := rcv + 1;
        peerFin := true;
      }
    }

    /** RST: the connection is dead, whatever the segment says. */
    method InputReset()
      requires Valid() && state != Free
      modifies this`reset, this`state
      ensures Valid() && reset && delivered == old(delivered)
      ensures state == if old(state) == Linger then Free else old(state)
    {
      hide W, JobOk, Within, Queue;
      reset := true;
      if state == Linger { state := Free; }
    }

    lemma TruthfulParts(off: int, payload: seq<Byte>, syn: bool, fin: bool, ackOff: int)
      requires state != SynSent && Truthful(off, payload, syn, fin, ackOff)
      ensures payload != [] ==> 0 <= off && off + |payload| <= |stream| && payload == stream[off..off + |payload|]
      ensures (fin ==> off + |payload| == |stream|) && |payload| < 0x10000
      ensures 0 <= ackOff <= |held| + (if finHeld then 1 else 0)
      ensures -TWO31 < off - rcv < TWO31 && -TWO31 < ackOff - una < TWO31
    {}

    /** The handshake completes. */
    method Establish(seq_: nat, ack: nat, off: int, payload: seq<Byte>, fin: bool, ackOff: int)
      requires Valid() && state == SynSent && Truthful(off, payload, true, fin, ackOff)
      requires seq_ == W(irs + 1 + off) && ack == W(iss + 1 + ackOff) && ack == sndNxt
      modifies this`state, this`rcvNxt, this`sndUna, this`una, this`rcv
      ensures Valid() && state == Established && una == rcv == 0
    {
      hide W, Queue;
      WSum(irs + 1 + off, 1);
      rcvNxt := W(seq_ + 1);
      sndUna := ack;
      SameOffset(iss + 1, ackOff, 0);
      una, rcv := 0, 0;
      state := Established;
    }

    /** Our FIN is acknowledged and the peer's has come: both streams are complete. */
    method Settle()
      requires Valid()
      modifies this`state
      ensures Valid() && View() == Settled(old(View()))
      ensures state != old(state) ==> state == Free && delivered + ring.Bytes() == stream && held == out && finHeld
    {
      hide W, JobOk, Within, Queue, SeqDiff;
      DiffIs(iss + 1, una, SndOff());
      if state == Linger && peerFin && SeqDiff(sndUna, sndNxt) >= 0 { state := Free; }
    }

    /** One pass of tcp_recv with room for len > 0 bytes. */
    method Recv(len: nat) returns (r: Received)
      requires Valid() && len > 0
      modifies this`delivered, ring`tail
      ensures Valid() && View() == Drained(old(View()), len)
      ensures r == if old(ring.Bytes()) != [] then Data(delivered[|old(delivered)|..])
                   else if peerFin then Eof else if reset || state != Established then Failed else Again
      // End of stream is reported only when every byte the peer sent has been returned.
      ensures r.Eof? ==> delivered == stream && state != SynSent
      ensures old(state) != SynSent ==> Edge() >= old(Edge())
    {
      hide W, SendOk, Queue, Edge;
      EdgeIs();
      ghost var was := ring.Bytes();
      var got := ring.Drain(len);
      delivered := delivered + got;
      assert was[..|got|] == got && was[|got|..] == ring.Bytes();
      assert delivered + ring.Bytes() == old(delivered) + was;
      EdgeIs();
      if |got| > 0 { return Data(got); }
      if peerFin { return Eof; }
      if reset || state != Established { return Failed; }
      r := Again;
    }

    // ------------------------------------------------------------------ sending

    /** Task t enters tcp_send. */
    method SendOpen(t: nat, buf: seq<Byte>) returns (ok: bool)
      requires Valid() && t !in jobs
      modifies this`jobs
      ensures Valid() && ok == (state == Established && !reset && !finSent)
      ensures jobs == if ok then old(jobs)[t := Job(buf, 0, false, 0, 0, 0, [])] else old(jobs)
    {
      hide W, RecvOk, Within, Queue;
      ok := state == Established && !reset && !finSent;
      if ok {
        jobs := jobs[t := Job(buf, 0, false, 0, 0, 0, [])];
        assert JobOk(iss, out, held, jobs[t]);
      }
    }

    /** Task t gives its next chunk the next sequence numbers. */
    method Claim(t: nat)
      requires Valid() && t in jobs && !jobs[t].claimed && jobs[t].sent < |jobs[t].buf|
      requires SndOff() - una < TWO31 - MSS  // no more than 2^31 bytes in flight
      modifies this`jobs, this`sndNxt, this`out
      ensures Valid() && jobs == old(jobs)[t := Claimant(old(jobs)[t], old(sndNxt), |old(out)|)]
      ensures out == old(out) + Current(jobs[t]).bytes
    {
      hide W, RecvOk, Queue, JobOk, Within;
      var j := jobs[t];
      var chunk := |j.buf| - j.sent;
      if chunk > MSS { chunk := MSS; }
      var seqNo := sndNxt;
      WSum(iss + 1 + SndOff(), chunk);
      sndNxt := W(sndNxt + chunk);
      ghost var out0 := out;
      Claimed(iss, out, held, j, chunk);
      out := out + j.buf[j.sent..j.sent + chunk];
      jobs := jobs[t := j.(claimed := true, chunk := chunk, seqNo := seqNo, off := |out| - chunk)];
      GrownOut(out0, out);
    }

    /** Every job and every segment stays right when our stream grows. */
    lemma GrownOut(out0: seq<Byte>, out': seq<Byte>)
      requires out0 <= out'
      ensures forall p :: p in wire && Within(out0, p) ==> Within(out', p)
      ensures forall j :: JobOk(iss, out0, held, j) ==> JobOk(iss, out', held, j)
    {
      forall p | p in wire && Within(out0, p)
        ensures Within(out', p)
      {
        WithinMore(out0, out', p);
      }
      forall j | JobOk(iss, out0, held, j)
        ensures JobOk(iss, out', held, j)
      {
        JobStays(iss, out0, out', held, held, j);
      }
    }

    /** Put the claimed chunk on the wire, for the first time or again. */
    method Transmit(t: nat)
      requires Valid() && t in jobs && jobs[t].claimed
      modifies this`wire
      ensures Valid() && jobs[t].sent + jobs[t].chunk <= |jobs[t].buf| && wire == old(wire) + [Current(jobs[t])]
    {
      hide W, RecvOk, Queue;
      wire := wire + [Current(jobs[t])];
    }

    /** Task t looks whether its chunk was acknowledged. */
    method Poll(t: nat) returns (acked: bool)
      requires Valid() && t in jobs && jobs[t].claimed
      modifies this`jobs
      ensures var j := old(jobs)[t]; Valid() && j.sent + j.chunk <= |j.buf|
      ensures jobs == if acked then old(jobs)[t := Advanced(old(jobs)[t])] else old(jobs)
      // Acknowledged means held: the peer has the chunk, at the place it was sent for.
      ensures acked ==> Within(held, Current(old(jobs)[t])) && !reset
      // Seen unless the acknowledged stream has run 2^31 bytes past the chunk.
      ensures var past := una - old(jobs)[t].off - old(jobs)[t].chunk;
              past < TWO31 ==> acked == (!reset && past >= 0)
    {
      hide W, RecvOk, Queue, JobOk, Within;
      var j := jobs[t];
      acked := !reset && SeqDiff(sndUna, W(j.seqNo + j.chunk)) >= 0;
      JobFacts(iss, out, held, j);
      if una - j.off - j.chunk < TWO31 { AckSeen(j); }
      if acked {
        AckMeansHeld(j);
        Finished(iss, out, held, j);
        jobs := jobs[t := Advanced(j)];
      }
    }

    lemma AckSeen(j: Job)
      requires Valid() && JobOk(iss, out, held, j) && j.claimed && una - j.off - j.chunk < TWO31
      ensures SeqDiff(sndUna, W(j.seqNo + j.chunk)) >= 0 <==> j.off + j.chunk <= una
    {
      hide W, RecvOk, Queue, SeqDiff;
      WSum(iss + 1 + j.off, j.chunk);
      DiffIs(iss + 1, una, j.off + j.chunk);
    }

    lemma AckMeansHeld(j: Job)
      requires Valid() && JobOk(iss, out, held, j) && j.claimed && SeqDiff(sndUna, W(j.seqNo + j.chunk)) >= 0
      requires !finSent
      ensures j.off + j.chunk <= |held|
    {
      hide W, RecvOk, Queue;
      WSum(iss + 1 + j.off, j.chunk);
      if j.off + j.chunk > una { DiffIs(iss + 1, una, j.off + j.chunk); }
    }

    /** tcp_send returns: all len bytes are with the peer, chunk by chunk and in order. */
    method SendDone(t: nat) returns (n: nat)
      requires Valid() && t in jobs && !jobs[t].claimed && jobs[t].sent == |jobs[t].buf|
      modifies this`jobs
      ensures Valid() && jobs == old(jobs) - {t} && n == |old(jobs)[t].buf|
      ensures var j := old(jobs)[t];
        && Join(j.done) == j.buf && (forall p :: p in j.done ==> Within(held, p))
        && (forall a, b :: 0 <= a < b < |j.done| ==> j.done[a].off + |j.done[a].bytes| <= j.done[b].off)
    {
      hide W, RecvOk, Queue;
      n := |jobs[t].buf|;
      assert jobs[t].buf[..n] == jobs[t].buf;
      jobs := jobs - {t};
    }

    /** Retransmissions exhausted: the connection is poisoned, tcp_send fails. */
    method SendFail(t: nat)
      requires Valid() && t in jobs
      modifies this`jobs, this`reset
      ensures Valid() && reset && jobs == old(jobs) - {t}
    {
      hide W, RecvOk, Queue, JobOk, Within;
      reset := true;
      jobs := jobs - {t};
    }

    /** Task t is killed inside tcp_send: nobody waits for its chunk any more. */
    method SendKilled(t: nat)
      requires Valid()
      modifies this`jobs
      ensures Valid() && jobs == old(jobs) - {t}
    {
      hide W, RecvOk, Queue, JobOk, Within;
      jobs := jobs - {t};
    }

    /** The last descriptor is gone: send one FIN and linger, or free the slot at once. */
    method Release()
      requires Valid() && jobs == map[] && SndOff() - una < TWO31 - 1 && state == Established
      modifies this`state, this`sndNxt, this`finSent
      ensures Valid() && finSent == (old(finSent) || !reset) && state == if reset then Free else Linger
    {
      hide W, Queue, JobOk, Within;
      if state == Established && !reset && !finSent {
        WSum(iss + 1 + SndOff(), 1);
        sndNxt := W(sndNxt + 1);
        finSent := true;
        state := Linger;
      } else {
        state := Free;
      }
    }

    // ----------------------------------------------------------- the peer's side

    /** Segment i of the wire reaches the peer, perhaps late, perhaps again; it keeps what is contiguous. */
    method PeerTakes(i: nat)
      requires Valid() && i < |wire|
      modifies this`held
      ensures Valid() && held == Extend(old(held), wire[i])
    {
      hide W, RecvOk, Queue, JobOk, Within;
      var p := wire[i];
      if p.off <= |held| < p.off + |p.bytes| {
        ghost var held0 := held;
        Extended(out, held, p);
        held := held + p.bytes[|held| - p.off..];
        GrownHeld(held0, held);
      }
    }

    lemma GrownHeld(held0: seq<Byte>, held': seq<Byte>)
      requires held0 <= held'
      ensures forall j :: JobOk(iss, out, held0, j) ==> JobOk(iss, out, held', j)
    {
      forall j | JobOk(iss, out, held0, j)
        ensures JobOk(iss, out, held', j)
      {
        JobStays(iss, out, out, held0, held', j);
      }
    }

    /** The peer sees our FIN after everything else. */
    method PeerTakesFin()
      requires Valid() && finSent && held == out
      modifies this`finHeld
      ensures Valid() && finHeld
    {
      hide W, RecvOk, Queue, JobOk, Within;
      finHeld := true;
    }
  }

  lemma Claimed(iss: nat, out: seq<Byte>, held: seq<Byte>, j: Job, chunk: nat)
    requires JobOk(iss, out, held, j) && held <= out && 0 < chunk && j.sent + chunk <= |j.buf|
    ensures var out' := out + j.buf[j.sent..j.sent + chunk];
      JobOk(iss, out', held, j.(claimed := true, chunk := chunk, seqNo := W(iss + 1 + |out|), off := |out|))
  {
    forall a | 0 <= a < |j.done|
      ensures j.done[a].off + |j.done[a].bytes| <= |out|
    {
      assert Within(held, j.done[a]);
    }
  }

  lemma JobFacts(iss: nat, out: seq<Byte>, held: seq<Byte>, j: Job)
    requires JobOk(iss, out, held, j) && j.claimed
    ensures 0 < j.chunk && j.sent + j.chunk <= |j.buf|
  {}

  lemma Finished(iss: nat, out: seq<Byte>, held: seq<Byte>, j: Job)
    requires JobOk(iss, out, held, j) && j.claimed && held <= out && j.off + j.chunk <= |held|
    ensures Within(held, Current(j))
    ensures JobOk(iss, out, held, j.(claimed := false, sent := j.sent + j.chunk, done := j.done + [Current(j)]))
  {
    var p := Current(j);
    assert held[p.off..p.off + |p.bytes|] == out[p.off..p.off + |p.bytes|];
    assert (j.done + [p])[..|j.done|] == j.done;
    assert j.buf[..j.sent + j.chunk] == j.buf[..j.sent] + j.buf[j.sent..j.sent + j.chunk];
  }

  lemma Extended(out: seq<Byte>, held: seq<Byte>, p: Packet)
    requires held <= out && Within(out, p) && p.off <= |held| < p.off + |p.bytes|
    ensures held + p.bytes[|held| - p.off..] <= out
  {
    var h := held + p.bytes[|held| - p.off..];
    assert forall i :: |held| <= i < |h| ==> h[i] == p.bytes[i - p.off] == out[p.off..p.off + |p.bytes|][i - p.off];
  }

  // -------------------------------------------------------------------- whole runs

  /** Whatever may happen: segments the peer sent arrive in any order, any number
      of times or never; tasks read, send, close and are killed; our segments reach the peer. */
  datatype Event =
    | Deliver(off: int, n: nat, syn: bool, fin: bool, hasAck: bool, ackOff: int) | Reset
    | Read(len: nat) | Open(t: nat, buf: seq<Byte>) | Number(t: nat) | Put(t: nat) | Look(t: nat)
    | Done(t: nat) | GiveUp(t: nat) | Killed(t: nat)
    | Close | PeerGets(i: nat) | PeerGetsFin

  /** A send that was reported complete: all its bytes are with the peer. */
  ghost predicate AllHeld(held: seq<Byte>, j: Job)
  {
    Join(j.done) == j.buf && forall p :: p in j.done ==> Within(held, p)
  }

  lemma AllHeldMore(held: seq<Byte>, held': seq<Byte>, j: Job)
    requires AllHeld(held, j) && held <= held'
    ensures AllHeld(held', j)
  {
    forall p | p in j.done
      ensures Within(held', p)
    {
      WithinMore(held, held', p);
    }
  }

  /** What a truthful peer may send in a scene. */
  predicate Honest(s: Scene, stream: seq<Byte>, off: int, payload: seq<Byte>, syn: bool, fin: bool, ackOff: int)
  {
    TruthfulAt(stream, s.state, s.rcv, s.una, |s.held| + (if s.finHeld then 1 else 0), off, payload, syn, fin, ackOff)
  }

  /** The payload a Deliver event stands for. */
  function Payload(stream: seq<Byte>, off: int, n: nat): seq<Byte>
  {
    if 0 <= off && off + n <= |stream| then stream[off..off + n] else []
  }

  /** What each event does to a connection in absolute offsets. A freed socket sees none. */
  ghost predicate Happens(stream: seq<Byte>, e: Event, a: Scene, b: Scene)
  {
    if a.state == Free then b == a else
    match e
    case Deliver(off, n, syn, fin, hasAck, ackOff) =>
      var payload := Payload(stream, off, n);
      b == if Honest(a, stream, off, payload, syn, fin, ackOff)
           then Arrive(a, stream, off, payload, syn, fin, hasAck, ackOff) else a
    case Reset => b == a.(reset := true, state := if a.state == Linger then Free else a.state)
    case PeerGets(i) => b == if i < |a.wire| then a.(held := Extend(a.held, a.wire[i])) else a
    case PeerGetsFin => b == if a.finSent && a.held == a.out then a.(finHeld := true) else a
    case Read(len) => b == if len > 0 then Drained(a, len) else a
    case Open(t, buf) =>
      b == if t !in a.jobs && a.state == Established && !a.reset && !a.finSent
           then a.(jobs := a.jobs[t := Job(buf, 0, false, 0, 0, 0, [])]) else a
    case Close =>
      b == if a.jobs == map[] && a.SndOff() - a.una < TWO31 - 1 && a.state == Established
           then (if a.reset then a.(state := Free) else a.(state := Linger, finSent := true)) else a
    case _ => Sends(e, a, b)
  }

  /** The steps of a send under way. */
  ghost predicate Sends(e: Event, a: Scene, b: Scene)
  {
    match e
    case Number(t) =>
      if t in a.jobs && !a.jobs[t].claimed && a.jobs[t].sent < |a.jobs[t].buf| && a.SndOff() - a.una < TWO31 - MSS
      then var j := Claimant(a.jobs[t], 0, |a.out|);
           b == a.(jobs := a.jobs[t := j], out := a.out + Current(j).bytes)
      else b == a
    case Put(t) =>
      if t in a.jobs && a.jobs[t].claimed
      then a.jobs[t].sent + a.jobs[t].chunk <= |a.jobs[t].buf| && b == a.(wire := a.wire + [Current(a.jobs[t])])
      else b == a
    case Look(t) =>
      if t in a.jobs && a.jobs[t].claimed then
        var j := a.jobs[t];
        var past := a.una - j.off - j.chunk;
        || (b == a && (a.reset || past < 0 || past >= TWO31))
        || (!a.reset && past >= 0 && j.sent + j.chunk <= |j.buf| && b == a.(jobs := a.jobs[t := Advanced(j)]))
      else b == a
    case Done(t) =>
      b == if t in a.jobs && !a.jobs[t].claimed && a.jobs[t].sent == |a.jobs[t].buf|
           then a.(jobs := a.jobs - {t}) else a
    case GiveUp(t) => b == if t in a.jobs then a.(jobs := a.jobs - {t}, reset := true) else a
    case Killed(t) => b == a.(jobs := a.jobs - {t})
    case _ => b == a
  }

  /** Something arrives, here or at the peer. */
  method FromNetwork(c: Conn, e: Event)
    requires c.Valid() && c.state != Free && IsArrival(e)
    modifies c`state, c`rcvNxt, c`sndUna, c`peerFin, c`una, c`rcv, c`reset, c`held, c`finHeld, c.ring`head, c.ring.buf
    ensures c.Valid() && (old(c.state) != SynSent ==> c.state != SynSent && c.Edge() >= old(c.Edge()))
    ensures old(c.held) <= c.held
    ensures Happens(c.stream, e, old(c.View()), c.View())
  {
    hide Queue, W, SeqDiff, JobOk, Extend, Arrive, TruthfulAt, Unnumbered, Conn.Edge, Conn.RecvOk, Conn.SendOk, Honest,
         Payload;
    match e
    case Deliver(_, _, _, _, _, _) => Delivering(c, e);
    case Reset => c.InputReset();
    case PeerGets(i) => if i < |c.wire| { c.PeerTakes(i); }
    case PeerGetsFin => if c.finSent && c.held == c.out { c.PeerTakesFin(); }
  }

  /** A segment arrives here. */
  method Delivering(c: Conn, e: Event)
    requires c.Valid() && c.state != Free && e.Deliver?
    modifies c`state, c`rcvNxt, c`sndUna, c`peerFin, c`una, c`rcv, c.ring`head, c.ring.buf
    ensures c.Valid() && (old(c.state) != SynSent ==> c.state != SynSent && c.Edge() >= old(c.Edge()))
    ensures Happens(c.stream, e, old(c.View()), c.View())
  {
    hide Queue, W, SeqDiff, JobOk, Extend, Arrive, TruthfulAt, Unnumbered, Payload, Conn.Edge, Conn.RecvOk, Conn.SendOk;
    var payload := Payload(c.stream, e.off, e.n);
    if c.Truthful(e.off, payload, e.syn, e.fin, e.ackOff) {
      var reply := c.Input(W(c.irs + 1 + e.off), W(c.iss + 1 + e.ackOff), e.syn, e.fin, e.hasAck, payload, e.off,
                           e.ackOff);
    }
  }

  /** A task makes one pass through the socket. */
  method FromTask(c: Conn, e: Event) returns (got: seq<Byte>, eof: bool, ghost sent: seq<Job>)
    requires c.Valid() && c.state != Free && !IsArrival(e)
    modifies c`state, c`delivered, c`jobs, c`sndNxt, c`out, c`wire, c`reset, c`finSent, c.ring`tail
    ensures c.Valid() && c.delivered == old(c.delivered) + got
    ensures eof ==> c.state != SynSent && c.delivered == c.stream
    ensures old(c.state) != SynSent ==> c.state != SynSent && c.Edge() >= old(c.Edge())
    ensures forall j :: j in sent ==> AllHeld(c.held, j)
    ensures Happens(c.stream, e, old(c.View()), c.View())
    ensures eof == SeesEnd(e, old(c.View())) && sent == Completed(e, old(c.jobs))
  {
    hide Queue, W, SeqDiff, JobOk, AllHeld, Sends, Unnumbered, Conn.RecvOk, Conn.SendOk, Conn.Edge;
    got, eof, sent := [], false, [];
    match e
    case Read(len) => got, eof := Reading(c, len);
    case Open(t, buf) => Opening(c, t, buf);
    case Close =>
      NoneLeft(c.jobs);
      if c.jobs == map[] && c.SndOff() - c.una < TWO31 - 1 && c.state == Established { c.Release(); }
    case Done(_) => sent := Ending(c, e);
    case GiveUp(_) => sent := Ending(c, e);
    case Killed(_) => sent := Ending(c, e);
    case Number(_) => Sending(c, e);
    case Put(_) => Sending(c, e);
    case Look(_) => Sending(c, e);
  }

  method Reading(c: Conn, len: nat) returns (got: seq<Byte>, eof: bool)
    requires c.Valid() && c.state != Free
    modifies c`delivered, c.ring`tail
    ensures c.Valid() && c.delivered == old(c.delivered) + got
    ensures eof ==> c.state != SynSent && c.delivered == c.stream
    ensures c.state != SynSent ==> c.Edge() >= old(c.Edge())
    ensures Happens(c.stream, Read(len), old(c.View()), c.View()) && eof == SeesEnd(Read(len), old(c.View()))
  {
    hide Queue, W, SeqDiff, JobOk, Unnumbered, Conn.RecvOk, Conn.SendOk, Conn.Edge;
    got, eof := [], false;
    if len > 0 {
      var r := c.Recv(len);
      if r.Data? { got := r.bytes; }
      eof := r.Eof?;
    }
  }

  method Opening(c: Conn, t: nat, buf: seq<Byte>)
    requires c.Valid() && c.state != Free
    modifies c`jobs
    ensures c.Valid() && Happens(c.stream, Open(t, buf), old(c.View()), c.View())
  {
    hide Queue, W, SeqDiff, JobOk, Unnumbered, Conn.RecvOk, Conn.SendOk, Conn.Edge;
    ghost var jobs := c.jobs;
    UnnumberedAt(jobs, t);
    if t !in c.jobs {
      var ok := c.SendOpen(t, buf);
      UnnumberedSet(jobs, t, Job(buf, 0, false, 0, 0, 0, []));
    }
  }

  lemma NoneLeft(jobs: map<nat, Job>)
    ensures jobs == map[] <==> Unnumbered(jobs) == map[]
  {
    if Unnumbered(jobs) == map[] {
      forall t
        ensures t !in jobs
      {
        UnnumberedAt(jobs, t);
      }
    }
  }

  /** A step of a send already under way. */
  method Sending(c: Conn, e: Event)
    requires c.Valid() && (e.Number? || e.Put? || e.Look?)
    modifies c`jobs, c`sndNxt, c`out, c`wire
    ensures c.Valid() && Sends(e, old(c.View()), c.View())
  {
    hide Queue, W, SeqDiff, JobOk, Within, Unnumbered, Sends, Conn.RecvOk, Conn.SendOk, Conn.View;
    match e
    case Number(t) => Numbering(c, t);
    case Put(t) => Putting(c, t);
    case Look(t) => Looking(c, t);
  }

  method Numbering(c: Conn, t: nat)
    requires c.Valid()
    modifies c`jobs, c`sndNxt, c`out
    ensures c.Valid() && Sends(Number(t), old(c.View()), c.View())
  {
    hide Queue, W, SeqDiff, JobOk, Within, Unnumbered, Conn.RecvOk, Conn.SendOk;
    ghost var jobs := c.jobs;
    UnnumberedAt(jobs, t);
    if t in c.jobs && !c.jobs[t].claimed && c.jobs[t].sent < |c.jobs[t].buf| && c.SndOff() - c.una < TWO31 - MSS {
      c.Claim(t);
      UnnumberedSet(jobs, t, c.jobs[t]);
    }
  }

  method Putting(c: Conn, t: nat)
    requires c.Valid()
    modifies c`wire
    ensures c.Valid() && Sends(Put(t), old(c.View()), c.View())
  {
    hide Queue, W, SeqDiff, JobOk, Within, Unnumbered, Conn.RecvOk, Conn.SendOk;
    UnnumberedAt(c.jobs, t);
    if t in c.jobs && c.jobs[t].claimed { c.Transmit(t); }
  }

  method Looking(c: Conn, t: nat)
    requires c.Valid()
    modifies c`jobs
    ensures c.Valid() && Sends(Look(t), old(c.View()), c.View())
  {
    hide Queue, W, SeqDiff, JobOk, Within, Unnumbered, Conn.RecvOk, Conn.SendOk;
    ghost var jobs := c.jobs;
    UnnumberedAt(jobs, t);
    if t in c.jobs && c.jobs[t].claimed {
      var acked := c.Poll(t);
      UnnumberedSet(jobs, t, c.jobs[t]);
    }
  }

  /** The send an event reports complete. */
  function Completed(e: Event, jobs: map<nat, Job>): seq<Job>
  {
    if e.Done? && e.t in jobs && !jobs[e.t].claimed && jobs[e.t].sent == |jobs[e.t].buf| then [jobs[e.t]] else []
  }

  /** A read that finds nothing more to come. */
  predicate SeesEnd(e: Event, s: Scene) { e.Read? && e.len > 0 && s.buffered == [] && s.peerFin }

  /** A send returns. */
  method Ending(c: Conn, e: Event) returns (ghost sent: seq<Job>)
    requires c.Valid() && (e.Done? || e.GiveUp? || e.Killed?)
    modifies c`jobs, c`reset
    ensures c.Valid() && (forall j :: j in sent ==> AllHeld(c.held, j)) && Sends(e, old(c.View()), c.View())
    ensures sent == Completed(e, old(c.jobs))
  {
    hide Queue, W, SeqDiff, JobOk, Within, Unnumbered, Join, Conn.RecvOk, Conn.SendOk;
    sent := [];
    ghost var jobs := c.jobs;
    UnnumberedAt(jobs, e.t);
    UnnumberedDrop(jobs, e.t);
    match e
    case Done(t) =>
      if t in c.jobs && !c.jobs[t].claimed && c.jobs[t].sent == |c.jobs[t].buf| {
        sent := [c.jobs[t]];
        var n := c.SendDone(t);
      }
    case GiveUp(t) => if t in c.jobs { c.SendFail(t); }
    case Killed(t) => c.SendKilled(t);
  }

  /** The event is a read that sees the end of the stream. */
  predicate Ends(e: Event, s: Scene) { s.state != Free && SeesEnd(e, s) }

  /** Sends without their wrapped numbers. */
  function Plain(sent: seq<Job>): seq<Job>
  {
    seq(|sent|, i requires 0 <= i < |sent| => sent[i].(seqNo := 0))
  }

  /** The sends that the events of a run report complete, each as the scene before it shows it. */
  function Reported(events: seq<Event>, scenes: seq<Scene>): seq<Job>
    requires |events| == |scenes|
  {
    if events == [] then []
    else
      var k := |events| - 1;
      Reported(events[..k], scenes[..k]) + if scenes[k].state == Free then [] else Completed(events[k], scenes[k].jobs)
  }

  /** What the socket reports is what the scene shows. */
  lemma ReportedHere(c: Conn, e: Event, sent: seq<Job>)
    requires c.Valid()
    ensures c.View().state == c.state
    ensures Plain(sent + Completed(e, c.jobs)) == Plain(sent) + Completed(e, c.View().jobs)
  {
    hide Conn.RecvOk, Conn.SendOk, Unnumbered;
    if e.Done? { UnnumberedAt(c.jobs, e.t); }
  }

  /** What was reported after these events. */
  ghost predicate Tally(events: seq<Event>, scenes: seq<Scene>, eof: bool, sent: seq<Job>)
    requires |events| == |scenes|
  {
    && (eof <==> exists k :: 0 <= k < |events| && Ends(events[k], scenes[k]))
    && Plain(sent) == Reported(events, scenes)
  }

  lemma TallyNone(events: seq<Event>, scenes: seq<Scene>)
    ensures Tally(events[..0], scenes[..0], false, [])
  {}

  lemma TallyNext(events: seq<Event>, scenes: seq<Scene>, eof: bool, sent: seq<Job>, e: Event, s: Scene, eof': bool,
                  sent': seq<Job>)
    requires |events| == |scenes| && Tally(events, scenes, eof, sent)
    requires if s.state == Free then eof' == eof && sent' == sent
             else eof' == (eof || SeesEnd(e, s)) && Plain(sent') == Plain(sent) + Completed(e, s.jobs)
    ensures Tally(events + [e], scenes + [s], eof', sent')
  {
    var es, ss, n := events + [e], scenes + [s], |events|;
    assert es[..n] == events && ss[..n] == scenes;
    assert forall k :: 0 <= k < n ==> es[k] == events[k] && ss[k] == scenes[k];
    if Ends(e, s) { assert Ends(es[n], ss[n]); }
  }

  /** Any run. Seen in absolute offsets each event does exactly what it should,
      however often the 32-bit numbers wrap. What readers got is a prefix of the
      peer's stream, all of it once end of stream was reported; every send
      reported complete is with the peer; the advertised window never shrinks
      from the right. */
  method Run(c: Conn, events: seq<Event>)
    returns (got: seq<Byte>, eof: bool, ghost sent: seq<Job>, ghost scenes: seq<Scene>)
    requires c.Valid()
    modifies c, c.ring, c.ring.buf
    ensures c.Valid() && c.delivered == old(c.delivered) + got
    ensures c.state != SynSent ==> c.delivered <= c.stream
    ensures eof ==> c.delivered == c.stream
    ensures old(c.state) != SynSent ==> c.Edge() >= old(c.Edge())
    ensures forall j :: j in sent ==> AllHeld(c.held, j)
    ensures |scenes| == |events| + 1 && scenes[0] == old(c.View()) && scenes[|events|] == c.View()
    // End of stream is reported exactly if some event saw it, and the sends reported are those completed, in order.
    ensures Tally(events, scenes[..|events|], eof, sent)
    ensures forall k :: 0 <= k < |events| ==> Happens(c.stream, events[k], scenes[k], scenes[k + 1])
  {
    hide Queue, W, SeqDiff, JobOk, AllHeld, Join, Happens, Tally, Plain, Reported, Completed, SeesEnd, Unnumbered,
         Conn.RecvOk, Conn.SendOk, Conn.Edge, Conn.View;
    got, eof, sent, scenes := [], false, [], [c.View()];
    assert Tally(events[..0], scenes[..0], eof, sent) by { TallyNone(events, scenes); }
    for k := 0 to |events|
      invariant c.Valid() && c.delivered == old(c.delivered) + got
      invariant old(c.state) != SynSent ==> c.state != SynSent && c.Edge() >= old(c.Edge())
      invariant eof ==> c.state != SynSent && c.delivered == c.stream
      invariant forall j :: j in sent ==> AllHeld(c.held, j)
      invariant |scenes| == k + 1 && scenes[0] == old(c.View()) && scenes[k] == c.View()
      invariant Tally(events[..k], scenes[..k], eof, sent)
      invariant forall i :: 0 <= i < k ==> Happens(c.stream, events[i], scenes[i], scenes[i + 1])
    {
      var more;
      ghost var before, eof0, sent0 := c.View(), eof, sent;
      ReportedHere(c, events[k], sent);
      more, eof, sent := OneEvent(c, events[k], eof, sent);
      TallyNext(events[..k], scenes[..k], eof0, sent0, events[k], before, eof, sent);
      got, scenes := got + more, scenes + [c.View()];
      assert events[..k + 1] == events[..k] + [events[k]] && scenes[..k + 1] == scenes[..k] + [before];
    }
    assert events[..|events|] == events;
    if c.state != SynSent { PrefixOfStream(c); }
  }

  predicate IsArrival(e: Event) { e.Deliver? || e.Reset? || e.PeerGets? || e.PeerGetsFin? }

  /** One event; a freed socket sees none. */
  method OneEvent(c: Conn, e: Event, eof0: bool, ghost sent0: seq<Job>)
    returns (more: seq<Byte>, eof: bool, ghost sent: seq<Job>)
    requires c.Valid() && (eof0 ==> c.state != SynSent && c.delivered == c.stream)
    requires forall j :: j in sent0 ==> AllHeld(c.held, j)
    modifies c, c.ring, c.ring.buf
    ensures c.Valid() && c.delivered == old(c.delivered) + more
    ensures old(c.state) != SynSent ==> c.state != SynSent && c.Edge() >= old(c.Edge())
    ensures eof ==> c.state != SynSent && c.delivered == c.stream
    ensures forall j :: j in sent ==> AllHeld(c.held, j)
    ensures if old(c.state) == Free then eof == eof0 && sent == sent0
            else eof == (eof0 || SeesEnd(e, old(c.View()))) && sent == sent0 + Completed(e, old(c.jobs))
    ensures Happens(c.stream, e, old(c.View()), c.View())
  {
    hide Queue, W, SeqDiff, JobOk, AllHeld, Join, Conn.RecvOk, Conn.SendOk, Conn.Edge, Unnumbered;
    more, eof, sent := [], eof0, sent0;
    if c.state == Free { return; }
    if IsArrival(e) {
      Arrives(c, e, sent0);
    } else {
      var end;
      ghost var done;
      more, end, done := FromTask(c, e);
      if c.state != SynSent { PrefixOfStream(c); }
      eof, sent := eof || end, sent + done;
    }
  }

  method Arrives(c: Conn, e: Event, ghost sent: seq<Job>)
    requires c.Valid() && c.state != Free && IsArrival(e) && forall j :: j in sent ==> AllHeld(c.held, j)
    modifies c`state, c`rcvNxt, c`sndUna, c`peerFin, c`una, c`rcv, c`reset, c`held, c`finHeld, c.ring`head, c.ring.buf
    ensures c.Valid() && (old(c.state) != SynSent ==> c.state != SynSent && c.Edge() >= old(c.Edge()))
    ensures forall j :: j in sent ==> AllHeld(c.held, j)
    ensures Happens(c.stream, e, old(c.View()), c.View())
  {
    hide Happens, Conn.View;
    ghost var was := c.held;
    FromNetwork(c, e);
    forall j | j in sent
      ensures AllHeld(c.held, j)
    {
      AllHeldMore(was, c.held, j);
    }
  }

  lemma PrefixOfStream(c: Conn)
    requires c.Valid() && c.state != SynSent
    ensures c.delivered <= c.stream
  {
    assert c.delivered <= c.delivered + c.ring.Bytes();
  }
}
