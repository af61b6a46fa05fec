/** The Internet checksum (kernel/net.c:76-96) as IP headers and TCP segments use
    it (kernel/net.c:180-190, kernel/tcp.c:115-125); RFC 1071. */
module Checksum {
  import opened Machine

  /** Sum of the 16-bit big-endian words; a last odd byte is padded with zero. */
  function Sum16(data: seq<Byte>): nat
  {
    if |data| == 0 then 0
    else if |data| == 1 then data[0] as int * 256
    else data[0] as int * 256 + data[1] as int + Sum16(data[2..])
  }

  lemma {:induction false} SumBound(data: seq<Byte>)
    ensures Sum16(data) <= (|data| + 1) / 2 * 0xFFFF
  {
    if |data| > 1 { SumBound(data[2..]); }
  }

  /** Summing even-length pieces one after the other is summing their concatenation. */
  lemma {:induction false} SumConcat(a: seq<Byte>, b: seq<Byte>)
    requires |a| % 2 == 0
    ensures Sum16(a + b) == Sum16(a) + Sum16(b)
  {
    if a == [] {
      assert a + b == b;
    } else {
      assert (a + b)[2..] == a[2..] + b;
      SumConcat(a[2..], b);
    }
  }

  /** net_csum_add in 32-bit arithmetic: it never wraps at the lengths the stack sends. */
  method CsumAdd(sum0: nat, data: seq<Byte>) returns (sum: nat)
    requires sum0 < TWO32
    ensures sum == W(sum0 + Sum16(data))
    ensures sum0 <= 0x8000_0000 && |data| <= 0xFFFF ==> sum == sum0 + Sum16(data)
  {
    hide Sum16;
    sum := sum0;
    var i := 0;
    assert data[0..] == data;
    while |data| - i > 1
      invariant 0 <= i <= |data| && sum < TWO32
      invariant W(sum + Sum16(data[i..])) == W(sum0 + Sum16(data))
      decreases |data| - i
    {
      SumHead(data[i..]);
      assert data[i..][2..] == data[i + 2..];
      var w := data[i] as int * 256 + data[i + 1] as int;
      WSum(sum + w, Sum16(data[i + 2..]));
      sum := W(sum + w);
      i := i + 2;
    }
    SumTail(data[i..]);
    if |data| - i > 0 {
      sum := W(sum + data[i] as int * 256);
    }
    SumBound(data);
  }

  lemma SumHead(d: seq<Byte>)
    requires |d| > 1
    ensures Sum16(d) == d[0] as int * 256 + d[1] as int + Sum16(d[2..])
  {}

  lemma SumTail(d: seq<Byte>)
    requires |d| <= 1
    ensures Sum16(d) == if |d| == 0 then 0 else d[0] as int * 256
  {}

  // ------------------------------------------------------------------------- folding

  /** Carries folded back in until 16 bits are left. */
  function Fold(s: nat): (f: nat)
    ensures f < 0x10000
    decreases s
  {
    if s < 0x10000 then s else Fold(s % 0x10000 + s / 0x10000)
  }

  /** Folding keeps the value modulo 65535, and makes zero of nothing but zero. */
  lemma {:induction false} FoldMod(s: nat)
    ensures Fold(s) < 0x10000 && Fold(s) % 0xFFFF == s % 0xFFFF && (Fold(s) == 0 <==> s == 0)
    decreases s
  {
    if s >= 0x10000 {
      var q, r := s / 0x10000, s % 0x10000;
      FoldMod(r + q);
      assert s == q * 0xFFFF + (r + q);
      ModCarry(r + q, q);
    }
  }

  lemma ModCarry(x: nat, q: nat)
    ensures (q * 0xFFFF + x) % 0xFFFF == x % 0xFFFF
  {
    var p := x / 0xFFFF;
    assert q * 0xFFFF + x == (q + p) * 0xFFFF + x % 0xFFFF;
  }

  /** net_csum_fin, before the bytes are swapped into network order. */
  method CsumFin(sum0: nat) returns (c: nat)
    requires sum0 < TWO32
    ensures c == 0xFFFF - Fold(sum0) && c < 0x10000
  {
    var sum := sum0;
    while sum / 0x10000 != 0
      invariant Fold(sum) == Fold(sum0)
      decreases sum
    {
      sum := sum % 0x10000 + sum / 0x10000;
    }
    c := 0xFFFF - sum;
  }

  // --------------------------------------------------------------- sending and checking

  /** data with the 16-bit value c at offset k, high byte first. */
  function Store(data: seq<Byte>, k: nat, c: nat): seq<Byte>
    requires k + 2 <= |data| && c < 0x10000
  {
    data[k := c / 256][k + 1 := c % 256]
  }

  lemma {:induction false} SumStore(data: seq<Byte>, k: nat, c: nat)
    requires k % 2 == 0 && k + 2 <= |data| && c < 0x10000 && data[k] == 0 && data[k + 1] == 0
    ensures Sum16(Store(data, k, c)) == Sum16(data) + c
  {
    var after := Store(data, k, c);
    if k == 0 {
      assert after[2..] == data[2..];
    } else {
      assert after[2..] == Store(data[2..], k - 2, c);
      SumStore(data[2..], k - 2, c);
    }
  }

  /** A sum completed by its own complement folds to all ones. */
  lemma Completed(s: nat)
    ensures Fold(s + (0xFFFF - Fold(s))) == 0xFFFF
  {
    FoldMod(s);
    var f := Fold(s);
    var t := s + (0xFFFF - f);
    FoldMod(t);
    var a, b := s / 0xFFFF, f / 0xFFFF;
    assert s == a * 0xFFFF + s % 0xFFFF && f == b * 0xFFFF + f % 0xFFFF;
    assert t == (a - b + 1) * 0xFFFF;
    Multiple(t, a - b + 1);
  }

  lemma Multiple(t: nat, m: int)
    requires t == m * 0xFFFF
    ensures t % 0xFFFF == 0
  {}

  /** Put the checksum of a message, over what `base` stands for and the message
      itself, into its checksum field. The receiver's sum then comes out as zero. */
  method Finish(base: seq<Byte>, data: seq<Byte>, k: nat) returns (packet: seq<Byte>)
    requires |base| % 2 == 0 && |base| <= 1000 && |data| <= 0xFFFF
    requires k % 2 == 0 && k + 2 <= |data| && data[k] == 0 && data[k + 1] == 0
    ensures |packet| == |data| && forall i :: 0 <= i < |data| && i != k && i != k + 1 ==> packet[i] == data[i]
    ensures 0xFFFF - Fold(Sum16(base + packet)) == 0
  {
    hide Sum16, Fold;
    SumBound(base);
    var sum := CsumAdd(0, base);
    SumBound(data);
    sum := CsumAdd(sum, data);
    var c := CsumFin(sum);
    packet := Store(data, k, c);
    SumStore(data, k, c);
    SumConcat(base, packet);
    Completed(sum);
  }
}
