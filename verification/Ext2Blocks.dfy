/** Raw 1 KiB blocks of the ext2 volume: little-endian words, indirect pointer
    blocks and splicing. */
module Ext2Blocks {
  import opened Machine

  /** One filesystem block; the driver only accepts 1 KiB blocks. */
  type Block = b: seq<Byte> | |b| == 1024 witness seq(1024, i => 0)

  function Zero(): (b: Block)
    ensures forall i :: 0 <= i < 1024 ==> b[i] == 0
  {
    seq(1024, i => 0)
  }

  /** Little-endian value of a few bytes. */
  function Le(s: seq<Byte>): nat
  {
    if s == [] then 0 else s[0] as int + 256 * Le(s[1..])
  }

  lemma Le2(s: seq<Byte>)
    requires |s| == 2
    ensures Le(s) == s[0] as int + 256 * (s[1] as int) < 65536
  {
    assert Le(s[1..]) == s[1] as int + 256 * Le(s[1..][1..]);
  }

  lemma Le4(s: seq<Byte>)
    requires |s| == 4
    ensures Le(s) == s[0] as int + 256 * (s[1] as int) + 65536 * (s[2] as int) + 16777216 * (s[3] as int) < TWO32
  {
    Le2(s[2..]);
    assert s[1..][1..] == s[2..];
    assert Le(s[1..]) == s[1] as int + 256 * Le(s[2..]);
  }

  function U16(b: Block, off: nat): (v: nat)
    requires off + 2 <= 1024
    ensures v < 65536
  {
    Le2(b[off..off + 2]);
    Le(b[off..off + 2])
  }

  function U32(b: Block, off: nat): (v: nat)
    requires off + 4 <= 1024
    ensures v < TWO32
  {
    Le4(b[off..off + 4]);
    Le(b[off..off + 4])
  }

  function Bytes2(v: nat): (s: seq<Byte>)
    requires v < 65536
    ensures |s| == 2
  {
    [v % 256, v / 256]
  }

  function Bytes4(v: nat): (s: seq<Byte>)
    requires v < TWO32
    ensures |s| == 4
  {
    [v % 256, v / 256 % 256, v / 65536 % 256, v / 16777216]
  }

  /** Overwrite the bytes at `off` with `s`, as memcpy into the buffer does. */
  function Splice(b: Block, off: nat, s: seq<Byte>): (r: Block)
    requires off + |s| <= 1024
    ensures forall i :: 0 <= i < 1024 ==> r[i] == if off <= i < off + |s| then s[i - off] else b[i]
  {
    b[..off] + s + b[off + |s|..]
  }

  lemma LeBytes2(v: nat)
    requires v < 65536
    ensures Le(Bytes2(v)) == v
  {
    Le2(Bytes2(v));
  }

  lemma LeBytes4(v: nat)
    requires v < TWO32
    ensures Le(Bytes4(v)) == v
  {
    Le4(Bytes4(v));
    var a := v / 256;
    var c := a / 256;
    var e := c / 256;
    assert v == 256 * a + v % 256;
    assert a == 256 * c + a % 256;
    assert c == 256 * e + c % 256;
    assert v / 65536 == c && v / 16777216 == e;
  }

  lemma BytesLe4(s: seq<Byte>)
    requires |s| == 4
    ensures Le(s) < TWO32 && Bytes4(Le(s)) == s
  {
    Le4(s);
    var v := Le(s);
    var a := s[1] as int + 256 * (s[2] as int) + 65536 * (s[3] as int);
    var c := s[2] as int + 256 * (s[3] as int);
    assert v == s[0] as int + 256 * a && v / 256 == a && v % 256 == s[0];
    assert a == s[1] as int + 256 * c && a / 256 == c && a % 256 == s[1];
    assert c / 256 == s[3] && c % 256 == s[2];
    assert v / 65536 == c && v / 16777216 == s[3];
  }

  /** The c-th block number held by an indirect block. */
  function Child(b: Block, c: nat): (p: nat)
    requires c < 256
    ensures p < TWO32
  {
    U32(b, 4 * c)
  }

  /** The pointer table seen as 256 words, as `(uint32_t *)indirect` reads it. */
  function Children(b: Block): (e: seq<nat>)
    ensures |e| == 256
    ensures forall c :: 0 <= c < 256 ==> e[c] == Child(b, c)
  {
    seq(256, c requires 0 <= c < 256 => Child(b, c))
  }

  function Word(e: seq<nat>, j: nat): (b: Byte)
    requires |e| == 256 && j < 1024
    requires forall c :: 0 <= c < 256 ==> e[c] < TWO32
  {
    Bytes4(e[j / 4])[j % 4]
  }

  /** The bytes of a pointer table held in memory as words. */
  function Table(e: seq<nat>): (b: Block)
    requires |e| == 256
    requires forall c :: 0 <= c < 256 ==> e[c] < TWO32
  {
    seq(1024, j requires 0 <= j < 1024 => Word(e, j))
  }

  /** Writing a pointer table and reading it back gives the same pointers. */
  lemma TableRoundTrip(e: seq<nat>, c: nat)
    requires |e| == 256 && c < 256
    requires forall c :: 0 <= c < 256 ==> e[c] < TWO32
    ensures Child(Table(e), c) == e[c]
  {
    var j := 4 * c;
    var t := Table(e);
    forall x | 0 <= x < 4
      ensures t[j..j + 4][x] == Bytes4(e[c])[x]
    {
      assert (j + x) / 4 == c && (j + x) % 4 == x;
      assert t[j + x] == Word(e, j + x);
    }
    assert t[j..j + 4] == Bytes4(e[c]);
    LeBytes4(e[c]);
  }

  lemma ChildrenOfTable(e: seq<nat>)
    requires |e| == 256
    requires forall c :: 0 <= c < 256 ==> e[c] < TWO32
    ensures Children(Table(e)) == e
  {
    forall c | 0 <= c < 256
      ensures Children(Table(e))[c] == e[c]
    {
      TableRoundTrip(e, c);
    }
  }

  /** Reading a pointer block as words and writing the words back gives the same block. */
  lemma TableOfChildren(b: Block)
    ensures Table(Children(b)) == b
  {
    forall j | 0 <= j < 1024
      ensures Word(Children(b), j) == b[j]
    {
      var o := 4 * (j / 4);
      BytesLe4(b[o..o + 4]);
      assert b[o..o + 4][j % 4] == b[j];
    }
  }

  lemma TableOfZeros()
    ensures Table(seq(256, c => 0)) == Zero()
  {
    var z := seq(256, c => 0);
    forall j | 0 <= j < 1024
      ensures Table(z)[j] == 0
    {
      assert Table(z)[j] == Word(z, j) && z[j / 4] == 0;
    }
  }
}
