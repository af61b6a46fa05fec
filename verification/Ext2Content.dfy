/** File contents as the bytes reachable through an inode's pointers, and how
    each kind of change to the volume affects them. */
module Ext2Content {
  import opened Machine
  import opened Ext2Blocks
  import opened Ext2Dirents
  import opened Ext2Disk

  const MAX_BYTES: nat := 274432  // 268 blocks of 1 KiB

  /** The slot holding the bi-th block of a file. */
  function SlotOf(bi: nat): (k: nat)
    requires bi < FILE_BLOCKS
    ensures k < SLOTS && k != 12
  {
    if bi < 12 then bi else bi + 1
  }

  /** Byte x of inode i; holes read as zero. */
  function ByteAt(g: Geo, d: Disk, i: nat, x: nat): Byte
    requires HasInode(g, d, i) && x < MAX_BYTES
  {
    var p := Ptr(g, d, i, SlotOf(x / 1024));
    if p == 0 || p >= g.blocks then 0 else d.data[p][x % 1024]
  }

  function FileSize(g: Geo, d: Disk, i: nat): (n: nat)
    requires HasInode(g, d, i)
    ensures n <= MAX_BYTES
  {
    if d.itab[i - 1].size <= MAX_BYTES then d.itab[i - 1].size else MAX_BYTES
  }

  /** The file as a byte sequence. */
  function Contents(g: Geo, d: Disk, i: nat): (s: seq<Byte>)
    requires HasInode(g, d, i)
    ensures |s| == FileSize(g, d, i)
    ensures forall x :: 0 <= x < |s| ==> s[x] == ByteAt(g, d, i, x)
  {
    seq(FileSize(g, d, i), x requires 0 <= x < FileSize(g, d, i) => ByteAt(g, d, i, x))
  }

  /** Bytes of linked blocks past the end of the file are zero. */
  ghost predicate TailZero(g: Geo, d: Disk, i: nat)
    requires HasInode(g, d, i)
  {
    forall x :: FileSize(g, d, i) <= x < MAX_BYTES ==> ByteAt(g, d, i, x) == 0
  }

  /** Inode j and every block it names are the same on both volumes. */
  ghost predicate SameNode(g: Geo, d: Disk, d': Disk, j: nat)
  {
    && InodeOk(g, d, j) && Shape(g, d') && d'.itab[j - 1] == d.itab[j - 1]
    && forall k :: 0 <= k < SLOTS && 0 < Ptr(g, d, j, k) < g.blocks ==>
         d'.data[Ptr(g, d, j, k)] == d.data[Ptr(g, d, j, k)]
  }

  lemma SameNodePtr(g: Geo, d: Disk, d': Disk, j: nat, k: nat)
    requires SameNode(g, d, d', j) && k < SLOTS
    ensures HasInode(g, d', j) && Ptr(g, d', j, k) == Ptr(g, d, j, k)
  {
    assert 0 < Ptr(g, d, j, 12) < g.blocks ==> d'.data[Ptr(g, d, j, 12)] == d.data[Ptr(g, d, j, 12)];
  }

  lemma SameNodeByte(g: Geo, d: Disk, d': Disk, j: nat, x: nat)
    requires SameNode(g, d, d', j) && x < MAX_BYTES
    ensures HasInode(g, d', j) && ByteAt(g, d', j, x) == ByteAt(g, d, j, x)
  {
    SameNodePtr(g, d, d', j, SlotOf(x / 1024));
  }

  lemma SameNodeContents(g: Geo, d: Disk, d': Disk, j: nat)
    requires SameNode(g, d, d', j)
    ensures HasInode(g, d', j) && Contents(g, d', j) == Contents(g, d, j)
    ensures TailZero(g, d, j) ==> TailZero(g, d', j)
  {
    forall x | 0 <= x < MAX_BYTES
      ensures HasInode(g, d', j) && ByteAt(g, d', j, x) == ByteAt(g, d, j, x)
    {
      SameNodeByte(g, d, d', j, x);
    }
  }

  lemma SameNodeTrans(g: Geo, d: Disk, d1: Disk, d2: Disk, j: nat)
    requires SameNode(g, d, d1, j) && SameNode(g, d1, d2, j)
    ensures SameNode(g, d, d2, j)
  {
    forall k | 0 <= k < SLOTS && 0 < Ptr(g, d, j, k) < g.blocks
      ensures d2.data[Ptr(g, d, j, k)] == d.data[Ptr(g, d, j, k)]
    {
      SameNodePtr(g, d, d1, j, k);
    }
  }

  lemma OutsideSameNode(g: Geo, d: Disk, d': Disk, live: set<nat>, owner: Owner, j: nat)
    requires Inv(g, d, live, owner) && Outside(g, d, d', live) && j in live
    ensures SameNode(g, d, d', j)
  {
    assert InodeOk(g, d, j);
    forall k | 0 <= k < SLOTS && 0 < Ptr(g, d, j, k) < g.blocks
      ensures d'.data[Ptr(g, d, j, k)] == d.data[Ptr(g, d, j, k)]
    {
      OutsideSlot(g, d, d', live, owner, j, k);
    }
  }

  /** On d, inode i holds what it held on d0 overlaid with s at off; every other live node is as on d0. */
  ghost predicate Overlaid(g: Geo, d0: Disk, d: Disk, live: set<nat>, i: nat, off: nat, s: seq<Byte>)
    requires InodeOk(g, d0, i) && InodeOk(g, d, i)
  {
    && (forall j :: j in live && j != i ==> SameNode(g, d0, d, j))
    && (forall x :: 0 <= x < MAX_BYTES ==>
          ByteAt(g, d, i, x) == if off <= x < off + |s| then s[x - off] else ByteAt(g, d0, i, x))
  }

  /** Changes outside the live nodes keep the overlay. */
  lemma OverlaidOutside(g: Geo, d0: Disk, d: Disk, d': Disk, live: set<nat>, owner: Owner, i: nat, off: nat,
                        s: seq<Byte>)
    requires Inv(g, d, live, owner) && Outside(g, d, d', live) && i in live
    requires InodeOk(g, d0, i) && Overlaid(g, d0, d, live, i, off, s)
    ensures InodeOk(g, d', i) && Overlaid(g, d0, d', live, i, off, s)
  {
    InvOutside(g, d, d', live, owner);
    forall j | j in live
      ensures SameNode(g, d, d', j)
    {
      OutsideSameNode(g, d, d', live, owner, j);
    }
    forall j | j in live && j != i
      ensures SameNode(g, d0, d', j)
    {
      SameNodeTrans(g, d0, d, d', j);
    }
    forall x | 0 <= x < MAX_BYTES
      ensures ByteAt(g, d', i, x) == ByteAt(g, d, i, x)
    {
      SameNodeByte(g, d, d', i, x);
    }
  }

  /** Giving inode i a zeroed block where it had a hole changes no byte. */
  lemma OverlaidLink(g: Geo, d0: Disk, d: Disk, d': Disk, live: set<nat>, i: nat, k: nat, off: nat, s: seq<Byte>)
    requires InodeOk(g, d0, i) && InodeOk(g, d, i) && InodeOk(g, d', i) && k < SLOTS
    requires Overlaid(g, d0, d, live, i, off, s)
    requires Ptr(g, d, i, k) == 0
    requires forall l :: 0 <= l < SLOTS && l != k ==> Ptr(g, d', i, l) == Ptr(g, d, i, l)
    requires k != 12 && 0 < Ptr(g, d', i, k) < g.blocks ==> d'.data[Ptr(g, d', i, k)] == Zero()
    requires forall l :: 0 <= l < SLOTS && l != 12 && 0 < Ptr(g, d, i, l) < g.blocks ==>
               d'.data[Ptr(g, d, i, l)] == d.data[Ptr(g, d, i, l)]
    requires forall j :: j in live && j != i ==> SameNode(g, d, d', j)
    ensures Overlaid(g, d0, d', live, i, off, s)
  {
    forall x | 0 <= x < MAX_BYTES
      ensures ByteAt(g, d', i, x) == ByteAt(g, d, i, x)
    {
      var l := SlotOf(x / 1024);
      if l != k { assert Ptr(g, d', i, l) == Ptr(g, d, i, l); }
    }
    forall j | j in live && j != i
      ensures SameNode(g, d0, d', j)
    {
      SameNodeTrans(g, d0, d, d', j);
    }
  }

  /** The bytes of one block written at position `at` extend the overlay by them. */
  lemma OverlaidWrite(g: Geo, d0: Disk, d: Disk, d': Disk, live: set<nat>, owner: Owner, i: nat, off: nat, s: seq<Byte>,
                      c: seq<Byte>)
    requires Inv(g, d, live, owner) && i in live && InodeOk(g, d0, i)
    requires Overlaid(g, d0, d, live, i, off, s)
    requires var at := off + |s|;
             && at < MAX_BYTES && at % 1024 + |c| <= 1024
             && var p := Ptr(g, d, i, SlotOf(at / 1024));
                && 0 < p < g.blocks
                && d' == d.(data := d.data[p := Splice(d.data[p], at % 1024, c)])
    ensures InodeOk(g, d', i) && Overlaid(g, d0, d', live, i, off, s + c)
  {
    hide Splice, SameNode, SlotOk, DirOk, ByteAt;
    var at := off + |s|;
    var k := SlotOf(at / 1024);
    var p := Ptr(g, d, i, k);
    assert InodeOk(g, d', i);
    forall j | j in live && j != i
      ensures SameNode(g, d0, d', j)
    {
      WriteSameNode(g, d, d', live, owner, i, k, j);
      SameNodeTrans(g, d0, d, d', j);
    }
    forall x | 0 <= x < MAX_BYTES
      ensures ByteAt(g, d', i, x) == if at <= x < at + |c| then c[x - at] else ByteAt(g, d, i, x)
    {
      WriteByte(g, d, d', live, owner, i, at, c, x);
    }
  }

  lemma WriteSameNode(g: Geo, d: Disk, d': Disk, live: set<nat>, owner: Owner, i: nat, k: nat, j: nat)
    requires Inv(g, d, live, owner) && i in live && j in live && j != i && k < SLOTS && k != 12
    requires 0 < Ptr(g, d, i, k) < g.blocks
    requires Shape(g, d') && d' == d.(data := d'.data)
    requires forall b :: 0 <= b < g.blocks && b != Ptr(g, d, i, k) ==> d'.data[b] == d.data[b]
    ensures SameNode(g, d, d', j)
  {
    assert InodeOk(g, d, j);
    forall l | 0 <= l < SLOTS && 0 < Ptr(g, d, j, l) < g.blocks
      ensures d'.data[Ptr(g, d, j, l)] == d.data[Ptr(g, d, j, l)]
    {
      DataWrite(g, d, d', live, owner, i, k, j, l);
    }
  }

  lemma WriteByte(g: Geo, d: Disk, d': Disk, live: set<nat>, owner: Owner, i: nat, at: nat, c: seq<Byte>, x: nat)
    requires Inv(g, d, live, owner) && i in live && x < MAX_BYTES
    requires at < MAX_BYTES && at % 1024 + |c| <= 1024
    requires var p := Ptr(g, d, i, SlotOf(at / 1024));
             && 0 < p < g.blocks
             && d' == d.(data := d.data[p := Splice(d.data[p], at % 1024, c)])
    ensures InodeOk(g, d', i)
    ensures ByteAt(g, d', i, x) == if at <= x < at + |c| then c[x - at] else ByteAt(g, d, i, x)
  {
    var k := SlotOf(at / 1024);
    var l := SlotOf(x / 1024);
    var p := Ptr(g, d, i, k);
    DataWrite(g, d, d', live, owner, i, k, i, l);
    if l == k {
      SameBlockOffsets(at, |c|, x);
    } else {
      OtherBlockOffsets(at, |c|, x);
    }
  }

  lemma SameBlockOffsets(at: nat, n: nat, x: nat)
    requires at / 1024 == x / 1024 && at % 1024 + n <= 1024
    ensures at <= x < at + n <==> at % 1024 <= x % 1024 < at % 1024 + n
    ensures at <= x ==> x - at == x % 1024 - at % 1024
  {}

  lemma OtherBlockOffsets(at: nat, n: nat, x: nat)
    requires at / 1024 != x / 1024 && at % 1024 + n <= 1024
    ensures !(at <= x < at + n)
  {}

  // ------------------------------------------------------------ linked blocks

  /** Pointers in use among the first n slots. */
  function CountPtrs(g: Geo, d: Disk, i: nat, n: nat): nat
    requires HasInode(g, d, i) && n <= SLOTS
  {
    if n == 0 then 0 else CountPtrs(g, d, i, n - 1) + if Ptr(g, d, i, n - 1) != 0 then 1 else 0
  }

  /** i_blocks is counted in 512-byte sectors: two for each linked block, the indirect block included. */
  ghost predicate SectorsOk(g: Geo, d: Disk, i: nat)
    requires HasInode(g, d, i)
  {
    d.itab[i - 1].sectors == 2 * CountPtrs(g, d, i, SLOTS)
  }

  lemma {:induction false} CountSame(g: Geo, d: Disk, d': Disk, i: nat, n: nat)
    requires HasInode(g, d, i) && HasInode(g, d', i) && n <= SLOTS
    requires forall k :: 0 <= k < n ==> (Ptr(g, d', i, k) != 0 <==> Ptr(g, d, i, k) != 0)
    ensures CountPtrs(g, d', i, n) == CountPtrs(g, d, i, n)
  {
    if n > 0 { CountSame(g, d, d', i, n - 1); }
  }

  lemma {:induction false} CountLink(g: Geo, d: Disk, d': Disk, i: nat, k: nat, n: nat)
    requires HasInode(g, d, i) && HasInode(g, d', i) && k < n <= SLOTS
    requires Ptr(g, d, i, k) == 0 && Ptr(g, d', i, k) != 0
    requires forall l :: 0 <= l < SLOTS && l != k ==> Ptr(g, d', i, l) == Ptr(g, d, i, l)
    ensures CountPtrs(g, d', i, n) == CountPtrs(g, d, i, n) + 1
  {
    if k == n - 1 {
      CountSame(g, d, d', i, n - 1);
    } else {
      CountLink(g, d, d', i, k, n - 1);
    }
  }

  lemma CountBound(g: Geo, d: Disk, i: nat, n: nat)
    requires HasInode(g, d, i) && n <= SLOTS
    ensures CountPtrs(g, d, i, n) <= n
  {}
}
