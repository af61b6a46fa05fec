/** Whole-file operations: read, write, truncate (kernel/ext2.c:470-529, 908-1034). */
module Ext2FileOps {
  import opened Machine
  import opened Ext2Blocks
  import opened Ext2Dirents
  import opened Ext2Disk
  import opened Ext2Content
  import opened Ext2Alloc
  import opened Ext2Pending
  import opened Ext2Space
  import opened Ext2Files
  import opened Ext2Write

  /** `was` with `s` laid over it from `off`; a gap before `off` is zeros. */
  function Paste(was: seq<Byte>, off: nat, s: seq<Byte>): (r: seq<Byte>)
    requires s != []
    ensures |r| == Max(|was|, off + |s|)
    ensures forall x :: 0 <= x < |r| ==>
              r[x] == if off <= x < off + |s| then s[x - off] else if x < |was| then was[x] else 0
  {
    seq(Max(|was|, off + |s|), x requires 0 <= x =>
      if off <= x < off + |s| then s[x - off] else if x < |was| then was[x] else 0)
  }

  /** A write that reports n bytes leaves exactly the old contents overlaid with
      those n bytes, and keeps the bytes past the end zero. */
  lemma WrittenContents(g: Geo, d0: Disk, d: Disk, live: set<nat>, i: nat, off: nat, s: seq<Byte>)
    requires InodeOk(g, d0, i) && InodeOk(g, d, i) && Overlaid(g, d0, d, live, i, off, s) && s != []
    requires d0.itab[i - 1].size <= MAX_BYTES && off + |s| <= MAX_BYTES && TailZero(g, d0, i)
    requires d.itab[i - 1].size == Max(d0.itab[i - 1].size, off + |s|)
    ensures Contents(g, d, i) == Paste(Contents(g, d0, i), off, s)
    ensures TailZero(g, d, i)
  {
    var c0, c := Contents(g, d0, i), Contents(g, d, i);
    forall x | 0 <= x < MAX_BYTES
      ensures ByteAt(g, d, i, x) ==
              if off <= x < off + |s| then s[x - off] else if x < |c0| then c0[x] else 0
    {}
  }

  method WriteFile(m: Mount, ino: nat, off: nat, buf: seq<Byte>) returns (wrote: nat)
    requires m.Valid() && ino in m.live && !m.disk.itab[ino - 1].IsDir()
    modifies m`nreads, m`nwrites, m`faults, m`disk, m`history, m`sb, m`gd, m`refusals, m`owner
    ensures old(m.history) <= m.history
    ensures m.Valid() && wrote <= |buf| && m.faults >= old(m.faults) && m.refusals >= old(m.refusals)
    ensures InodeOk(m.g, old(m.disk), ino) && InodeOk(m.g, m.disk, ino)
    ensures m.disk.itab[ino - 1].mode == old(m.disk).itab[ino - 1].mode
    ensures m.disk.itab[ino - 1].links == old(m.disk).itab[ino - 1].links
    ensures wrote > 0 ==>
              && Overlaid(m.g, old(m.disk), m.disk, m.live, ino, off, buf[..wrote])
              && m.disk.itab[ino - 1].size == Max(old(m.disk).itab[ino - 1].size, off + wrote)
              && (SectorsOk(m.g, old(m.disk), ino) ==> SectorsOk(m.g, m.disk, ino))
    ensures wrote == 0 ==> Mixed(m.g, old(m.disk), m.disk, m.live, ino, off, buf)
    ensures m.faults == old(m.faults) && wrote == 0 ==>
              Mixed(m.g, old(m.disk), m.disk, m.live, ino, off, []) && Anchored(m.g, old(m.disk), m.disk, ino)
    ensures m.faults == old(m.faults) && wrote < |buf| ==>
              off + |buf| > MAX_BYTES || (NoBlock(m.g, m.disk, m.sb, m.gd) && m.refusals > old(m.refusals))
    ensures m.faults == old(m.faults) && off + |buf| <= MAX_BYTES ==>
              && FitsMost(m.g, old(m.disk), old(m.sb), old(m.gd), ino, off, |buf|, wrote)
              && Avail(m.g, m.disk, m.sb, m.gd) ==
                 if wrote < |buf| then 0
                 else old(Avail(m.g, m.disk, m.sb, m.gd))
                      - Lacking(m.g, old(m.disk), ino, off / 1024, Behind(off, wrote))
    ensures wrote > 0 ==> off + wrote <= MAX_BYTES
    ensures off + |buf| > MAX_BYTES ==> wrote == 0 && m.disk == old(m.disk)
    ensures m.faults == old(m.faults) ==> m.Books() == old(m.Books()) && (old(m.Agreed()) ==> m.Agreed())
  {
    assert InodeOk(m.g, m.disk, ino);
    Untouched(m.g, m.disk, m.live, m.owner, ino, off, buf);
    var ok, n := ReadInode(m, ino);
    wrote := 0;
    if ok {
      LivePointersOk(m.g, m.disk, m.live, m.owner, ino);
      wrote, n := WriteData(m, ino, n, off, buf);
    }
  }

  // ---------------------------------------------------------------------- read

  /** The block number for file block bi, reading the pointer table at most once. */
  method ReadPointer(m: Mount, ghost ino: nat, n: Inode, bi: nat, table: seq<nat>)
    returns (ok: bool, phys: nat, table': seq<nat>)
    requires m.Valid() && ino in m.live && n == m.disk.itab[ino - 1] && bi < FILE_BLOCKS
    requires n.block[12] < m.g.blocks && (table == [] || table == Children(m.disk.data[n.block[12]]))
    modifies m`nreads, m`faults
    ensures m.Valid() && m.faults == old(m.faults) + if ok then 0 else 1
    ensures HasInode(m.g, m.disk, ino) && (ok ==> phys == Ptr(m.g, m.disk, ino, SlotOf(bi)))
    ensures table' == [] || table' == Children(m.disk.data[n.block[12]])
  {
    ok, phys, table' := true, 0, table;
    assert InodeOk(m.g, m.disk, ino);
    if bi < 12 {
      phys := n.block[bi];
    } else if n.block[12] != 0 {
      if table == [] {
        var blk;
        ok, blk := m.ReadBlock(n.block[12]);
        if !ok { return; }
        table' := Children(blk);
      }
      phys := table'[bi - 12];
    }
  }

  /** Bytes [at, at+len) of one block of the file; a hole reads as zeros. */
  function Piece(p: nat, blk: Block, at: nat, len: nat): (s: seq<Byte>)
    requires at % 1024 + len <= 1024
    ensures |s| == len
  {
    if p == 0 then seq(len, i => 0) else blk[at % 1024..at % 1024 + len]
  }

  lemma PieceBytes(g: Geo, d: Disk, i: nat, p: nat, blk: Block, at: nat, len: nat, x: nat)
    requires HasInode(g, d, i) && at < MAX_BYTES && at % 1024 + len <= 1024
    requires p == Ptr(g, d, i, SlotOf(at / 1024)) && p < g.blocks && (p != 0 ==> blk == d.data[p])
    requires at <= x < at + len
    ensures x < MAX_BYTES && Piece(p, blk, at, len)[x - at] == ByteAt(g, d, i, x)
  {
    assert x / 1024 == at / 1024 && x % 1024 == at % 1024 + (x - at);
  }

  /** ext2_read_data. */
  method ReadData(m: Mount, ghost ino: nat, n: Inode, off: nat, size: nat) returns (out: seq<Byte>)
    requires m.Valid() && ino in m.live && n == m.disk.itab[ino - 1]
    modifies m`nreads, m`faults
    ensures m.Valid() && m.faults >= old(m.faults) && HasInode(m.g, m.disk, ino)
    ensures |out| <= size && (out != [] ==> off + |out| <= FileSize(m.g, m.disk, ino))
    ensures forall x :: 0 <= x < |out| ==> out[x] == ByteAt(m.g, m.disk, ino, off + x)
    ensures m.faults == old(m.faults) && |out| < size ==> off + |out| >= FileSize(m.g, m.disk, ino)
  {
    hide SlotOk, DirOk, Safe, ByteAt, Children, Mount.Logged;
    out := [];
    assert InodeOk(m.g, m.disk, ino);
    if off >= n.size { return; }
    var want := if size > n.size - off then n.size - off else size;
    var table: seq<nat> := [];
    var ok := true;
    while |out| < want && ok && off + |out| < MAX_BYTES
      invariant m.Valid() && m.faults == old(m.faults) + if ok then 0 else 1
      invariant |out| <= want && (out != [] ==> off + |out| <= MAX_BYTES)
      invariant table == [] || table == Children(m.disk.data[n.block[12]])
      invariant forall x :: 0 <= x < |out| ==> off + x < MAX_BYTES && out[x] == ByteAt(m.g, m.disk, ino, off + x)
      decreases want - |out|, ok
    {
      var at := off + |out|;
      var len := ChunkLen(at, want - |out|);
      var phys;
      var blk;
      ok, phys, blk, table := FetchPiece(m, ino, n, at / 1024, table);
      if ok {
        out := AppendPiece(m.g, m.disk, ino, phys, blk, off, out, len);
      }
    }
  }

  /** The block behind file block bi: its number, 0 for a hole, and its bytes. */
  method FetchPiece(m: Mount, ghost ino: nat, n: Inode, bi: nat, table0: seq<nat>)
    returns (ok: bool, phys: nat, blk: Block, table: seq<nat>)
    requires m.Valid() && ino in m.live && n == m.disk.itab[ino - 1] && bi < FILE_BLOCKS && n.block[12] < |m.disk.data|
    requires table0 == [] || table0 == Children(m.disk.data[n.block[12]])
    modifies m`nreads, m`faults
    ensures m.Valid() && m.faults == old(m.faults) + (if ok then 0 else 1) && HasInode(m.g, m.disk, ino)
    ensures table == [] || table == Children(m.disk.data[n.block[12]])
    ensures ok ==>
              phys == Ptr(m.g, m.disk, ino, SlotOf(bi)) && phys < m.g.blocks && (phys != 0 ==> blk == m.disk.data[phys])
  {
    hide SlotOk, DirOk, Safe, Children, Mount.Logged;
    blk := Zero();
    ok, phys, table := ReadPointer(m, ino, n, bi, table0);
    if ok {
      PointerInRange(m.g, m.disk, m.live, m.owner, ino, SlotOf(bi));
      if phys != 0 { ok, blk := m.ReadBlock(phys); }
    }
  }

  lemma PointerInRange(g: Geo, d: Disk, live: set<nat>, owner: Owner, i: nat, k: nat)
    requires Inv(g, d, live, owner) && i in live && k < SLOTS
    ensures PtrOk(g, Ptr(g, d, i, k)) && Ptr(g, d, i, k) < g.blocks
  {
    assert InodeOk(g, d, i) && SlotOk(g, d, owner, i, k);
  }

  lemma BlockEnd(at: nat, len: nat)
    requires at < MAX_BYTES && at % 1024 + len <= 1024
    ensures at + len <= MAX_BYTES
  {}

  method AppendPiece(ghost g: Geo, ghost d: Disk, ghost i: nat, p: nat, blk: Block, off: nat, out0: seq<Byte>, len: nat)
    returns (out: seq<Byte>)
    requires HasInode(g, d, i) && off + |out0| < MAX_BYTES && (off + |out0|) % 1024 + len <= 1024
    requires p == Ptr(g, d, i, SlotOf((off + |out0|) / 1024)) && p < g.blocks && (p != 0 ==> blk == d.data[p])
    requires forall x :: 0 <= x < |out0| ==> out0[x] == ByteAt(g, d, i, off + x)
    ensures |out| == |out0| + len && off + |out| <= MAX_BYTES
    ensures forall x :: 0 <= x < |out| ==> out[x] == ByteAt(g, d, i, off + x)
  {
    var at := off + |out0|;
    out := out0 + Piece(p, blk, at, len);
    BlockEnd(at, len);
    forall x | |out0| <= x < |out|
      ensures out[x] == ByteAt(g, d, i, off + x)
    {
      PieceBytes(g, d, i, p, blk, at, len, off + x);
    }
  }

  method ReadFile(m: Mount, ino: nat, off: nat, size: nat) returns (out: seq<Byte>)
    requires m.Valid() && ino in m.live
    modifies m`nreads, m`faults
    ensures m.Valid() && m.faults >= old(m.faults) && HasInode(m.g, m.disk, ino)
    ensures |out| <= size
    ensures out != [] ==> off + |out| <= |Contents(m.g, m.disk, ino)|
                          && out == Contents(m.g, m.disk, ino)[off..off + |out|]
    ensures m.faults == old(m.faults) ==>
              out == if off >= |Contents(m.g, m.disk, ino)| then []
                     else if size >= |Contents(m.g, m.disk, ino)| - off then Contents(m.g, m.disk, ino)[off..]
                     else Contents(m.g, m.disk, ino)[off..off + size]
  {
    assert InodeOk(m.g, m.disk, ino);
    var ok, n := ReadInode(m, ino);
    out := [];
    if ok {
      LivePointersOk(m.g, m.disk, m.live, m.owner, ino);
      out := ReadData(m, ino, n, off, size);
    }
  }

  // ------------------------------------------------------------------ truncate

  /** The empty file in place of inode n. */
  function Emptied(n: Inode): Inode
  {
    n.(block := NoPtrs(), size := 0, sectors := 0)
  }

  lemma EmptiedSafe(g: Geo, d: Disk, live: set<nat>, owner: Owner, i: nat)
    requires Inv(g, d, live, owner) && i in live && !d.itab[i - 1].IsDir()
    ensures Inv(g, d.(itab := d.itab[i - 1 := Emptied(d.itab[i - 1])]), live, owner)
  {
    var d' := d.(itab := d.itab[i - 1 := Emptied(d.itab[i - 1])]);
    assert InodeOk(g, d, i) && InodeOk(g, d', i);
    forall j | j in live
      ensures Shrunk(g, d, d', j)
    {
      assert InodeOk(g, d, j);
      if j != i { SameShrunk(g, d, d', live, owner, j); }
    }
    InvShrunk(g, d, d', live, owner);
  }

  /** What the volume looks like to readers once inode i is emptied. */
  lemma EmptiedView(g: Geo, d: Disk, d': Disk, live: set<nat>, i: nat)
    requires LiveOk(g, d, live) && i in live && InodeOk(g, d', i)
    requires d'.itab == d.itab[i - 1 := Emptied(d.itab[i - 1])] && d'.data == d.data
    ensures Contents(g, d', i) == [] && TailZero(g, d', i) && SectorsOk(g, d', i)
    ensures forall j :: j in live && j != i ==> SameNode(g, d, d', j)
  {
    NoPointers(g, d', i, SLOTS);
    forall j | j in live && j != i
      ensures SameNode(g, d, d', j)
    {
      assert InodeOk(g, d, j);
    }
  }

  lemma {:induction false} NoPointers(g: Geo, d: Disk, i: nat, n: nat)
    requires HasInode(g, d, i) && d.itab[i - 1].block == NoPtrs() && n <= SLOTS
    ensures CountPtrs(g, d, i, n) == 0
  {
    if n > 0 { NoPointers(g, d, i, n - 1); }
  }

  /** Once the emptied inode is stored, nothing live names the blocks it had. */
  lemma EmptiedUnpointed(g: Geo, d: Disk, d': Disk, live: set<nat>, owner: Owner, i: nat, k: nat)
    requires Inv(g, d, live, owner) && i in live && k < SLOTS && Ptr(g, d, i, k) != 0
    requires Shape(g, d') && d'.itab == d.itab[i - 1 := Emptied(d.itab[i - 1])] && d'.data == d.data
    requires LiveOk(g, d', live)
    ensures Unpointed(g, d', live, Ptr(g, d, i, k))
  {
    assert SlotOk(g, d, owner, i, k);
    forall j, l | j in live && 0 <= l < SLOTS
      ensures Ptr(g, d', j, l) != Ptr(g, d, i, k)
    {
      assert InodeOk(g, d, j) && SlotOk(g, d, owner, j, l);
    }
  }

  /** Nothing that decides pointers differs, so the same blocks are named. */
  lemma UnpointedSame(g: Geo, d: Disk, d': Disk, live: set<nat>, b: nat)
    requires LiveOk(g, d, live) && LiveOk(g, d', live) && Unpointed(g, d, live, b)
    requires d'.itab == d.itab && d'.data == d.data
    ensures Unpointed(g, d', live, b)
  {
    forall i, k | i in live && 0 <= k < SLOTS
      ensures Ptr(g, d', i, k) != b
    {
      assert InodeOk(g, d, i) && Ptr(g, d, i, k) != b;
    }
  }

  /** Free every block of a list; each is named by nothing live. */
  method FreeList(m: Mount, bs: seq<nat>)
    requires m.Valid() && forall b :: b in bs && b != 0 ==> Unpointed(m.g, m.disk, m.live, b)
    modifies m`nreads, m`nwrites, m`faults, m`disk, m`history, m`sb, m`gd
    ensures old(m.history) <= m.history
    ensures m.Valid() && m.faults >= old(m.faults)
    ensures m.disk == old(m.disk).(bbm := m.disk.bbm, sb := m.disk.sb, gd := m.disk.gd)
    ensures forall x :: 0 <= x < 8192 && x + 1 !in bs ==> m.disk.bbm[x] == old(m.disk).bbm[x]
    ensures forall x :: 0 <= x < 8192 && m.disk.bbm[x] ==> old(m.disk).bbm[x]
    ensures m.faults == old(m.faults) ==>
              forall x :: 0 <= x < 8192 && x + 1 in bs && InRange(m.g, x + 1) ==> !m.disk.bbm[x]
    ensures m.faults == old(m.faults) ==> m.Books() == old(m.Books()) && (old(m.Agreed()) ==> m.Agreed())
  {
    hide SlotOk, DirOk, Safe, Clear, Mount.Logged, Mount.Agreed, Mount.Books;
    var i := 0;
    while i < |bs|
      invariant i <= |bs| && m.Valid() && m.faults >= old(m.faults) && old(m.history) <= m.history
      invariant m.disk == old(m.disk).(bbm := m.disk.bbm, sb := m.disk.sb, gd := m.disk.gd)
      invariant forall x :: 0 <= x < 8192 && x + 1 !in bs ==> m.disk.bbm[x] == old(m.disk).bbm[x]
      invariant forall x :: 0 <= x < 8192 && m.disk.bbm[x] ==> old(m.disk).bbm[x]
      invariant m.faults == old(m.faults) ==>
              forall x :: 0 <= x < 8192 && x + 1 in bs[..i] && InRange(m.g, x + 1) ==> !m.disk.bbm[x]
      invariant m.faults == old(m.faults) ==> m.Books() == old(m.Books()) && (old(m.Agreed()) ==> m.Agreed())
    {
      if bs[i] != 0 {
        assert bs[i] in bs;
        UnpointedSame(m.g, old(m.disk), m.disk, m.live, bs[i]);
        FreeBlock(m, bs[i]);
      }
      assert bs[..i + 1] == bs[..i] + [bs[i]];
      i := i + 1;
    }
    assert bs[..i] == bs;
  }

  /** Every nonzero entry of the pointer table is a data block. */
  predicate TableOk(g: Geo, ents: seq<nat>)
  {
    forall c :: 0 <= c < |ents| ==> PtrOk(g, ents[c])
  }

  /** The pointer table of inode i, if it has one. */
  function TableOf(g: Geo, d: Disk, i: nat): seq<nat>
    requires HasInode(g, d, i)
  {
    if d.itab[i - 1].block[12] == 0 then [] else Children(d.data[d.itab[i - 1].block[12]])
  }

  /** Pointers in the order truncation frees them: direct blocks, children, the table. */
  function PointerList(n: Inode, ents: seq<nat>): seq<nat>
  {
    n.block[..12] + ents + [n.block[12]]
  }

  /** Some slot of inode i names block b. */
  ghost predicate Holds(g: Geo, d: Disk, i: nat, b: nat)
    requires HasInode(g, d, i)
  {
    exists k :: 0 <= k < SLOTS && Ptr(g, d, i, k) == b
  }

  lemma ListedIsHeld(g: Geo, d: Disk, i: nat, x: nat)
    requires HasInode(g, d, i) && x < |PointerList(d.itab[i - 1], TableOf(g, d, i))|
    ensures Holds(g, d, i, PointerList(d.itab[i - 1], TableOf(g, d, i))[x])
  {
    var n, ents := d.itab[i - 1], TableOf(g, d, i);
    var b := PointerList(n, ents)[x];
    if x < 12 {
      assert Ptr(g, d, i, x) == b;
    } else if x < 12 + |ents| {
      assert Ptr(g, d, i, x + 1) == b;
    } else {
      assert Ptr(g, d, i, 12) == b;
    }
  }

  lemma HeldIsListed(g: Geo, d: Disk, i: nat, k: nat)
    requires HasInode(g, d, i) && k < SLOTS && Ptr(g, d, i, k) != 0
    ensures Ptr(g, d, i, k) in PointerList(d.itab[i - 1], TableOf(g, d, i))
  {
    var n, ents := d.itab[i - 1], TableOf(g, d, i);
    var l := PointerList(n, ents);
    if k < 12 {
      assert l[k] == Ptr(g, d, i, k);
    } else if k == 12 {
      assert l[12 + |ents|] == Ptr(g, d, i, k);
    } else {
      assert l[k - 1] == Ptr(g, d, i, k);
    }
  }

  /** The validation pass over the table never refuses a live inode. */
  lemma LiveTableOk(g: Geo, d: Disk, live: set<nat>, owner: Owner, i: nat)
    requires Inv(g, d, live, owner) && i in live
    ensures TableOk(g, TableOf(g, d, i))
  {
    assert InodeOk(g, d, i);
    var ents := TableOf(g, d, i);
    forall c | 0 <= c < |ents|
      ensures PtrOk(g, ents[c])
    {
      assert SlotOk(g, d, owner, i, c + 13) && Ptr(g, d, i, c + 13) == ents[c];
    }
  }

  lemma ListUnpointed(g: Geo, d: Disk, d': Disk, live: set<nat>, owner: Owner, i: nat)
    requires Inv(g, d, live, owner) && i in live && LiveOk(g, d', live) && Shape(g, d')
    requires d'.itab == d.itab[i - 1 := Emptied(d.itab[i - 1])] && d'.data == d.data
    ensures forall b :: b in PointerList(d.itab[i - 1], TableOf(g, d, i)) && b != 0 ==> Unpointed(g, d', live, b)
  {
    var l := PointerList(d.itab[i - 1], TableOf(g, d, i));
    forall b | b in l && b != 0
      ensures Unpointed(g, d', live, b)
    {
      var x :| 0 <= x < |l| && l[x] == b;
      ListedIsHeld(g, d, i, x);
      var k :| 0 <= k < SLOTS && Ptr(g, d, i, k) == b;
      EmptiedUnpointed(g, d, d', live, owner, i, k);
    }
  }

  /** ext2_truncate: the inode loses its pointers on the device before any block is freed. */
  method Truncate(m: Mount, ino: nat) returns (ok: bool)
    requires m.Valid() && ino in m.live && !m.disk.itab[ino - 1].IsDir()
    modifies m`nreads, m`nwrites, m`faults, m`disk, m`history, m`sb, m`gd
    ensures old(m.history) <= m.history
    ensures m.Valid() && m.faults >= old(m.faults)
    ensures InodeOk(m.g, old(m.disk), ino) && InodeOk(m.g, m.disk, ino)
    ensures !ok ==> m.disk == old(m.disk) && m.faults > old(m.faults) && m.sb == old(m.sb) && m.gd == old(m.gd)
    ensures ok ==> m.disk.itab == old(m.disk).itab[ino - 1 := Emptied(old(m.disk).itab[ino - 1])]
                   && m.disk.data == old(m.disk).data && m.disk.ibm == old(m.disk).ibm
    ensures ok ==> Contents(m.g, m.disk, ino) == [] && TailZero(m.g, m.disk, ino) && SectorsOk(m.g, m.disk, ino)
    ensures ok ==> forall j :: j in m.live && j != ino ==> SameNode(m.g, old(m.disk), m.disk, j)
    // Exactly the blocks the file had become free.
    ensures ok && m.faults == old(m.faults) ==>
              forall b :: 1 <= b <= 8192 ==>
                (Marked(m.g, m.disk, b) <==> Marked(m.g, old(m.disk), b) && !Holds(m.g, old(m.disk), ino, b))
    ensures m.faults == old(m.faults) ==> m.Books() == old(m.Books()) && (old(m.Agreed()) ==> m.Agreed())
  {
    hide SlotOk, DirOk, Clear, Safe, SectorsOk, SameNode, TailZero, ByteAt, Unpointed;
    var n, ents;
    ok, n, ents := StoreEmptied(m, ino);
    if !ok { return; }
    ListUnpointed(m.g, old(m.disk), m.disk, m.live, m.owner, ino);
    FreeList(m, PointerList(n, ents));
    EmptiedView(m.g, old(m.disk), m.disk, m.live, ino);
    if m.faults == old(m.faults) {
      FreedExactly(m.g, old(m.disk), m.disk, m.live, m.owner, ino);
    }
  }

  /** Read the inode and its table, then store the inode without pointers. */
  method StoreEmptied(m: Mount, ino: nat) returns (ok: bool, n: Inode, ents: seq<nat>)
    requires m.Valid() && ino in m.live && !m.disk.itab[ino - 1].IsDir()
    modifies m`nreads, m`nwrites, m`faults, m`disk, m`history
    ensures old(m.history) <= m.history
    ensures m.Valid() && m.faults == old(m.faults) + if ok then 0 else 1
    ensures !ok ==> m.disk == old(m.disk)
    ensures InodeOk(m.g, old(m.disk), ino) && InodeOk(m.g, m.disk, ino)
    ensures ok ==> n == old(m.disk).itab[ino - 1] && ents == TableOf(m.g, old(m.disk), ino)
                   && m.disk == old(m.disk).(itab := old(m.disk).itab[ino - 1 := Emptied(n)])
  {
    hide SlotOk, DirOk, Clear, Safe, Unpointed;
    assert InodeOk(m.g, m.disk, ino);
    ents := [];
    ok, n := ReadInode(m, ino);
    if !ok { return; }
    LivePointersOk(m.g, m.disk, m.live, m.owner, ino);
    if n.block[12] != 0 {
      var blk;
      ok, blk := m.ReadBlock(n.block[12]);
      if !ok { return; }
      ents := Children(blk);
    }
    // Every child pointer passes the range check, so truncation is never refused here.
    LiveTableOk(m.g, m.disk, m.live, m.owner, ino);
    EmptiedSafe(m.g, m.disk, m.live, m.owner, ino);
    ok := WriteInode(m, ino, Emptied(n));
  }

  lemma FreedExactly(g: Geo, d: Disk, d': Disk, live: set<nat>, owner: Owner, i: nat)
    requires Inv(g, d, live, owner) && i in live && Shape(g, d')
    requires var l := PointerList(d.itab[i - 1], TableOf(g, d, i));
             && (forall x :: 0 <= x < 8192 && x + 1 !in l ==> d'.bbm[x] == d.bbm[x])
             && (forall x :: 0 <= x < 8192 && x + 1 in l && InRange(g, x + 1) ==> !d'.bbm[x])
    ensures forall b :: 1 <= b <= 8192 ==> (Marked(g, d', b) <==> Marked(g, d, b) && !Holds(g, d, i, b))
  {
    var l := PointerList(d.itab[i - 1], TableOf(g, d, i));
    forall b | 1 <= b <= 8192
      ensures Marked(g, d', b) <==> Marked(g, d, b) && !Holds(g, d, i, b)
    {
      if Holds(g, d, i, b) {
        var k :| 0 <= k < SLOTS && Ptr(g, d, i, k) == b;
        HeldIsListed(g, d, i, k);
        assert SlotOk(g, d, owner, i, k);
        assert b - 1 + 1 in l;
      } else if b in l {
        var x :| 0 <= x < |l| && l[x] == b;
        ListedIsHeld(g, d, i, x);
      } else {
        assert b - 1 + 1 !in l;
      }
    }
  }
}
