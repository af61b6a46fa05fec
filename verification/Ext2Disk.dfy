/** The contents of a mounted volume and what must hold of it after every
    device write: no block is named twice by files and directories in use. */
module Ext2Disk {
  import opened Machine
  import opened Ext2Blocks
  import opened Ext2Dirents

  const ROOT: nat := 2        // inode of the root directory
  const FIRST_INO: nat := 11  // lower inodes are reserved
  const SLOTS: nat := 269     // 12 direct, the indirect block, its 256 children
  const FILE_BLOCKS: nat := 268

  type Ptrs = p: seq<nat> | |p| == 15 witness seq(15, i => 0)

  function NoPtrs(): (p: Ptrs)
    ensures forall i :: 0 <= i < 15 ==> p[i] == 0
  {
    seq(15, i => 0)
  }

  datatype Super = Super(freeBlocks: nat, freeInodes: nat)
  datatype Group = Group(freeBlocks: nat, freeInodes: nat, usedDirs: nat)

  /** The i_mode field: file type bits and permission bits. */
  datatype Mode = Mode(kind: Kind, perm: nat)
  datatype Kind = Regular | Directory | Other

  datatype Inode = Inode(mode: Mode, links: nat, size: nat, sectors: nat, block: Ptrs) {
    predicate IsDir() { mode.kind == Directory }
  }

  /** Volume geometry fixed at mount: blocks and inodes on the volume, first block past all metadata. */
  datatype Geo = Geo(blocks: nat, inodes: nat, firstData: nat)

  predicate GeoOk(g: Geo)
  {
    && FIRST_INO <= g.inodes <= 8192
    && 3 <= g.firstData <= g.blocks <= 8193
  }

  /** Metadata blocks are kept in decoded form; `data` is indexed by block number. */
  datatype Disk = Disk(sb: Super, gd: Group, bbm: seq<bool>, ibm: seq<bool>, itab: seq<Inode>, data: seq<Block>)

  predicate Shape(g: Geo, d: Disk)
  {
    |d.bbm| == 8192 && |d.ibm| == 8192 && |d.itab| == g.inodes && |d.data| == g.blocks
  }

  predicate InRange(g: Geo, p: nat) { g.firstData <= p < g.blocks }

  predicate PtrOk(g: Geo, p: nat) { p == 0 || InRange(g, p) }

  /** Slot k of an inode: 0-11 direct, 12 the indirect block, 13.. its children. */
  function PtrIn(n: Inode, data: seq<Block>, k: nat): nat
    requires k < SLOTS && n.block[12] < |data|
  {
    if k <= 12 then n.block[k]
    else if n.block[12] == 0 then 0
    else Child(data[n.block[12]], k - 13)
  }

  predicate HasInode(g: Geo, d: Disk, i: nat)
  {
    && Shape(g, d)
    && 1 <= i <= g.inodes
    && d.itab[i - 1].block[12] < g.blocks
  }

  function Ptr(g: Geo, d: Disk, i: nat, k: nat): nat
    requires HasInode(g, d, i) && k < SLOTS
  {
    PtrIn(d.itab[i - 1], d.data, k)
  }

  // ---------------------------------------------------------------- invariant

  /** Which slot of which inode names a block. */
  type Owner = map<nat, (nat, nat)>

  ghost predicate InodeOk(g: Geo, d: Disk, i: nat)
  {
    && Shape(g, d)
    && 1 <= i <= g.inodes <= 8192
    && d.ibm[i - 1]
    && d.itab[i - 1].block[13] == 0 && d.itab[i - 1].block[14] == 0
    && PtrOk(g, d.itab[i - 1].block[12])
    && g.firstData <= g.blocks && 0 < g.blocks
  }

  ghost predicate LiveOk(g: Geo, d: Disk, live: set<nat>)
  {
    forall i :: i in live ==> InodeOk(g, d, i)
  }

  ghost predicate SlotOk(g: Geo, d: Disk, owner: Owner, i: nat, k: nat)
    requires InodeOk(g, d, i) && k < SLOTS
  {
    var p := Ptr(g, d, i, k);
    p != 0 ==> InRange(g, p) && p <= 8192 && d.bbm[p - 1] && p in owner && owner[p] == (i, k)
  }

  function DirBlocks(n: Inode): nat { n.size / 1024 }

  /** A directory uses a hole-free prefix of its direct blocks, each full of records. */
  ghost predicate DirShape(n: Inode)
  {
    && n.size % 1024 == 0 && DirBlocks(n) <= 12
    && forall b :: 0 <= b < 12 ==> (n.block[b] != 0 <==> b < DirBlocks(n))
  }

  /** Every record of one directory block names an inode of `live`. */
  ghost predicate BlockClosed(b: Block, live: set<nat>)
  {
    && Chain(b, 0, 1024)
    && forall e :: e in Entries(b, 0, 1024) ==> e.ino in live
  }

  ghost predicate DirOk(g: Geo, d: Disk, live: set<nat>, i: nat)
    requires InodeOk(g, d, i)
  {
    var n := d.itab[i - 1];
    && DirShape(n)
    && forall b :: 0 <= b < DirBlocks(n) ==> n.block[b] < g.blocks && BlockClosed(d.data[n.block[b]], live)
  }

  /** `live` holds the root and everything a live directory names; every live
      pointer lands in the data area, on a block marked used, that no other slot names. */
  ghost predicate Inv(g: Geo, d: Disk, live: set<nat>, owner: Owner)
  {
    && GeoOk(g)
    && Shape(g, d)
    && ROOT in live
    && LiveOk(g, d, live)
    && d.itab[ROOT - 1].IsDir()
    && (forall i, k :: i in live && 0 <= k < SLOTS ==> SlotOk(g, d, owner, i, k))
    && (forall i :: i in live && d.itab[i - 1].IsDir() ==> DirOk(g, d, live, i))
  }

  ghost predicate Safe(g: Geo, d: Disk)
  {
    exists live, owner :: Inv(g, d, live, owner)
  }

  // -------------------------------------------------------------- consequences

  /** Some record of the block names inode `j`. */
  ghost predicate BlockNames(b: Block, j: nat)
  {
    exists e :: e in Entries(b, 0, 1024) && e.ino == j
  }

  ghost predicate SlotNames(g: Geo, d: Disk, i: nat, b: nat, j: nat)
    requires InodeOk(g, d, i) && b < 12
  {
    var n := d.itab[i - 1];
    b < DirBlocks(n) && n.block[b] < g.blocks && BlockNames(d.data[n.block[b]], j)
  }

  /** Directory `i` has a record naming inode `j`. */
  ghost predicate Names(g: Geo, d: Disk, i: nat, j: nat)
  {
    && InodeOk(g, d, i) && d.itab[i - 1].IsDir()
    && exists b :: 0 <= b < 12 && SlotNames(g, d, i, b, j)
  }

  /** Some chain of directories leads from the root to inode `i`. */
  ghost predicate Path(g: Geo, d: Disk, path: seq<nat>, i: nat)
  {
    && path != [] && path[0] == ROOT && path[|path| - 1] == i
    && forall n :: 0 <= n < |path| - 1 ==> Names(g, d, path[n], path[n + 1])
  }

  lemma {:induction false} ReachableIsLive(g: Geo, d: Disk, live: set<nat>, owner: Owner, path: seq<nat>, i: nat)
    requires Inv(g, d, live, owner) && Path(g, d, path, i)
    ensures i in live
    decreases |path|
  {
    if |path| > 1 {
      var j := path[|path| - 2];
      assert Names(g, d, path[|path| - 2], path[|path| - 2 + 1]);
      var front := path[..|path| - 1];
      forall n | 0 <= n < |front| - 1
        ensures Names(g, d, front[n], front[n + 1])
      {
        assert Names(g, d, path[n], path[n + 1]);
      }
      ReachableIsLive(g, d, live, owner, front, j);
      assert DirOk(g, d, live, j);
    }
  }

  /** No two pointers of reachable files or directories name the same block,
      and every one lies in the data area with its bitmap bit set. */
  lemma ReachableNeverAlias(g: Geo, d: Disk, pi: seq<nat>, i: nat, k: nat, pj: seq<nat>, j: nat, l: nat)
    requires Safe(g, d)
    requires Path(g, d, pi, i) && Path(g, d, pj, j) && k < SLOTS && l < SLOTS
    ensures HasInode(g, d, i) && HasInode(g, d, j)
    ensures Ptr(g, d, i, k) != 0 && Ptr(g, d, i, k) == Ptr(g, d, j, l) ==> i == j && k == l
    ensures Ptr(g, d, i, k) != 0 ==> InRange(g, Ptr(g, d, i, k)) && d.bbm[Ptr(g, d, i, k) - 1]
  {
    var live, owner :| Inv(g, d, live, owner);
    ReachableIsLive(g, d, live, owner, pi, i);
    ReachableIsLive(g, d, live, owner, pj, j);
    assert SlotOk(g, d, owner, i, k) && SlotOk(g, d, owner, j, l);
  }

  // ------------------------------------------------- what one write may change

  /** No live slot names block b. */
  ghost predicate Unpointed(g: Geo, d: Disk, live: set<nat>, b: nat)
    requires LiveOk(g, d, live)
  {
    forall i, k :: i in live && 0 <= k < SLOTS ==> Ptr(g, d, i, k) != b
  }

  lemma ClearIsUnpointed(g: Geo, d: Disk, live: set<nat>, owner: Owner, b: nat)
    requires Inv(g, d, live, owner) && 1 <= b <= 8192 && !d.bbm[b - 1]
    ensures Unpointed(g, d, live, b)
  {
    forall i, k | i in live && 0 <= k < SLOTS
      ensures Ptr(g, d, i, k) != b
    {
      assert SlotOk(g, d, owner, i, k);
    }
  }

  /** From d to d', inode i keeps its type and at most loses pointers; a directory keeps its blocks. */
  ghost predicate Shrunk(g: Geo, d: Disk, d': Disk, i: nat)
    requires InodeOk(g, d, i)
  {
    && InodeOk(g, d', i)
    && d'.itab[i - 1].IsDir() == d.itab[i - 1].IsDir()
    && (forall k :: 0 <= k < SLOTS && Ptr(g, d', i, k) != 0 ==>
          Ptr(g, d', i, k) == Ptr(g, d, i, k) && Marked(g, d', Ptr(g, d', i, k)))
    && (d.itab[i - 1].IsDir() ==> SameDir(g, d, d', i))
  }

  ghost predicate Marked(g: Geo, d: Disk, p: nat) { 1 <= p <= |d.bbm| && d.bbm[p - 1] }

  ghost predicate SameDir(g: Geo, d: Disk, d': Disk, i: nat)
    requires InodeOk(g, d, i) && InodeOk(g, d', i)
  {
    var n, n' := d.itab[i - 1], d'.itab[i - 1];
    && n'.size == n.size
    && (forall b :: 0 <= b < 12 ==> n'.block[b] == n.block[b])
    && (forall b :: 0 <= b < 12 && n.block[b] != 0 && n.block[b] < g.blocks ==>
          d'.data[n.block[b]] == d.data[n.block[b]])
  }

  lemma InvShrunk(g: Geo, d: Disk, d': Disk, live: set<nat>, owner: Owner)
    requires Inv(g, d, live, owner) && Shape(g, d')
    requires forall i :: i in live ==> Shrunk(g, d, d', i)
    ensures Inv(g, d', live, owner)
  {
    forall i, k | i in live && 0 <= k < SLOTS
      ensures InodeOk(g, d', i) && SlotOk(g, d', owner, i, k)
    {
      assert SlotOk(g, d, owner, i, k) && Shrunk(g, d, d', i);
    }
    forall i | i in live && d'.itab[i - 1].IsDir()
      ensures InodeOk(g, d', i) && DirOk(g, d', live, i)
    {
      assert Shrunk(g, d, d', i);
      SameDirOk(g, d, d', live, i);
    }
    assert Shrunk(g, d, d', ROOT);
  }

  lemma SameDirOk(g: Geo, d: Disk, d': Disk, live: set<nat>, i: nat)
    requires InodeOk(g, d, i) && InodeOk(g, d', i)
    requires DirOk(g, d, live, i) && SameDir(g, d, d', i)
    ensures DirOk(g, d', live, i)
  {
    var n, n' := d.itab[i - 1], d'.itab[i - 1];
    forall b | 0 <= b < DirBlocks(n')
      ensures n'.block[b] < g.blocks && BlockClosed(d'.data[n'.block[b]], live)
    {
      assert BlockClosed(d.data[n.block[b]], live);
    }
  }

  /** d' differs from d only outside the live files and directories. */
  ghost predicate Outside(g: Geo, d: Disk, d': Disk, live: set<nat>)
    requires LiveOk(g, d, live)
  {
    && Shape(g, d')
    && (forall i :: i in live ==> d'.itab[i - 1] == d.itab[i - 1] && d'.ibm[i - 1])
    && (forall b :: 0 < b < g.blocks && !Unpointed(g, d, live, b) ==>
          d'.data[b] == d.data[b] && (b <= 8192 && d.bbm[b - 1] ==> d'.bbm[b - 1]))
  }

  lemma PointedAt(g: Geo, d: Disk, live: set<nat>, i: nat, k: nat)
    requires LiveOk(g, d, live)
    requires i in live && k < SLOTS
    ensures !Unpointed(g, d, live, Ptr(g, d, i, k))
  {}

  lemma OutsideSlot(g: Geo, d: Disk, d': Disk, live: set<nat>, owner: Owner, i: nat, k: nat)
    requires Inv(g, d, live, owner) && Outside(g, d, d', live)
    requires i in live && k < SLOTS
    ensures InodeOk(g, d', i) && Ptr(g, d', i, k) == Ptr(g, d, i, k)
    ensures Ptr(g, d, i, k) != 0 ==>
              InRange(g, Ptr(g, d, i, k)) && Marked(g, d', Ptr(g, d, i, k))
              && d'.data[Ptr(g, d, i, k)] == d.data[Ptr(g, d, i, k)]
  {
    assert InodeOk(g, d, i);
    PointedAt(g, d, live, i, 12);
    PointedAt(g, d, live, i, k);
    assert SlotOk(g, d, owner, i, 12) && SlotOk(g, d, owner, i, k);
  }

  lemma InvOutside(g: Geo, d: Disk, d': Disk, live: set<nat>, owner: Owner)
    requires Inv(g, d, live, owner) && Outside(g, d, d', live)
    ensures Inv(g, d', live, owner)
  {
    forall i | i in live
      ensures Shrunk(g, d, d', i)
    {
      forall k | 0 <= k < SLOTS
        ensures InodeOk(g, d', i) && Ptr(g, d', i, k) == Ptr(g, d, i, k)
        ensures Ptr(g, d', i, k) != 0 ==> Marked(g, d', Ptr(g, d', i, k))
      {
        OutsideSlot(g, d, d', live, owner, i, k);
      }
      OutsideDir(g, d, d', live, owner, i);
    }
    InvShrunk(g, d, d', live, owner);
  }

  lemma OutsideDir(g: Geo, d: Disk, d': Disk, live: set<nat>, owner: Owner, i: nat)
    requires Inv(g, d, live, owner) && Outside(g, d, d', live) && i in live
    ensures InodeOk(g, d, i) && InodeOk(g, d', i) && SameDir(g, d, d', i)
  {
    OutsideSlot(g, d, d', live, owner, i, 0);
    var n := d.itab[i - 1];
    forall b | 0 <= b < 12 && n.block[b] != 0 && n.block[b] < g.blocks
      ensures d'.data[n.block[b]] == d.data[n.block[b]]
    {
      assert Ptr(g, d, i, b) == n.block[b];
      OutsideSlot(g, d, d', live, owner, i, b);
    }
  }

  // ------------------------------------------------------- writes to live blocks

  /** Overwriting a data block (not an indirect one) leaves every other live block and all pointers alone. */
  lemma DataWrite(g: Geo, d: Disk, d': Disk, live: set<nat>, owner: Owner, i: nat, k: nat, j: nat, l: nat)
    requires Inv(g, d, live, owner) && i in live && k < SLOTS && k != 12
    requires Ptr(g, d, i, k) != 0 && Shape(g, d')
    requires d' == d.(data := d'.data)
    requires forall b :: 0 <= b < g.blocks && b != Ptr(g, d, i, k) ==> d'.data[b] == d.data[b]
    requires j in live && l < SLOTS
    ensures InodeOk(g, d', j) && Ptr(g, d', j, l) == Ptr(g, d, j, l)
    ensures Ptr(g, d, j, l) != 0 && (j, l) != (i, k) ==>
              InRange(g, Ptr(g, d, j, l)) && Ptr(g, d, j, l) != Ptr(g, d, i, k)
  {
    assert InodeOk(g, d, j) && InodeOk(g, d, i);
    assert SlotOk(g, d, owner, i, k) && SlotOk(g, d, owner, j, 12) && SlotOk(g, d, owner, j, l);
  }

  /** Overwriting the indirect block of i touches no other inode. */
  lemma IndirectWrite(g: Geo, d: Disk, d': Disk, live: set<nat>, owner: Owner, i: nat, j: nat, l: nat)
    requires Inv(g, d, live, owner) && i in live && j in live && j != i && l < SLOTS
    requires Ptr(g, d, i, 12) != 0 && Shape(g, d') && d'.itab[j - 1] == d.itab[j - 1]
    requires d'.ibm == d.ibm && d'.bbm == d.bbm
    requires forall b :: 0 <= b < g.blocks && b != Ptr(g, d, i, 12) ==> d'.data[b] == d.data[b]
    ensures InodeOk(g, d', j) && Ptr(g, d', j, l) == Ptr(g, d, j, l)
    ensures Ptr(g, d, j, l) != 0 ==> Ptr(g, d, j, l) < g.blocks && Ptr(g, d, j, l) != Ptr(g, d, i, 12)
                                     && Marked(g, d, Ptr(g, d, j, l))
  {
    assert InodeOk(g, d, j) && InodeOk(g, d, i);
    assert SlotOk(g, d, owner, i, 12) && SlotOk(g, d, owner, j, 12) && SlotOk(g, d, owner, j, l);
  }

  lemma IndirectShrunk(g: Geo, d: Disk, d': Disk, live: set<nat>, owner: Owner, i: nat, j: nat)
    requires Inv(g, d, live, owner) && i in live && j in live && j != i
    requires Ptr(g, d, i, 12) != 0 && Shape(g, d') && d'.itab[j - 1] == d.itab[j - 1]
    requires d'.ibm == d.ibm && d'.bbm == d.bbm
    requires forall b :: 0 <= b < g.blocks && b != Ptr(g, d, i, 12) ==> d'.data[b] == d.data[b]
    ensures InodeOk(g, d, j) && Shrunk(g, d, d', j)
  {
    IndirectWrite(g, d, d', live, owner, i, j, 0);
    forall l | 0 <= l < SLOTS
      ensures Ptr(g, d', j, l) == Ptr(g, d, j, l)
      ensures Ptr(g, d', j, l) != 0 ==> Marked(g, d', Ptr(g, d', j, l)) && Ptr(g, d, j, l) != Ptr(g, d, i, 12)
    {
      IndirectWrite(g, d, d', live, owner, i, j, l);
    }
    var n := d.itab[j - 1];
    forall b | 0 <= b < 12 && n.block[b] != 0 && n.block[b] < g.blocks
      ensures d'.data[n.block[b]] == d.data[n.block[b]]
    {
      assert Ptr(g, d, j, b) == n.block[b];
      IndirectWrite(g, d, d', live, owner, i, j, b);
    }
  }

  /** An inode whose own record, pointers and blocks did not change is trivially unshrunk. */
  lemma SameShrunk(g: Geo, d: Disk, d': Disk, live: set<nat>, owner: Owner, j: nat)
    requires Inv(g, d, live, owner) && j in live
    requires Shape(g, d') && d'.itab[j - 1] == d.itab[j - 1] && d'.data == d.data
    requires d'.ibm == d.ibm && d'.bbm == d.bbm
    ensures InodeOk(g, d, j) && Shrunk(g, d, d', j)
  {
    assert InodeOk(g, d, j);
    forall l | 0 <= l < SLOTS && Ptr(g, d', j, l) != 0
      ensures Marked(g, d', Ptr(g, d', j, l))
    {
      assert SlotOk(g, d, owner, j, l);
    }
  }

  /** Writing bytes of a file keeps the invariant. */
  lemma InvFileWrite(g: Geo, d: Disk, d': Disk, live: set<nat>, owner: Owner, i: nat, k: nat)
    requires Inv(g, d, live, owner) && i in live && k < SLOTS && k != 12 && !d.itab[i - 1].IsDir()
    requires Ptr(g, d, i, k) != 0 && Shape(g, d')
    requires d' == d.(data := d'.data)
    requires forall b :: 0 <= b < g.blocks && b != Ptr(g, d, i, k) ==> d'.data[b] == d.data[b]
    ensures Inv(g, d', live, owner)
  {
    forall j | j in live
      ensures Shrunk(g, d, d', j)
    {
      forall l | 0 <= l < SLOTS
        ensures InodeOk(g, d', j) && Ptr(g, d', j, l) == Ptr(g, d, j, l)
        ensures Ptr(g, d', j, l) != 0 ==> Marked(g, d', Ptr(g, d', j, l))
      {
        DataWrite(g, d, d', live, owner, i, k, j, l);
        assert SlotOk(g, d, owner, j, l);
      }
      if d.itab[j - 1].IsDir() {
        DataWriteOtherDir(g, d, d', live, owner, i, k, j);
      }
    }
    InvShrunk(g, d, d', live, owner);
  }

  lemma DataWriteOtherDir(g: Geo, d: Disk, d': Disk, live: set<nat>, owner: Owner, i: nat, k: nat, j: nat)
    requires Inv(g, d, live, owner) && i in live && k < SLOTS && k != 12
    requires Ptr(g, d, i, k) != 0 && Shape(g, d')
    requires d' == d.(data := d'.data)
    requires forall b :: 0 <= b < g.blocks && b != Ptr(g, d, i, k) ==> d'.data[b] == d.data[b]
    requires j in live && j != i
    ensures InodeOk(g, d, j) && InodeOk(g, d', j) && SameDir(g, d, d', j)
  {
    var n := d.itab[j - 1];
    DataWrite(g, d, d', live, owner, i, k, j, 0);
    forall b | 0 <= b < 12 && n.block[b] != 0 && n.block[b] < g.blocks
      ensures d'.data[n.block[b]] == d.data[n.block[b]]
    {
      assert Ptr(g, d, j, b) == n.block[b];
      DataWrite(g, d, d', live, owner, i, k, j, b);
    }
  }

  /** Replacing a directory block by one whose records all name live inodes keeps the invariant. */
  lemma InvDirWrite(g: Geo, d: Disk, d': Disk, live: set<nat>, owner: Owner, i: nat, b: nat)
    requires Inv(g, d, live, owner) && i in live && d.itab[i - 1].IsDir()
    requires b < DirBlocks(d.itab[i - 1]) && b < 12 && Ptr(g, d, i, b) != 0
    requires Shape(g, d') && d' == d.(data := d'.data)
    requires forall x :: 0 <= x < g.blocks && x != Ptr(g, d, i, b) ==> d'.data[x] == d.data[x]
    requires Ptr(g, d, i, b) < g.blocks && BlockClosed(d'.data[Ptr(g, d, i, b)], live)
    ensures Inv(g, d', live, owner)
  {
    forall j, l | j in live && 0 <= l < SLOTS
      ensures InodeOk(g, d', j) && SlotOk(g, d', owner, j, l)
    {
      DataWrite(g, d, d', live, owner, i, b, j, l);
      assert SlotOk(g, d, owner, j, l);
    }
    assert LiveOk(g, d', live);
    forall j | j in live && d'.itab[j - 1].IsDir()
      ensures DirOk(g, d', live, j)
    {
      assert DirOk(g, d, live, j);
      if j != i {
        DataWriteOtherDir(g, d, d', live, owner, i, b, j);
        SameDirOk(g, d, d', live, j);
      } else {
        DirWriteSelf(g, d, d', live, owner, i, b);
      }
    }
  }

  lemma DirWriteSelf(g: Geo, d: Disk, d': Disk, live: set<nat>, owner: Owner, i: nat, b: nat)
    requires Inv(g, d, live, owner) && i in live && d.itab[i - 1].IsDir()
    requires b < DirBlocks(d.itab[i - 1]) && b < 12 && Ptr(g, d, i, b) != 0
    requires Shape(g, d') && d' == d.(data := d'.data)
    requires forall x :: 0 <= x < g.blocks && x != Ptr(g, d, i, b) ==> d'.data[x] == d.data[x]
    requires Ptr(g, d, i, b) < g.blocks && BlockClosed(d'.data[Ptr(g, d, i, b)], live)
    ensures InodeOk(g, d', i) && DirOk(g, d', live, i)
  {
    var n := d.itab[i - 1];
    assert InodeOk(g, d, i) && DirOk(g, d, live, i);
    forall c | 0 <= c < DirBlocks(n)
      ensures n.block[c] < g.blocks && BlockClosed(d'.data[n.block[c]], live)
    {
      assert Ptr(g, d, i, c) == n.block[c];
      if c != b {
        DataWrite(g, d, d', live, owner, i, b, i, c);
        assert BlockClosed(d.data[n.block[c]], live);
      }
    }
  }

  // ------------------------------------------------------------- new pointers

  /** A file gains one pointer, to a block nothing named. */
  lemma InvLink(g: Geo, d: Disk, d': Disk, live: set<nat>, owner: Owner, i: nat, k: nat, blk: nat)
    requires Inv(g, d, live, owner) && Shape(g, d')
    requires i in live && k < SLOTS && !d.itab[i - 1].IsDir()
    requires InRange(g, blk) && Marked(g, d', blk) && Unpointed(g, d, live, blk)
    requires InodeOk(g, d', i) && !d'.itab[i - 1].IsDir() && Ptr(g, d', i, k) == blk
    requires forall l :: 0 <= l < SLOTS && l != k ==> Ptr(g, d', i, l) == Ptr(g, d, i, l)
    requires forall l :: 0 <= l < SLOTS && Ptr(g, d, i, l) != 0 ==> Marked(g, d', Ptr(g, d, i, l))
    requires forall j :: j in live && j != i ==> Shrunk(g, d, d', j)
    ensures Inv(g, d', live, owner[blk := (i, k)])
  {
    var owner' := owner[blk := (i, k)];
    forall j, l | j in live && 0 <= l < SLOTS
      ensures InodeOk(g, d', j) && SlotOk(g, d', owner', j, l)
    {
      assert InodeOk(g, d, j) && SlotOk(g, d, owner, j, l) && Ptr(g, d, j, l) != blk;
      if j != i {
        assert Shrunk(g, d, d', j);
      }
    }
    assert LiveOk(g, d', live);
    forall j | j in live && d'.itab[j - 1].IsDir()
      ensures DirOk(g, d', live, j)
    {
      assert Shrunk(g, d, d', j) && DirOk(g, d, live, j);
      SameDirOk(g, d, d', live, j);
    }
    assert ROOT != i && Shrunk(g, d, d', ROOT);
  }

  lemma DirOkGrows(g: Geo, d: Disk, live: set<nat>, live': set<nat>, i: nat)
    requires InodeOk(g, d, i) && DirOk(g, d, live, i) && live <= live'
    ensures DirOk(g, d, live', i)
  {
    var n := d.itab[i - 1];
    forall b | 0 <= b < DirBlocks(n)
      ensures BlockClosed(d.data[n.block[b]], live')
    {
      assert BlockClosed(d.data[n.block[b]], live);
    }
  }

  /** An initialized inode with no blocks may join the live set. */
  lemma InvAdoptFile(g: Geo, d: Disk, live: set<nat>, owner: Owner, c: nat)
    requires Inv(g, d, live, owner)
    requires InodeOk(g, d, c) && !d.itab[c - 1].IsDir()
    requires d.itab[c - 1].block == NoPtrs()
    ensures Inv(g, d, live + {c}, owner)
  {
    var live' := live + {c};
    forall i, k | i in live' && 0 <= k < SLOTS
      ensures SlotOk(g, d, owner, i, k)
    {
      if i != c { assert SlotOk(g, d, owner, i, k); }
    }
    forall i | i in live' && d.itab[i - 1].IsDir()
      ensures DirOk(g, d, live', i)
    {
      assert i != c;
      DirOkGrows(g, d, live, live', i);
    }
  }

  /** An initialized one-block directory may join the live set. */
  lemma InvAdoptDir(g: Geo, d: Disk, live: set<nat>, owner: Owner, c: nat, blk: nat)
    requires Inv(g, d, live, owner) && c !in live
    requires InodeOk(g, d, c) && d.itab[c - 1].IsDir() && d.itab[c - 1].size == 1024
    requires d.itab[c - 1].block == NoPtrs()[0 := blk]
    requires InRange(g, blk) && Marked(g, d, blk) && Unpointed(g, d, live, blk)
    requires BlockClosed(d.data[blk], live + {c})
    ensures Inv(g, d, live + {c}, owner[blk := (c, 0)])
  {
    var live' := live + {c};
    var owner' := owner[blk := (c, 0)];
    forall i, k | i in live' && 0 <= k < SLOTS
      ensures SlotOk(g, d, owner', i, k)
    {
      if i != c {
        assert SlotOk(g, d, owner, i, k) && Ptr(g, d, i, k) != blk;
      }
    }
    forall i | i in live' && d.itab[i - 1].IsDir()
      ensures DirOk(g, d, live', i)
    {
      if i != c { DirOkGrows(g, d, live, live', i); }
    }
  }

  /** A directory gains one block of records that all name live inodes. */
  lemma InvDirGrow(g: Geo, d: Disk, d': Disk, live: set<nat>, owner: Owner, i: nat, blk: nat)
    requires Inv(g, d, live, owner) && i in live && d.itab[i - 1].IsDir()
    requires DirBlocks(d.itab[i - 1]) < 12
    requires InRange(g, blk) && Marked(g, d, blk) && Unpointed(g, d, live, blk)
    requires BlockClosed(d.data[blk], live)
    requires |d'.itab| == |d.itab| && d' == d.(itab := d.itab[i - 1 := d'.itab[i - 1]])
    requires var n, n' := d.itab[i - 1], d'.itab[i - 1];
             n'.IsDir() && n'.size == n.size + 1024 && n'.block == n.block[DirBlocks(n) := blk]
    ensures Inv(g, d', live, owner[blk := (i, DirBlocks(d.itab[i - 1]))])
  {
    var n, n' := d.itab[i - 1], d'.itab[i - 1];
    var owner' := owner[blk := (i, DirBlocks(n))];
    assert DirOk(g, d, live, i);
    forall j, l | j in live && 0 <= l < SLOTS
      ensures InodeOk(g, d', j) && SlotOk(g, d', owner', j, l)
    {
      assert InodeOk(g, d, j) && SlotOk(g, d, owner, j, l) && Ptr(g, d, j, l) != blk;
    }
    assert LiveOk(g, d', live);
    forall j | j in live && d'.itab[j - 1].IsDir()
      ensures DirOk(g, d', live, j)
    {
      if j != i {
        assert DirOk(g, d, live, j);
        SameDirOk(g, d, d', live, j);
      } else {
        DirGrowSelf(g, d, d', live, i, blk);
      }
    }
  }

  lemma DirGrowSelf(g: Geo, d: Disk, d': Disk, live: set<nat>, i: nat, blk: nat)
    requires InodeOk(g, d, i) && InodeOk(g, d', i) && DirOk(g, d, live, i)
    requires DirBlocks(d.itab[i - 1]) < 12 && 0 < blk < g.blocks
    requires BlockClosed(d.data[blk], live) && d'.data == d.data
    requires var n, n' := d.itab[i - 1], d'.itab[i - 1];
             n'.size == n.size + 1024 && n'.block == n.block[DirBlocks(n) := blk]
    ensures DirOk(g, d', live, i)
  {
    var n, n' := d.itab[i - 1], d'.itab[i - 1];
    assert DirBlocks(n') == DirBlocks(n) + 1;
    forall b | 0 <= b < DirBlocks(n')
      ensures n'.block[b] < g.blocks && BlockClosed(d'.data[n'.block[b]], live)
    {
      if b < DirBlocks(n) {
        assert BlockClosed(d.data[n.block[b]], live);
      }
    }
  }

  // --------------------------------------------------------- writes off to the side

  /** Changing one unpointed block and its bit, and the counts, keeps the invariant. */
  lemma InvScratch(g: Geo, d: Disk, d': Disk, live: set<nat>, owner: Owner, b: nat)
    requires Inv(g, d, live, owner) && Unpointed(g, d, live, b) && 1 <= b < g.blocks
    requires Shape(g, d') && d'.itab == d.itab && d'.ibm == d.ibm
    requires forall x :: 0 <= x < g.blocks && x != b ==> d'.data[x] == d.data[x]
    requires forall x :: 0 <= x < 8192 && x != b - 1 ==> d'.bbm[x] == d.bbm[x]
    ensures Inv(g, d', live, owner) && Unpointed(g, d', live, b)
  {
    assert Outside(g, d, d', live);
    InvOutside(g, d, d', live, owner);
    forall i, k | i in live && 0 <= k < SLOTS
      ensures Ptr(g, d', i, k) != b
    {
      OutsideSlot(g, d, d', live, owner, i, k);
    }
  }

  /** Changing one inode that is not live, its bit, and the counts, keeps the invariant. */
  lemma InvScratchInode(g: Geo, d: Disk, d': Disk, live: set<nat>, owner: Owner, c: nat)
    requires Inv(g, d, live, owner) && c !in live && 1 <= c <= g.inodes
    requires Shape(g, d') && d'.bbm == d.bbm && d'.data == d.data
    requires forall x :: 0 <= x < g.inodes && x != c - 1 ==> d'.itab[x] == d.itab[x]
    requires forall x :: 0 <= x < 8192 && x != c - 1 ==> d'.ibm[x] == d.ibm[x]
    ensures Inv(g, d', live, owner)
    ensures forall b :: Unpointed(g, d, live, b) ==> Unpointed(g, d', live, b)
  {
    assert LiveOk(g, d, live);
    assert Outside(g, d, d', live);
    InvOutside(g, d, d', live, owner);
    forall b | Unpointed(g, d, live, b)
      ensures Unpointed(g, d', live, b)
    {
      forall i, k | i in live && 0 <= k < SLOTS
        ensures Ptr(g, d', i, k) != b
      {
        OutsideSlot(g, d, d', live, owner, i, k);
      }
    }
  }

  /** Writing the counts alone changes nothing the invariant speaks of. */
  lemma InvCounts(g: Geo, d: Disk, live: set<nat>, owner: Owner, sb: Super, gd: Group)
    requires Inv(g, d, live, owner)
    ensures Inv(g, d.(sb := sb, gd := gd), live, owner)
    ensures forall b :: Unpointed(g, d, live, b) ==> Unpointed(g, d.(sb := sb, gd := gd), live, b)
  {
    var d' := d.(sb := sb, gd := gd);
    assert LiveOk(g, d, live);
    assert Outside(g, d, d', live);
    InvOutside(g, d, d', live, owner);
    forall b | Unpointed(g, d, live, b)
      ensures Unpointed(g, d', live, b)
    {
      forall i, k | i in live && 0 <= k < SLOTS
        ensures Ptr(g, d', i, k) != b
      {
        OutsideSlot(g, d, d', live, owner, i, k);
      }
    }
  }
}
