/** Adding an entry to a directory (kernel/ext2.c:686-769). */
module Ext2DirAdd {
  import opened Machine
  import opened Ext2Blocks
  import opened Ext2Dirents
  import opened Ext2Disk
  import opened Ext2Content
  import opened Ext2Alloc
  import opened Ext2Files
  import opened Ext2Dirs

  /** Inode c is initialized on the device and waits to be named: an empty file
      (blk is 0) or a directory with the single block blk. */
  ghost predicate Adoptable(g: Geo, d: Disk, live: set<nat>, c: nat, blk: nat)
    requires LiveOk(g, d, live)
  {
    && InodeOk(g, d, c) && c !in live
    && if blk == 0 then !d.itab[c - 1].IsDir() && d.itab[c - 1].block == NoPtrs()
       else
         && d.itab[c - 1].IsDir() && d.itab[c - 1].size == 1024 && d.itab[c - 1].block == NoPtrs()[0 := blk]
         && InRange(g, blk) && Marked(g, d, blk) && Unpointed(g, d, live, blk)
         && BlockClosed(d.data[blk], live + {c})
  }

  ghost function AdoptOwner(owner: Owner, c: nat, blk: nat): Owner
  {
    if blk == 0 then owner else owner[blk := (c, 0)]
  }

  lemma Adopt(g: Geo, d: Disk, live: set<nat>, owner: Owner, c: nat, blk: nat)
    requires Inv(g, d, live, owner) && Adoptable(g, d, live, c, blk)
    ensures Inv(g, d, live + {c}, AdoptOwner(owner, c, blk))
  {
    if blk == 0 {
      InvAdoptFile(g, d, live, owner, c);
    } else {
      InvAdoptDir(g, d, live, owner, c, blk);
    }
  }

  lemma AdoptableLeaked(g: Geo, d: Disk, d': Disk, live: set<nat>, owner: Owner, c: nat, blk: nat)
    requires Inv(g, d, live, owner) && Inv(g, d', live, owner) && Leaked(g, d, d')
    requires Adoptable(g, d, live, c, blk)
    ensures Adoptable(g, d', live, c, blk)
  {
    LeakedOutside(g, d, d', live, owner);
    if blk != 0 {
      forall i, k | i in live && 0 <= k < SLOTS
        ensures Ptr(g, d', i, k) != blk
      {
        OutsideSlot(g, d, d', live, owner, i, k);
      }
    }
  }

  /** One list is the other with e put in somewhere. */
  ghost predicate Inserted(l: seq<Entry>, l': seq<Entry>, e: Entry)
  {
    exists k :: InsertedAt(l, l', e, k)
  }

  ghost predicate InsertedAt(l: seq<Entry>, l': seq<Entry>, e: Entry, k: int)
  {
    0 <= k <= |l| && l' == l[..k] + [e] + l[k..]
  }

  ghost predicate DistinctNames(l: seq<Entry>)
  {
    forall i, j :: 0 <= i < j < |l| ==> l[i].name != l[j].name
  }

  /** The bindings of l' are those of l and e: e alone is new, and only where e's
      name was bound before may either of the two be found. */
  ghost predicate OneMore(l: seq<Entry>, l': seq<Entry>, e: Entry)
  {
    && (forall name :: name != e.name ==> Find(l', name) == Find(l, name))
    && Find(l', e.name) in {e.ino, Find(l, e.name)}
    && Find(l', e.name) != 0
  }

  /** Putting in an entry adds one binding to the map and changes no other. */
  lemma InsertedFind(l: seq<Entry>, l': seq<Entry>, e: Entry)
    requires Inserted(l, l', e) && e.ino != 0 && forall x :: x in l ==> x.ino != 0
    ensures OneMore(l, l', e)
  {
    var k :| InsertedAt(l, l', e, k);
    assert l[..k] + l[k..] == l;
    assert forall x :: x in l[..k] ==> x in l;
    forall name
      ensures Find(l', name) == if Find(l[..k], name) != 0 then Find(l[..k], name)
                                else if name == e.name then e.ino else Find(l[k..], name)
      ensures Find(l, name) == if Find(l[..k], name) != 0 then Find(l[..k], name) else Find(l[k..], name)
    {
      FindConcat(l[..k], l[k..], name);
      assert l' == l[..k] + ([e] + l[k..]);
      FindConcat(l[..k], [e] + l[k..], name);
      FindHead(e, l[k..], name);
    }
  }

  lemma {:induction false} AbsentName(l: seq<Entry>, name: Name, i: nat)
    requires Find(l, name) == 0 && i < |l| && forall x :: x in l ==> x.ino != 0
    ensures l[i].name != name
  {
    assert l[0] in l;
    if i > 0 {
      AbsentName(l[1..], name, i - 1);
    }
  }

  lemma InsertedDistinct(l: seq<Entry>, l': seq<Entry>, e: Entry)
    requires Inserted(l, l', e) && DistinctNames(l) && forall x :: x in l ==> x.ino != 0
    requires Find(l, e.name) == 0
    ensures DistinctNames(l')
  {
    var k :| InsertedAt(l, l', e, k);
    forall i | 0 <= i < |l|
      ensures l[i].name != e.name
    {
      AbsentName(l, e.name, i);
    }
  }

  /** Names stay distinct exactly if the added one was absent. */
  lemma InsertedDistinctIff(l: seq<Entry>, l': seq<Entry>, e: Entry)
    requires Inserted(l, l', e) && forall x :: x in l ==> x.ino != 0
    ensures DistinctNames(l') <==> DistinctNames(l) && Find(l, e.name) == 0
  {
    if Find(l, e.name) != 0 {
      PresentTwice(l, l', e);
    } else if DistinctNames(l) {
      InsertedDistinct(l, l', e);
    } else {
      StillTwice(l, l', e);
    }
  }

  lemma PresentTwice(l: seq<Entry>, l': seq<Entry>, e: Entry)
    requires Inserted(l, l', e) && Find(l, e.name) != 0
    ensures !DistinctNames(l')
  {
    var k :| InsertedAt(l, l', e, k);
    FoundIsListed(l, e.name);
    var i :| 0 <= i < |l| && l[i] == Entry(e.name, Find(l, e.name));
    if i < k {
      assert l'[i].name == l'[k].name;
    } else {
      assert l'[k].name == l'[i + 1].name;
    }
  }

  lemma StillTwice(l: seq<Entry>, l': seq<Entry>, e: Entry)
    requires Inserted(l, l', e) && !DistinctNames(l)
    ensures !DistinctNames(l')
  {
    var k :| InsertedAt(l, l', e, k);
    var i, j :| 0 <= i < j < |l| && l[i].name == l[j].name;
    var a, b := if i < k then i else i + 1, if j < k then j else j + 1;
    assert l'[a] == l[i] && l'[b] == l[j];
  }

  /** With distinct names, lookup finds exactly what the listing shows. */
  lemma {:induction false} ListedIsFound(l: seq<Entry>, i: nat)
    requires DistinctNames(l) && i < |l|
    ensures Find(l, l[i].name) == l[i].ino
  {
    if i > 0 {
      assert l[0].name != l[i].name;
      assert DistinctNames(l[1..]);
      assert l[1..][i - 1] == l[i];
      ListedIsFound(l[1..], i - 1);
    }
  }

  lemma {:induction false} FoundIsListed(l: seq<Entry>, name: Name)
    requires Find(l, name) != 0
    ensures Entry(name, Find(l, name)) in l
  {
    if l[0].name != name {
      FoundIsListed(l[1..], name);
    }
  }

  // ------------------------------------------------------------- scanning for room

  /** The chain from off on ends in a record that can be cut for `need` more bytes. */
  ghost predicate Room(b: Block, off: nat, limit: nat, need: nat)
    requires limit <= 1024
    decreases 1024 - off
  {
    off + 8 <= limit && RecOk(b, off, limit) &&
    if off + RecLen(b, off) >= limit then RecLen(b, off) >= RecSize(NameLen(b, off)) + need
    else Room(b, off + RecLen(b, off), limit, need)
  }

  /** Block b of the directory has no room for the name. */
  ghost predicate Crammed(d: Disk, n: Inode, b: nat, name: Name)
  {
    b < 12 && (n.block[b] < |d.data| ==> !Room(d.data[n.block[b]], 0, 1024, RecSize(|name|)))
  }

  /** There is no place for the name: it is too long, or no block of the directory
      has room and no further block can be had. */
  ghost predicate NoPlace(g: Geo, d: Disk, sb: Super, gd: Group, n: Inode, name: Name)
  {
    || |name| > 255
    || ((forall b: nat :: b < DirBlocks(n) ==> Crammed(d, n, b, name)) && (DirBlocks(n) >= 12 || NoBlock(g, d, sb, gd)))
  }

  /** Only the directory's blocks, the marks and the counts of free blocks matter. */
  lemma NoPlaceSame(g: Geo, d: Disk, sb: Super, gd: Group, n: Inode, d': Disk, sb': Super, gd': Group, n': Inode,
                    name: Name)
    requires n'.block == n.block && n'.size == n.size
    requires |d'.data| == |d.data| && d'.bbm == d.bbm && sb'.freeBlocks == sb.freeBlocks
    requires gd'.freeBlocks == gd.freeBlocks
    requires forall b :: 0 <= b < DirBlocks(n) && b < 12 && n.block[b] < |d.data| ==>
               d'.data[n.block[b]] == d.data[n.block[b]]
    ensures NoPlace(g, d', sb', gd', n', name) == NoPlace(g, d, sb, gd, n, name)
  {
    hide Room, NoBlock;
    assert forall b: nat :: b < DirBlocks(n) ==> Crammed(d', n', b, name) == Crammed(d, n, b, name);
    NoBlockSame(g, d, sb, gd, d', sb', gd');
  }

  /** No live directory uses a block that nothing names. */
  lemma DirAvoids(g: Geo, d: Disk, live: set<nat>, owner: Owner, dir: nat, n: Inode, blk: nat)
    requires Inv(g, d, live, owner) && dir in live && n == d.itab[dir - 1] && n.IsDir() && Unpointed(g, d, live, blk)
    ensures DirBlocks(n) <= 12 && forall b :: 0 <= b < DirBlocks(n) ==> n.block[b] != blk
  {
    DirPointer(g, d, live, owner, dir, 0);
    forall b | 0 <= b < DirBlocks(n)
      ensures n.block[b] != blk
    {
      assert InodeOk(g, d, dir) && Ptr(g, d, dir, b) == n.block[b];
    }
  }

  /** Reads made by an insertion that is refused, once `taken` more blocks are gone: the
      directory's blocks, and the block bitmap if it may grow and the counts promise a block. */
  ghost function AddReads(n: Inode, name: Name, sb: Super, gd: Group, taken: nat): nat
  {
    if |name| > 255 then 0
    else DirBlocks(n) + if DirBlocks(n) < 12 && sb.freeBlocks > taken && gd.freeBlocks > taken then 1 else 0
  }

  /** Find the last record of the block if the new one fits behind it. */
  method ScanRoom(b: Block, limit: nat, need: nat) returns (fits: bool, off: nat)
    requires limit <= 1024
    ensures fits <==> Room(b, 0, limit, need)
    ensures fits ==> OnChain(b, 0, off, limit) && RecOk(b, off, limit) && off + RecLen(b, off) == limit
                     && RecSize(NameLen(b, off)) + need <= RecLen(b, off)
  {
    fits, off := false, 0;
    while off + 8 <= limit && RecOk(b, off, limit)
      invariant OnChain(b, 0, off, limit) && Room(b, 0, limit, need) == Room(b, off, limit, need)
      decreases 1024 - off
    {
      if off + RecLen(b, off) >= limit {
        if RecLen(b, off) >= RecSize(NameLen(b, off)) + need {
          return true, off;
        }
      }
      OnChainStep(b, 0, off, limit);
      off := off + RecLen(b, off);
    }
  }

  /** Store block b of the directory and so bring inode c to life. */
  method StoreDirBlock(m: Mount, dir: nat, b: nat, nb: Block, ghost c: nat, ghost blk: nat) returns (ok: bool)
    requires m.Valid() && dir in m.live && m.disk.itab[dir - 1].IsDir()
    requires b < 12 && b < DirBlocks(m.disk.itab[dir - 1])
    requires Adoptable(m.g, m.disk, m.live, c, blk) && BlockClosed(nb, m.live + {c})
    modifies m`nwrites, m`faults, m`disk, m`history, m`live, m`owner
    ensures old(m.history) <= m.history
    ensures m.Valid() && m.faults == old(m.faults) + if ok then 0 else 1
    ensures !ok ==> m.disk == old(m.disk) && m.live == old(m.live) && m.owner == old(m.owner)
    ensures ok ==> m.live == old(m.live) + {c} && old(m.disk).itab[dir - 1].block[b] < m.g.blocks
                   && m.disk == old(m.disk).(data := old(m.disk).data[old(m.disk).itab[dir - 1].block[b] := nb])
  {
    ghost var live0, owner0 := m.live, m.owner;
    DirPointer(m.g, m.disk, m.live, m.owner, dir, b);
    Adopt(m.g, m.disk, m.live, m.owner, c, blk);
    m.live, m.owner := m.live + {c}, AdoptOwner(m.owner, c, blk);
    var p := m.disk.itab[dir - 1].block[b];
    assert Ptr(m.g, m.disk, dir, b) == p;
    InvDirWrite(m.g, m.disk, m.disk.(data := m.disk.data[p := nb]), m.live, m.owner, dir, b);
    ok := m.DevWrite(m.disk.(data := m.disk.data[p := nb]));
    if !ok {
      m.live, m.owner := live0, owner0;
    }
  }

  /** Directory record n with block blk as its b-th. */
  function Grown(n: Inode, b: nat, blk: nat): Inode
    requires b < 12
  {
    n.(block := n.block[b := blk], sectors := (n.sectors + 2) % TWO32, size := (b + 1) * 1024)
  }

  lemma AdoptUnpointed(g: Geo, d: Disk, live: set<nat>, c: nat, blk: nat, b: nat)
    requires LiveOk(g, d, live) && Adoptable(g, d, live, c, blk) && Unpointed(g, d, live, b) && b != blk && b != 0
    requires LiveOk(g, d, live + {c})
    ensures Unpointed(g, d, live + {c}, b)
  {}

  /** Store the grown directory inode and so bring inode c to life. */
  method StoreDirInode(m: Mount, dir: nat, b: nat, nblk: nat, ghost c: nat, ghost blk: nat) returns (ok: bool)
    requires m.Valid() && dir in m.live && m.disk.itab[dir - 1].IsDir()
    requires b == DirBlocks(m.disk.itab[dir - 1]) < 12 && nblk != blk
    requires InRange(m.g, nblk) && Marked(m.g, m.disk, nblk) && Unpointed(m.g, m.disk, m.live, nblk)
    requires Adoptable(m.g, m.disk, m.live, c, blk) && BlockClosed(m.disk.data[nblk], m.live + {c})
    modifies m`nreads, m`nwrites, m`faults, m`disk, m`history, m`live, m`owner
    ensures old(m.history) <= m.history
    ensures m.Valid() && m.faults == old(m.faults) + if ok then 0 else 1
    ensures !ok ==> m.disk == old(m.disk) && m.live == old(m.live) && m.owner == old(m.owner)
    ensures ok ==> m.live == old(m.live) + {c}
                   && m.disk == old(m.disk).(
                        itab := old(m.disk).itab[dir - 1 := Grown(old(m.disk).itab[dir - 1], b, nblk)])
  {
    ghost var live0, owner0 := m.live, m.owner;
    var n := m.disk.itab[dir - 1];
    var d' := m.disk.(itab := m.disk.itab[dir - 1 := Grown(n, b, nblk)]);
    DirPointer(m.g, m.disk, m.live, m.owner, dir, 0);
    Adopt(m.g, m.disk, m.live, m.owner, c, blk);
    AdoptUnpointed(m.g, m.disk, m.live, c, blk, nblk);
    m.live, m.owner := m.live + {c}, AdoptOwner(m.owner, c, blk);
    InvDirGrow(m.g, m.disk, d', m.live, m.owner, dir, nblk);
    m.owner := m.owner[nblk := (dir, DirBlocks(n))];
    OwnerGrows(m.g, m.disk, m.live, AdoptOwner(owner0, c, blk), nblk, (dir, DirBlocks(n)));
    ok := WriteInode(m, dir, Grown(n, b, nblk));
    if !ok {
      m.live, m.owner := live0, owner0;
    }
  }

  /** Recording an owner for a block nothing names changes nothing. */
  lemma OwnerGrows(g: Geo, d: Disk, live: set<nat>, owner: Owner, b: nat, slot: (nat, nat))
    requires Inv(g, d, live, owner) && Unpointed(g, d, live, b)
    ensures Inv(g, d, live, owner[b := slot])
  {
    var owner' := owner[b := slot];
    forall i, k | i in live && 0 <= k < SLOTS
      ensures SlotOk(g, d, owner', i, k)
    {
      assert InodeOk(g, d, i) && SlotOk(g, d, owner, i, k) && Ptr(g, d, i, k) != b;
    }
  }

  // ------------------------------------------------------------ what the entry adds

  /** The directory gained entry e, and every other node is what it was. */
  ghost predicate Extended(g: Geo, d: Disk, d': Disk, live: set<nat>, dir: nat, c: nat, e: Entry)
  {
    && InodeOk(g, d, dir) && InodeOk(g, d', dir)
    && DirOk(g, d, live, dir) && DirOk(g, d', live + {c}, dir)
    && Inserted(Listing(g, d, live, dir), Listing(g, d', live + {c}, dir), e)
    && d'.itab[dir - 1].mode == d.itab[dir - 1].mode && d'.itab[dir - 1].links == d.itab[dir - 1].links
    && (forall j :: (j in live || j == c) && j != dir ==> SameNode(g, d, d', j))
    && (SectorsOk(g, d, dir) ==> SectorsOk(g, d', dir))
  }

  lemma {:induction false} ReplacedBlock(g: Geo, n: Inode, data: seq<Block>, data': seq<Block>, b: nat, k: nat,
                                         e: Entry)
    requires b < k <= 12 && |data| == |data'| == g.blocks
    requires forall c :: 0 <= c < k ==> n.block[c] < g.blocks
    requires forall c :: 0 <= c < k && c != b ==> data'[n.block[c]] == data[n.block[c]]
    requires Entries(data'[n.block[b]], 0, 1024) == Entries(data[n.block[b]], 0, 1024) + [e]
    ensures |EntriesUpTo(g, n, data, b + 1)| <= |EntriesUpTo(g, n, data, k)|
    ensures InsertedAt(EntriesUpTo(g, n, data, k), EntriesUpTo(g, n, data', k), e, |EntriesUpTo(g, n, data, b + 1)|)
  {
    hide Entries;
    var at := |EntriesUpTo(g, n, data, b + 1)|;
    if k == b + 1 {
      SameUpTo(g, n, n, data, data', b);
      AddedLast(EntriesUpTo(g, n, data, b), Entries(data[n.block[b]], 0, 1024), e);
    } else {
      ReplacedBlock(g, n, data, data', b, k - 1, e);
      InsertedBefore(EntriesUpTo(g, n, data, k - 1), EntriesUpTo(g, n, data', k - 1), e, at,
                     Entries(data[n.block[k - 1]], 0, 1024));
    }
  }

  lemma AddedLast(l: seq<Entry>, more: seq<Entry>, e: Entry)
    ensures InsertedAt(l + more, l + (more + [e]), e, |l + more|)
  {
    var r := l + more;
    assert r[..|r|] == r && r[|r|..] == [];
  }

  lemma InsertedBefore(l: seq<Entry>, l': seq<Entry>, e: Entry, at: nat, more: seq<Entry>)
    requires InsertedAt(l, l', e, at)
    ensures InsertedAt(l + more, l' + more, e, at)
  {
    assert (l + more)[..at] == l[..at] && (l + more)[at..] == l[at..] + more;
  }

  lemma {:induction false} SameUpTo(g: Geo, n: Inode, n': Inode, data: seq<Block>, data': seq<Block>, k: nat)
    requires k <= 12 && |data| == |data'| == g.blocks
    requires forall c :: 0 <= c < k ==> n'.block[c] == n.block[c] && n.block[c] < g.blocks
    requires forall c :: 0 <= c < k ==> data'[n.block[c]] == data[n.block[c]]
    ensures EntriesUpTo(g, n', data', k) == EntriesUpTo(g, n, data, k)
  {
    if k > 0 { SameUpTo(g, n, n', data, data', k - 1); }
  }

  /** The blocks of a live directory are distinct. */
  lemma DirBlocksDistinct(g: Geo, d: Disk, live: set<nat>, owner: Owner, i: nat, b: nat, c: nat)
    requires Inv(g, d, live, owner) && i in live && d.itab[i - 1].IsDir()
    requires b < 12 && c < 12 && b != c && d.itab[i - 1].block[b] != 0
    ensures d.itab[i - 1].block[b] != d.itab[i - 1].block[c]
  {
    assert InodeOk(g, d, i) && SlotOk(g, d, owner, i, b) && SlotOk(g, d, owner, i, c);
    assert Ptr(g, d, i, b) == d.itab[i - 1].block[b] && Ptr(g, d, i, c) == d.itab[i - 1].block[c];
  }

  /** Storing a split block extends the directory. */
  lemma SplitExtends(g: Geo, d: Disk, d': Disk, live: set<nat>, owner: Owner, owner': Owner, dir: nat, b: nat, c: nat,
                     e: Entry)
    requires Inv(g, d, live + {c}, owner) && Inv(g, d', live + {c}, owner') && dir in live && d.itab[dir - 1].IsDir()
    requires InodeOk(g, d, dir) && DirOk(g, d, live, dir) && c != dir
    requires b < 12 && b < DirBlocks(d.itab[dir - 1])
    requires var p := d.itab[dir - 1].block[b];
             && p < g.blocks && d' == d.(data := d.data[p := d'.data[p]]) && |d'.data| == |d.data|
             && Entries(d'.data[p], 0, 1024) == Entries(d.data[p], 0, 1024) + [e]
    ensures Extended(g, d, d', live, dir, c, e)
  {
    hide SameNode, Entries, BlockClosed, SlotOk;
    var n := d.itab[dir - 1];
    var p := n.block[b];
    var k := DirBlocks(n);
    assert Ptr(g, d, dir, b) == p;
    forall x | 0 <= x < k && x != b
      ensures d'.data[n.block[x]] == d.data[n.block[x]]
    {
      DirBlocksDistinct(g, d, live + {c}, owner, dir, x, b);
    }
    ReplacedBlock(g, n, d.data, d'.data, b, k, e);
    assert InsertedAt(Listing(g, d, live, dir), Listing(g, d', live + {c}, dir), e, |EntriesUpTo(g, n, d.data, b + 1)|);
    forall j | (j in live || j == c) && j != dir
      ensures SameNode(g, d, d', j)
    {
      WriteSameNode(g, d, d', live + {c}, owner, dir, b, j);
    }
    forall l | 0 <= l < SLOTS
      ensures Ptr(g, d', dir, l) == Ptr(g, d, dir, l)
    {
      DataWrite(g, d, d', live + {c}, owner, dir, b, dir, l);
    }
    CountSame(g, d, d', dir, SLOTS);
  }

  /** From d to d', a free block was marked and filled and directory dir took it as its last block. */
  ghost predicate GrewBy(g: Geo, d: Disk, d': Disk, dir: nat, nblk: nat, bytes: Block)
  {
    && Shape(g, d) && Shape(g, d') && 1 <= dir <= g.inodes && DirBlocks(d.itab[dir - 1]) < 12
    && InRange(g, nblk) && 1 <= nblk <= 8192 && !d.bbm[nblk - 1]
    && d' == d.(bbm := d.bbm[nblk - 1 := true], data := d.data[nblk := bytes],
                itab := d.itab[dir - 1 := Grown(d.itab[dir - 1], DirBlocks(d.itab[dir - 1]), nblk)],
                sb := d'.sb, gd := d'.gd)
  }

  lemma GrewListing(g: Geo, d: Disk, d': Disk, live: set<nat>, owner: Owner, dir: nat, nblk: nat, bytes: Block)
    requires Inv(g, d, live, owner) && dir in live && d.itab[dir - 1].IsDir() && GrewBy(g, d, d', dir, nblk, bytes)
    ensures InodeOk(g, d, dir) && DirOk(g, d, live, dir)
    ensures var n := d.itab[dir - 1];
            var k := DirBlocks(n);
            && (forall c :: 0 <= c < k ==> n.block[c] < g.blocks && n.block[c] != nblk)
            && DirBlocks(d'.itab[dir - 1]) == k + 1
            && EntriesUpTo(g, d'.itab[dir - 1], d'.data, k + 1)
               == EntriesUpTo(g, n, d.data, k) + Entries(bytes, 0, 1024)
  {
    var n := d.itab[dir - 1];
    var n', k := d'.itab[dir - 1], DirBlocks(n);
    assert InodeOk(g, d, dir) && DirOk(g, d, live, dir);
    forall c | 0 <= c < k
      ensures n.block[c] < g.blocks && n.block[c] != nblk
    {
      DirPointer(g, d, live, owner, dir, c);
    }
    SameUpTo(g, n, n', d.data, d'.data, k);
  }

  lemma GrewSectors(g: Geo, d: Disk, d': Disk, live: set<nat>, owner: Owner, dir: nat, nblk: nat, bytes: Block)
    requires Inv(g, d, live, owner) && dir in live && d.itab[dir - 1].IsDir() && GrewBy(g, d, d', dir, nblk, bytes)
    requires InodeOk(g, d', dir) && SectorsOk(g, d, dir)
    ensures SectorsOk(g, d', dir)
  {
    var k := DirBlocks(d.itab[dir - 1]);
    DirPointer(g, d, live, owner, dir, k);
    assert SlotOk(g, d, owner, dir, 12);
    forall l | 0 <= l < SLOTS && l != k
      ensures Ptr(g, d', dir, l) == Ptr(g, d, dir, l)
    {}
    var c := CountPtrs(g, d, dir, SLOTS);
    CountBound(g, d, dir, SLOTS);
    CountLink(g, d, d', dir, k, SLOTS);
    assert (2 * c + 2) % TWO32 == 2 * (c + 1);
  }

  lemma GrewSameNode(g: Geo, d: Disk, d': Disk, live: set<nat>, owner: Owner, dir: nat, nblk: nat, bytes: Block, j: nat)
    requires Inv(g, d, live, owner) && GrewBy(g, d, d', dir, nblk, bytes) && j in live && j != dir
    ensures SameNode(g, d, d', j)
  {
    assert InodeOk(g, d, j);
    forall k | 0 <= k < SLOTS && 0 < Ptr(g, d, j, k) < g.blocks
      ensures d'.data[Ptr(g, d, j, k)] == d.data[Ptr(g, d, j, k)]
    {
      assert SlotOk(g, d, owner, j, k);
    }
  }

  lemma GrewExtends(g: Geo, d: Disk, d': Disk, live: set<nat>, owner: Owner, owner': Owner, dir: nat, nblk: nat,
                    bytes: Block, c: nat, e: Entry)
    requires Inv(g, d, live + {c}, owner) && Inv(g, d', live + {c}, owner') && GrewBy(g, d, d', dir, nblk, bytes)
    requires dir in live && d.itab[dir - 1].IsDir() && c != dir && Entries(bytes, 0, 1024) == [e]
    requires InodeOk(g, d, dir) && DirOk(g, d, live, dir)
    ensures Extended(g, d, d', live, dir, c, e)
  {
    hide SlotOk, SameNode, BlockClosed, SectorsOk;
    var n, n' := d.itab[dir - 1], d'.itab[dir - 1];
    var k := DirBlocks(n);
    assert InodeOk(g, d', dir) && DirOk(g, d', live + {c}, dir);
    GrewListing(g, d, d', live + {c}, owner, dir, nblk, bytes);
    var l, l' := Listing(g, d, live, dir), Listing(g, d', live + {c}, dir);
    assert l' == l + [e];
    assert l[..|l|] == l && l[|l|..] == [];
    assert InsertedAt(l, l', e, |l|);
    forall j | (j in live || j == c) && j != dir
      ensures SameNode(g, d, d', j)
    {
      GrewSameNode(g, d, d', live + {c}, owner, dir, nblk, bytes, j);
    }
    if SectorsOk(g, d, dir) {
      GrewSectors(g, d, d', live + {c}, owner, dir, nblk, bytes);
    }
  }

  // ------------------------------------------------------------------ ext2_dir_add

  lemma SplitClosed(b: Block, off: nat, live: set<nat>, c: nat, name: Name)
    requires BlockClosed(b, live) && 0 < c < TWO32 && |name| <= 255
    requires OnChain(b, 0, off, 1024) && RecOk(b, off, 1024) && off + RecLen(b, off) == 1024
    requires RecSize(NameLen(b, off)) + RecSize(|name|) <= RecLen(b, off)
    ensures BlockClosed(Split(b, off, c, name), live + {c})
    ensures Entries(Split(b, off, c, name), 0, 1024) == Entries(b, 0, 1024) + [Entry(name, c)]
  {
    hide Split, Entries, Chain, OnChain, RecOk;
    SplitEntries(b, 0, off, 1024, c, name);
  }

  lemma OneRecordClosed(live: set<nat>, c: nat, name: Name)
    requires 0 < c < TWO32 && |name| <= 255
    ensures BlockClosed(OneRecord(c, name), live + {c})
    ensures Entries(OneRecord(c, name), 0, 1024) == [Entry(name, c)]
  {
    hide OneRecord, Entries, Chain;
    OneRecordEntries(c, name);
  }

  /** Put the entry behind the last record of block b. */
  method AppendEntry(m: Mount, dir: nat, n: Inode, b: nat, off: nat, c: nat, name: Name, ghost blk: nat)
    returns (ok: bool)
    requires m.Valid() && dir in m.live && n == m.disk.itab[dir - 1] && n.IsDir() && b < 12 && b < DirBlocks(n)
    requires Adoptable(m.g, m.disk, m.live, c, blk) && |name| <= 255 && n.block[b] < m.g.blocks
    requires var bytes := m.disk.data[n.block[b]];
             && OnChain(bytes, 0, off, 1024) && RecOk(bytes, off, 1024) && off + RecLen(bytes, off) == 1024
             && RecSize(NameLen(bytes, off)) + RecSize(|name|) <= RecLen(bytes, off)
    modifies m`nwrites, m`faults, m`disk, m`history, m`live, m`owner
    ensures old(m.history) <= m.history
    ensures m.Valid() && m.faults == old(m.faults) + if ok then 0 else 1
    ensures !ok ==> m.disk == old(m.disk) && m.live == old(m.live) && m.owner == old(m.owner)
    ensures ok ==> m.live == old(m.live) + {c}
                   && m.disk == old(m.disk).(data := m.disk.data)
                   && Extended(m.g, old(m.disk), m.disk, old(m.live), dir, c, Entry(name, c))
  {
    hide Split, Entries, Chain, OnChain, Extended, SlotOk, BlockClosed, Unpointed;
    var bytes := m.disk.data[n.block[b]];
    DirPointer(m.g, m.disk, m.live, m.owner, dir, b);
    assert BlockClosed(bytes, m.live);
    SplitClosed(bytes, off, m.live, c, name);
    Adopt(m.g, m.disk, m.live, m.owner, c, blk);
    ok := StoreDirBlock(m, dir, b, Split(bytes, off, c, name), c, blk);
    if ok {
      SplitExtends(m.g, old(m.disk), m.disk, old(m.live), AdoptOwner(old(m.owner), c, blk), m.owner, dir, b, c,
                   Entry(name, c));
    }
  }

  /** Give the directory a new block that holds the entry alone. */
  method AddBlock(m: Mount, dir: nat, n: Inode, b: nat, c: nat, name: Name, ghost blk: nat) returns (ok: bool)
    requires m.Valid() && dir in m.live && n == m.disk.itab[dir - 1] && n.IsDir() && b == DirBlocks(n) < 12
    requires Adoptable(m.g, m.disk, m.live, c, blk) && |name| <= 255
    modifies m`nreads, m`nwrites, m`faults, m`disk, m`history, m`sb, m`gd, m`refusals, m`live, m`owner
    ensures old(m.history) <= m.history
    ensures m.Valid() && m.Bad() >= old(m.Bad()) + if ok then 0 else 1
    ensures old(m.refusals) <= m.refusals <= old(m.refusals) + 1
    ensures ok ==> m.live == old(m.live) + {c} && m.Bad() == old(m.Bad()) && m.gd.usedDirs == old(m.gd).usedDirs
                   && Extended(m.g, old(m.disk), m.disk, old(m.live), dir, c, Entry(name, c))
    ensures !ok ==> m.live == old(m.live) && m.owner == old(m.owner) && Leaked(m.g, old(m.disk), m.disk)
    ensures !ok && m.Bad() == old(m.Bad()) + 1 && old(m.Synced()) ==>
              EqualInUse(m.g, old(m.disk), m.disk) && m.Synced() && m.sb == old(m.sb) && m.gd == old(m.gd)
    ensures m.faults >= old(m.faults)
    ensures m.faults == old(m.faults) ==> m.Books() == old(m.Books()) && (old(m.Agreed()) ==> m.Agreed())
    ensures m.faults == old(m.faults) ==> (ok <==> !NoBlock(m.g, old(m.disk), old(m.sb), old(m.gd)))
    ensures m.refusals > old(m.refusals) ==>
              m.faults == old(m.faults) && m.disk == old(m.disk) && m.sb == old(m.sb) && m.gd == old(m.gd)
    ensures m.refusals > old(m.refusals) <==>
              NoBlock(m.g, old(m.disk), old(m.sb), old(m.gd))
              && Clean(m.readFails, old(m.nreads), BitmapReads(old(m.sb).freeBlocks, old(m.gd).freeBlocks))
    ensures m.refusals > old(m.refusals) ==>
              m.nreads == old(m.nreads) + BitmapReads(old(m.sb).freeBlocks, old(m.gd).freeBlocks)
    ensures NoBlock(m.g, old(m.disk), old(m.sb), old(m.gd)) ==> m.nwrites == old(m.nwrites)
  {
    hide Inv, Extended, Adoptable, Unpointed, EqualInUse, Leaked, Allocated, Clear, Safe, NoBlock, Mount.Logged;
    ok := false;
    ghost var d0 := m.disk;
    GeoFits(m.g, d0, m.live, m.owner);
    var nblk := AllocBlock(m);
    if nblk != 0 {
      AllocatedKeepsInode(m.g, d0, m.disk, nblk);
      ghost var d1 := m.disk;
      ok := FillAndLink(m, dir, n, b, nblk, c, name, blk, d0);
      if !ok {
        ghost var d2 := m.disk;
        FreeBlock(m, nblk);
        UndoneAlloc(m.g, d0, d1, d2, m.disk, nblk);
      }
    }
  }

  lemma GeoFits(g: Geo, d: Disk, live: set<nat>, owner: Owner)
    requires Inv(g, d, live, owner)
    ensures Shape(g, d) && g.blocks <= 8193 && g.inodes <= 8192 && EqualInUse(g, d, d)
  {}

  lemma AllocatedKeepsInode(g: Geo, d: Disk, d': Disk, b: nat)
    requires Allocated(g, d, d', b)
    ensures d'.itab == d.itab && InRange(g, b) && 1 <= b <= 8192 && |d'.bbm| == 8192 && d'.bbm[b - 1]
  {}

  /** Whatever becomes of a block taken and handed back, only free space differs. */
  lemma UndoneAlloc(g: Geo, d0: Disk, d1: Disk, d2: Disk, d3: Disk, b: nat)
    requires Allocated(g, d0, d1, b) && g.blocks <= 8193 && g.inodes <= 8192
    requires |d2.data| == |d1.data| && d2 == d1.(data := d1.data[b := d2.data[b]])
    requires d3 == d2.(bbm := d3.bbm, sb := d3.sb, gd := d3.gd)
    requires d3.bbm == d2.bbm || d3.bbm == d2.bbm[b - 1 := false]
    ensures Leaked(g, d0, d3)
    ensures d3.bbm == d2.bbm[b - 1 := false] && d3.sb == d0.sb && d3.gd == d0.gd ==> EqualInUse(g, d0, d3)
  {
    assert d0.bbm[b - 1 := true][b - 1 := false] == d0.bbm;
  }

  /** Write the new block, then the inode that names it. */
  method FillAndLink(m: Mount, dir: nat, n: Inode, b: nat, nblk: nat, c: nat, name: Name, ghost blk: nat,
                     ghost d0: Disk) returns (ok: bool)
    requires m.Valid() && dir in m.live && n == m.disk.itab[dir - 1] && n.IsDir() && b == DirBlocks(n) < 12
    requires Inv(m.g, d0, m.live, m.owner) && Adoptable(m.g, d0, m.live, c, blk) && |name| <= 255
    requires Allocated(m.g, d0, m.disk, nblk) && Unpointed(m.g, m.disk, m.live, nblk)
    modifies m`nreads, m`nwrites, m`faults, m`disk, m`history, m`live, m`owner
    ensures old(m.history) <= m.history
    ensures m.Valid() && m.faults == old(m.faults) + if ok then 0 else 1
    ensures ok ==> m.live == old(m.live) + {c} && Extended(m.g, d0, m.disk, old(m.live), dir, c, Entry(name, c))
                   && m.disk.bbm == old(m.disk).bbm && m.disk.ibm == old(m.disk).ibm
                   && m.disk.sb == old(m.disk).sb && m.disk.gd == old(m.disk).gd
    ensures !ok ==> m.live == old(m.live) && m.owner == old(m.owner) && Unpointed(m.g, m.disk, m.live, nblk)
                    && nblk < |old(m.disk).data|
                    && m.disk == old(m.disk).(data := old(m.disk).data[nblk := m.disk.data[nblk]])
                    && |m.disk.data| == |old(m.disk).data|
  {
    hide Extended, Entries, OneRecord, SlotOk, BlockClosed, Unpointed, Allocated, Leaked, DirOk, Safe, EqualInUse;
    OneRecordClosed(m.live, c, name);
    AllocatedKeepsInode(m.g, d0, m.disk, nblk);
    ok := WriteFresh(m, nblk, OneRecord(c, name));
    if ok {
      FilledFacts(m.g, d0, old(m.disk), m.disk, m.live, c, blk, nblk);
      AdoptableLeaked(m.g, d0, m.disk, m.live, m.owner, c, blk);
      Adopt(m.g, d0, m.live, m.owner, c, blk);
      ghost var d2 := m.disk;
      ok := StoreDirInode(m, dir, b, nblk, c, blk);
      if ok {
        LinkedGrew(m.g, d0, old(m.disk), d2, m.disk, dir, nblk);
        DirPointer(m.g, d0, old(m.live), old(m.owner), dir, 0);
        GrewExtends(m.g, d0, m.disk, old(m.live), AdoptOwner(old(m.owner), c, blk), m.owner, dir, nblk,
                    OneRecord(c, name), c, Entry(name, c));
      }
    }
  }

  lemma FilledFacts(g: Geo, d0: Disk, d1: Disk, d2: Disk, live: set<nat>, c: nat, blk: nat, nblk: nat)
    requires LiveOk(g, d0, live) && Adoptable(g, d0, live, c, blk) && Allocated(g, d0, d1, nblk) && g.blocks <= 8193
    requires |d2.data| == |d1.data| && d2 == d1.(data := d1.data[nblk := d2.data[nblk]])
    ensures Leaked(g, d0, d2) && nblk != blk && Marked(g, d2, nblk) && c !in live && 0 < c < TWO32
  {}

  lemma LinkedGrew(g: Geo, d0: Disk, d1: Disk, d2: Disk, d3: Disk, dir: nat, nblk: nat)
    requires Allocated(g, d0, d1, nblk) && 1 <= dir <= g.inodes && DirBlocks(d0.itab[dir - 1]) < 12
    requires |d2.data| == |d1.data| && d2 == d1.(data := d1.data[nblk := d2.data[nblk]])
    requires d3 == d2.(itab := d2.itab[dir - 1 := Grown(d2.itab[dir - 1], DirBlocks(d0.itab[dir - 1]), nblk)])
    ensures GrewBy(g, d0, d3, dir, nblk, d2.data[nblk])
  {}

  /** ext2_dir_add. On failure nothing live changed; if only one thing went wrong, nothing in use did. */
  method DirAdd(m: Mount, dir: nat, n: Inode, c: nat, name: Name, ghost blk: nat) returns (ok: bool)
    requires m.Valid() && dir in m.live && n == m.disk.itab[dir - 1] && n.IsDir()
    requires Adoptable(m.g, m.disk, m.live, c, blk)
    modifies m`nreads, m`nwrites, m`faults, m`disk, m`history, m`sb, m`gd, m`refusals, m`live, m`owner
    ensures old(m.history) <= m.history
    ensures m.Valid() && m.Bad() >= old(m.Bad()) + if ok then 0 else 1
    ensures old(m.refusals) <= m.refusals <= old(m.refusals) + 1
    ensures ok ==> m.live == old(m.live) + {c} && m.Bad() == old(m.Bad()) && m.gd.usedDirs == old(m.gd).usedDirs
                   && Extended(m.g, old(m.disk), m.disk, old(m.live), dir, c, Entry(name, c))
    ensures !ok ==> m.live == old(m.live) && m.owner == old(m.owner) && Leaked(m.g, old(m.disk), m.disk)
    ensures !ok && m.Bad() == old(m.Bad()) + 1 && old(m.Synced()) ==>
              EqualInUse(m.g, old(m.disk), m.disk) && m.Synced() && m.sb == old(m.sb) && m.gd == old(m.gd)
    ensures m.faults >= old(m.faults)
    ensures m.faults == old(m.faults) ==> m.Books() == old(m.Books()) && (old(m.Agreed()) ==> m.Agreed())
    // Without a fault it fails exactly when there is no place for the name; refused, it has touched nothing.
    ensures m.faults == old(m.faults) ==> (ok <==> !NoPlace(m.g, old(m.disk), old(m.sb), old(m.gd), n, name))
    ensures m.refusals > old(m.refusals) ==>
              m.faults == old(m.faults) && m.disk == old(m.disk) && m.sb == old(m.sb) && m.gd == old(m.gd)
    ensures m.refusals > old(m.refusals) ==>
              m.nreads == old(m.nreads) + AddReads(n, name, old(m.sb), old(m.gd), 0) && m.nwrites == old(m.nwrites)
    ensures NoPlace(m.g, old(m.disk), old(m.sb), old(m.gd), n, name) ==> m.nwrites == old(m.nwrites)
    // It is refused exactly if there is no place and every read up to finding that out goes well.
    ensures m.refusals > old(m.refusals) <==>
              NoPlace(m.g, old(m.disk), old(m.sb), old(m.gd), n, name)
              && Clean(m.readFails, old(m.nreads), AddReads(n, name, old(m.sb), old(m.gd), 0))
  {
    hide Inv, Extended, Adoptable, EqualInUse, Leaked, Clear, Safe, OnChain, RecOk, NoBlock, Room, Mount.Logged;
    GeoFits(m.g, m.disk, m.live, m.owner);
    LeakedNothing(m.g, m.disk, m.live, m.owner);
    ok := false;
    if |name| > 255 {
      m.refusals := m.refusals + 1;
      return;
    }
    var fits, b, off;
    ok, fits, b, off := SeekRoom(m, dir, n, name);
    if !ok { return; }
    if fits {
      ok := AppendEntry(m, dir, n, b, off, c, name, blk);
    } else if b == 12 {
      m.refusals := m.refusals + 1;
      ok := false;
    } else {
      ok := AddBlock(m, dir, n, b, c, name, blk);
    }
  }

  /** Read the blocks in turn until one has room for the name. */
  method SeekRoom(m: Mount, dir: nat, n: Inode, name: Name) returns (ok: bool, fits: bool, b: nat, off: nat)
    requires m.Valid() && dir in m.live && n == m.disk.itab[dir - 1] && n.IsDir()
    modifies m`nreads, m`faults
    ensures m.Valid() && m.faults == old(m.faults) + if ok then 0 else 1
    ensures b <= 12 && b <= DirBlocks(n) && (ok && fits ==> b < 12 && b < DirBlocks(n) && !Crammed(m.disk, n, b, name))
    ensures ok && fits ==>
              && n.block[b] < m.g.blocks
              && var bytes := m.disk.data[n.block[b]];
                 && OnChain(bytes, 0, off, 1024) && RecOk(bytes, off, 1024) && off + RecLen(bytes, off) == 1024
                 && RecSize(NameLen(bytes, off)) + RecSize(|name|) <= RecLen(bytes, off)
    ensures ok && !fits ==> b == DirBlocks(n) && m.nreads == old(m.nreads) + b && Clean(m.readFails, old(m.nreads), b)
    ensures ok && !fits ==> forall x: nat :: x < b ==> Crammed(m.disk, n, x, name)
    ensures Clean(m.readFails, old(m.nreads), DirBlocks(n)) ==> ok
  {
    hide Inv, Safe, OnChain, RecOk, Room, RecLen, RecSize, NameLen, Entries, Mount.Logged;
    b, off, ok, fits := 0, 0, true, false;
    GeoFits(m.g, m.disk, m.live, m.owner);
    DirPointer(m.g, m.disk, m.live, m.owner, dir, 0);
    assert DirBlocks(n) <= 12;
    while b < 12 && n.block[b] != 0
      invariant 0 <= b <= 12 && b <= DirBlocks(n) && m.Valid() && m.faults == old(m.faults)
      invariant m.nreads == old(m.nreads) + b && Clean(m.readFails, old(m.nreads), b)
      invariant forall x: nat :: x < b ==> Crammed(m.disk, n, x, name)
    {
      var bytes, limit;
      ok, bytes, limit := FetchBlock(m, dir, n, b);
      if !ok { return; }
      fits, off := ScanRoom(bytes, limit, RecSize(|name|));
      if fits { return; }
      b := b + 1;
    }
    if b < 12 { DirPointer(m.g, m.disk, m.live, m.owner, dir, b); }
  }

  lemma LeakedNothing(g: Geo, d: Disk, live: set<nat>, owner: Owner)
    requires Inv(g, d, live, owner)
    ensures Leaked(g, d, d)
  {}
}
