/** Creating a directory: inode, block, parent link count, group count and entry,
    each step undone if a later one fails (kernel/ext2.c:1084-1263). */
module Ext2Mkdir {
  import opened Machine
  import opened Ext2Blocks
  import opened Ext2Dirents
  import opened Ext2Disk
  import opened Ext2Content
  import opened Ext2Alloc
  import opened Ext2Files
  import opened Ext2Dirs
  import opened Ext2DirAdd
  import opened Ext2Create

  const DOT: Name := [46]
  const DOTDOT: Name := [46, 46]

  /** The first block of a new directory. */
  function Dots(ino: nat, parent: nat): Block
    requires ino < TWO32 && parent < TWO32
  {
    Splice(Splice(Zero(), 0, Header(ino, 12, DOT)), 12, Header(parent, 1012, DOTDOT))
  }

  lemma DotsEntries(ino: nat, parent: nat)
    requires 0 < ino < TWO32 && 0 < parent < TWO32
    ensures Chain(Dots(ino, parent), 0, 1024)
    ensures Entries(Dots(ino, parent), 0, 1024) == [Entry(DOT, ino), Entry(DOTDOT, parent)]
  {
    hide Chain, Entries, Record;
    var mid := Splice(Zero(), 0, Header(ino, 12, DOT));
    var b := Dots(ino, parent);
    WrittenRecord(Zero(), 0, 1024, ino, 12, DOT);
    SameRecord(mid, b, 0, 1024, 12, Entry(DOT, ino));
    WrittenRecord(mid, 12, 1024, parent, 1012, DOTDOT);
    EntriesCons(b, 0, 1024, 12, Entry(DOT, ino));
    EntriesCons(b, 12, 1024, 1024, Entry(DOTDOT, parent));
    ChainCons(b, 0, 1024, 12, Entry(DOT, ino));
    ChainCons(b, 12, 1024, 1024, Entry(DOTDOT, parent));
    EntriesEnd(b, 1024);
  }

  function NewDir(blk: nat): Inode
  {
    Inode(Mode(Directory, 0x1ED), 2, 1024, 2, NoPtrs()[0 := blk])
  }

  /** The live volume is what it was, but for dir's link count. */
  ghost predicate Backed(g: Geo, d: Disk, d': Disk, live: set<nat>, dir: nat)
  {
    SameButLinks(g, d, d', dir) && Quiet(g, d, d', live - {dir})
  }

  lemma BackedTrans(g: Geo, d: Disk, d1: Disk, d2: Disk, live: set<nat>, dir: nat)
    requires Backed(g, d, d1, live, dir) && Backed(g, d1, d2, live, dir)
    ensures Backed(g, d, d2, live, dir)
  {
    QuietTrans(g, d, d1, d2, live - {dir});
    forall k | 0 <= k < SLOTS && 0 < Ptr(g, d, dir, k) < g.blocks
      ensures d2.data[Ptr(g, d, dir, k)] == d.data[Ptr(g, d, dir, k)]
    {
      LinksPtr(g, d, d1, dir, k);
    }
  }

  lemma LinksPtr(g: Geo, d: Disk, d': Disk, dir: nat, k: nat)
    requires SameButLinks(g, d, d', dir) && k < SLOTS
    ensures Ptr(g, d', dir, k) == Ptr(g, d, dir, k)
  {
    assert 0 < Ptr(g, d, dir, 12) < g.blocks ==> d'.data[Ptr(g, d, dir, 12)] == d.data[Ptr(g, d, dir, 12)];
  }

  lemma QuietBacked(g: Geo, d: Disk, d': Disk, live: set<nat>, owner': Owner, dir: nat)
    requires Quiet(g, d, d', live) && Inv(g, d', live, owner') && dir in live
    ensures Backed(g, d, d', live, dir)
  {
    assert SameNode(g, d, d', dir) && InodeOk(g, d', dir);
  }

  lemma BackedUnpointed(g: Geo, d: Disk, d': Disk, live: set<nat>, dir: nat, b: nat)
    requires Backed(g, d, d', live, dir) && LiveOk(g, d, live) && LiveOk(g, d', live) && Unpointed(g, d, live, b)
    ensures Unpointed(g, d', live, b)
  {
    forall i, k | i in live && 0 <= k < SLOTS
      ensures Ptr(g, d', i, k) != b
    {
      assert InodeOk(g, d, i) && Ptr(g, d, i, k) != b;
      if i == dir {
        LinksPtr(g, d, d', dir, k);
      } else {
        assert SameNode(g, d, d', i);
        SameNodePtr(g, d, d', i, k);
      }
    }
  }

  /** A directory's record with another link count. */
  function WithLinks(d: Disk, dir: nat, links: nat): Disk
    requires 1 <= dir <= |d.itab|
  {
    d.(itab := d.itab[dir - 1 := d.itab[dir - 1].(links := links)])
  }

  lemma LinksSafe(g: Geo, d: Disk, live: set<nat>, owner: Owner, dir: nat, links: nat)
    requires Inv(g, d, live, owner) && dir in live
    ensures Inv(g, WithLinks(d, dir, links), live, owner)
    ensures Backed(g, d, WithLinks(d, dir, links), live, dir)
  {
    var d' := WithLinks(d, dir, links);
    assert InodeOk(g, d, dir);
    forall j | j in live
      ensures Shrunk(g, d, d', j)
    {
      assert InodeOk(g, d, j);
      if j != dir {
        SameShrunk(g, d, d', live, owner, j);
      } else {
        forall k | 0 <= k < SLOTS && Ptr(g, d', j, k) != 0
          ensures Ptr(g, d', j, k) == Ptr(g, d, j, k) && Marked(g, d', Ptr(g, d', j, k))
        {
          assert SlotOk(g, d, owner, j, k);
        }
      }
    }
    InvShrunk(g, d, d', live, owner);
    forall j | j in live - {dir}
      ensures SameNode(g, d, d', j)
    {
      assert InodeOk(g, d, j);
    }
  }

  /** Counts alone change no node. */
  lemma CountsBacked(g: Geo, d: Disk, live: set<nat>, owner: Owner, dir: nat, sb: Super, gd: Group)
    requires Inv(g, d, live, owner) && dir in live
    ensures Backed(g, d, d.(sb := sb, gd := gd), live, dir)
  {
    InvCounts(g, d, live, owner, sb, gd);
    QuietSame(g, d, d.(sb := sb, gd := gd), live, owner);
    QuietBacked(g, d, d.(sb := sb, gd := gd), live, owner, dir);
  }

  /** Store the parent's inode when only its link count differs. */
  method PutLinks(m: Mount, dir: nat, n: Inode) returns (ok: bool)
    requires m.Valid() && dir in m.live
    requires 1 <= dir <= |m.disk.itab| && n == m.disk.itab[dir - 1].(links := n.links)
    modifies m`nreads, m`nwrites, m`faults, m`disk, m`history
    ensures old(m.history) <= m.history
    ensures m.Valid() && m.faults == old(m.faults) + if ok then 0 else 1
    ensures m.disk == if ok then WithLinks(old(m.disk), dir, n.links) else old(m.disk)
    ensures Backed(m.g, old(m.disk), m.disk, m.live, dir)
    ensures m.Books() == old(m.Books()) && m.Agreed() == old(m.Agreed())
    ensures ok <==> !m.readFails(old(m.nreads)) && !m.writeFails(old(m.nwrites))
    ensures ok ==> m.nreads == old(m.nreads) + 1 && m.nwrites == old(m.nwrites) + 1
  {
    hide Backed, SlotOk, DirOk, Safe, Mount.Books, Mount.Agreed, Mount.Logged;
    assert InodeOk(m.g, m.disk, dir);
    LinksSafe(m.g, m.disk, m.live, m.owner, dir, n.links);
    CountsBacked(m.g, m.disk, m.live, m.owner, dir, m.disk.sb, m.disk.gd);
    ok := WriteInode(m, dir, n);
  }

  /** Store the group descriptor with another used-directories count. */
  method PutUsedDirs(m: Mount, used: nat, ghost dir: nat) returns (ok: bool)
    requires m.Valid() && dir in m.live && used <= m.g.inodes
    modifies m`nreads, m`nwrites, m`faults, m`disk, m`history, m`gd
    ensures old(m.history) <= m.history
    ensures m.Valid() && m.faults == old(m.faults) + if ok then 0 else 1
    ensures m.gd == old(m.gd).(usedDirs := used)
    ensures m.disk == if ok then old(m.disk).(gd := m.gd) else old(m.disk)
    ensures Backed(m.g, old(m.disk), m.disk, m.live, dir)
    ensures m.Books() == old(m.Books()) && (ok && old(m.Agreed()) ==> m.Agreed())
    ensures ok <==> !m.readFails(old(m.nreads)) && !m.writeFails(old(m.nwrites))
    ensures ok ==> m.nreads == old(m.nreads) + 1 && m.nwrites == old(m.nwrites) + 1
  {
    hide Backed, Inv, Safe, Clear, Mount.Logged;
    m.gd := m.gd.(usedDirs := used);
    CountsBacked(m.g, m.disk, m.live, m.owner, dir, m.disk.sb, m.disk.gd);
    CountsBacked(m.g, m.disk, m.live, m.owner, dir, m.disk.sb, m.gd);
    ok := WriteGroup(m);
  }

  /** Faults of a write-back of the group descriptor: its read is number r, its write number w. */
  ghost function Slips(readFails: nat -> bool, r: nat, writeFails: nat -> bool, w: nat): nat
  {
    if readFails(r) || writeFails(w) then 1 else 0
  }

  /** Directory dir, once with record n, counts a link too many. */
  ghost predicate LinkTooMany(d: Disk, dir: nat, n: Inode)
  {
    1 <= dir <= |d.itab| && d.itab[dir - 1] == n.(links := n.links + 1)
  }

  /** Count the child in the parent and in the group, then insert its entry. */
  method LinkIntoParent(m: Mount, dir: nat, n: Inode, ino: nat, name: Name, ghost blk: nat, ghost slips: nat)
    returns (ok: bool)
    requires m.Valid() && m.gd.usedDirs < m.g.inodes && dir in m.live && 1 <= dir <= |m.disk.itab|
    requires n == m.disk.itab[dir - 1] && n.IsDir()
    requires blk != 0 && Adoptable(m.g, m.disk, m.live, ino, blk)
    requires slips == Slips(m.readFails, m.nreads + 2 + AddReads(n, name, m.sb, m.gd, 0), m.writeFails, m.nwrites + 2)
    modifies m`nreads, m`nwrites, m`faults, m`disk, m`history, m`sb, m`gd, m`refusals, m`live, m`owner
    ensures old(m.history) <= m.history
    ensures m.Valid() && m.Bad() >= old(m.Bad()) + (if ok then 0 else 1) && m.faults >= old(m.faults)
    ensures old(m.refusals) <= m.refusals <= old(m.refusals) + 1
    ensures ok ==> m.live == old(m.live) + {ino} && m.Bad() == old(m.Bad())
                   && Gained(m.g, old(m.disk), m.disk, old(m.live), dir, ino, Entry(name, ino), 1)
                   && SameNode(m.g, old(m.disk), m.disk, ino)
                   && m.gd.usedDirs == old(m.gd).usedDirs + 1
    ensures !ok ==> m.live == old(m.live) && m.owner == old(m.owner) && Backed(m.g, old(m.disk), m.disk, m.live, dir)
    ensures !ok && m.Bad() == old(m.Bad()) + 1 && old(m.Synced()) ==>
              EqualInUse(m.g, old(m.disk), m.disk) && m.Synced() && m.sb == old(m.sb) && m.gd == old(m.gd)
    ensures m.faults == old(m.faults) ==> m.Books() == old(m.Books()) && (old(m.Agreed()) ==> m.Agreed())
    ensures m.faults == old(m.faults) ==> (ok <==> !NoPlace(m.g, old(m.disk), old(m.sb), old(m.gd), n, name))
    ensures m.refusals > old(m.refusals) ==>
              && !ok && m.faults >= old(m.faults) + slips && m.sb == old(m.sb) && m.gd == old(m.gd)
              && (slips == 0 ==> m.disk.gd == m.gd)
              && var extra := if m.faults == old(m.faults) + slips then 0 else 1;
                 m.disk == WithLinks(old(m.disk), dir, n.links + extra).(gd := m.disk.gd)
    ensures m.refusals > old(m.refusals) && slips == 0 && m.writeFails(old(m.nwrites) + 3) ==>
              LinkTooMany(m.disk, dir, n)
    ensures m.refusals > old(m.refusals) <==>
              NoPlace(m.g, old(m.disk), old(m.sb), old(m.gd), n, name)
              && Passes(m.readFails, old(m.nreads), 2 + AddReads(n, name, old(m.sb), old(m.gd), 0),
                        m.writeFails, old(m.nwrites), 2)
  {
    hide Inv, Gained, Backed, EqualInUse, Extended, Adoptable, Leaked, Clear, Safe, SameNode,
         NoPlace, Passes, Slips, LinkTooMany, AddReads, WithLinks, DirOk, InodeOk, LiveOk,
         Mount.Logged, Mount.Books, Mount.Agreed;
    ghost var d0, live0, owner0 := m.disk, m.live, m.owner;
    ghost var r0, w0, k := m.nreads, m.nwrites, AddReads(n, name, m.sb, m.gd, 0);
    LiveFacts(m.g, d0, m.live, m.owner, dir);
    AdoptableLinks(m.g, d0, m.live, m.owner, dir, n.links + 1, ino, blk);
    PassesPair(m.readFails, r0, m.writeFails, w0);
    LinkedPlace(m.g, d0, m.sb, m.gd, dir, name);
    ok := PutLinks(m, dir, n.(links := n.links + 1));
    PassesThen(m.readFails, r0, 2 + k, m.writeFails, w0, 2, 1, 1, m.nreads, 1 + k, m.nwrites, 1);
    if !ok { return; }
    ghost var d1 := m.disk;
    assert m.nreads + 1 == r0 + 2 && m.nwrites + 1 == w0 + 2;
    ok := CountAndAdd(m, dir, n.(links := n.links + 1), ino, name, blk, slips);
    if ok {
      LinkedGains(m.g, d0, d1, m.disk, live0, owner0, dir, ino, Entry(name, ino));
    } else {
      BackedTrans(m.g, d0, d1, m.disk, m.live, dir);
      var _ := TakeLinkBack(m, dir, n, d0, d1);
    }
  }

  /** Restore the parent's record after its entry could not be added. */
  method TakeLinkBack(m: Mount, dir: nat, n: Inode, ghost d0: Disk, ghost d1: Disk) returns (ok: bool)
    requires m.Valid() && dir in m.live && Shape(m.g, d0) && 1 <= dir <= m.g.inodes <= 8192 && m.g.blocks <= 8193
    requires d0.ibm[dir - 1]
    requires n == d0.itab[dir - 1] && d1 == WithLinks(d0, dir, n.links + 1) && Backed(m.g, d0, m.disk, m.live, dir)
    modifies m`nreads, m`nwrites, m`faults, m`disk, m`history
    ensures old(m.history) <= m.history
    ensures m.Valid() && m.faults == old(m.faults) + if ok then 0 else 1
    ensures Backed(m.g, d0, m.disk, m.live, dir) && m.disk.gd == old(m.disk).gd && m.disk.sb == old(m.disk).sb
    ensures m.Books() == old(m.Books()) && m.Agreed() == old(m.Agreed())
    ensures ok <==> !m.readFails(old(m.nreads)) && !m.writeFails(old(m.nwrites))
    ensures ok && EqualInUse(m.g, d1, old(m.disk)) ==> EqualInUse(m.g, d0, m.disk)
    ensures old(m.disk) == d1.(gd := old(m.disk).gd) ==>
              && m.disk == WithLinks(d0, dir, n.links + if ok then 0 else 1).(gd := m.disk.gd)
              && (!ok ==> LinkTooMany(m.disk, dir, n))
  {
    hide Inv, Backed, EqualInUse, Clear, Safe, Mount.Logged, Mount.Books, Mount.Agreed;
    ghost var d4 := m.disk;
    BackedRecord(m.g, d0, d4, m.live, dir);
    ok := PutLinks(m, dir, n);
    BackedTrans(m.g, d0, d4, m.disk, m.live, dir);
    if ok && EqualInUse(m.g, d1, d4) { LinksBack(m.g, d0, d1, d4, m.disk, dir, n.links + 1); }
  }

  /** Another link leaves the parent the room it had. */
  lemma LinkedPlace(g: Geo, d: Disk, sb: Super, gd: Group, dir: nat, name: Name)
    requires 1 <= dir <= |d.itab|
    ensures var n := d.itab[dir - 1];
            var n', d' := n.(links := n.links + 1), WithLinks(d, dir, n.links + 1);
            && |d'.itab| == |d.itab| && d'.itab[dir - 1] == n' && d'.sb == d.sb && d'.gd == d.gd
            && NoPlace(g, d', sb, gd, n', name) == NoPlace(g, d, sb, gd, n, name)
            && AddReads(n', name, sb, gd, 0) == AddReads(n, name, sb, gd, 0)
  {
    hide NoPlace;
    var n := d.itab[dir - 1];
    NoPlaceSame(g, d, sb, gd, n, WithLinks(d, dir, n.links + 1), sb, gd, n.(links := n.links + 1), name);
  }

  lemma LiveFacts(g: Geo, d: Disk, live: set<nat>, owner: Owner, dir: nat)
    requires Inv(g, d, live, owner) && dir in live
    ensures Shape(g, d) && g.blocks <= 8193 && 1 <= dir <= g.inodes <= 8192 && d.ibm[dir - 1]
    ensures LiveOk(g, d, live) && EqualInUse(g, d, d) && Backed(g, d, d, live, dir)
  {
    assert InodeOk(g, d, dir);
    QuietSelf(g, d, live, owner);
  }

  lemma BackedRecord(g: Geo, d: Disk, d': Disk, live: set<nat>, dir: nat)
    requires Backed(g, d, d', live, dir)
    ensures Shape(g, d) && Shape(g, d') && 1 <= dir <= g.inodes
    ensures d'.itab[dir - 1] == d.itab[dir - 1].(links := d'.itab[dir - 1].links)
  {}

  lemma AdoptableLinks(g: Geo, d: Disk, live: set<nat>, owner: Owner, dir: nat, links: nat, c: nat, blk: nat)
    requires Inv(g, d, live, owner) && dir in live && Adoptable(g, d, live, c, blk)
    ensures Inv(g, WithLinks(d, dir, links), live, owner) && Adoptable(g, WithLinks(d, dir, links), live, c, blk)
    ensures c !in live && InodeOk(g, d, c)
  {
    hide SlotOk, DirOk, BlockClosed, Backed, Unpointed;
    LinksSafe(g, d, live, owner, dir, links);
    if blk != 0 {
      BackedUnpointed(g, d, WithLinks(d, dir, links), live, dir, blk);
    }
  }

  lemma LinkedGains(g: Geo, d0: Disk, d1: Disk, d3: Disk, live: set<nat>, owner: Owner, dir: nat, c: nat, e: Entry)
    requires Inv(g, d0, live, owner) && dir in live && d0.itab[dir - 1].IsDir() && c !in live && InodeOk(g, d0, c)
    requires d1 == WithLinks(d0, dir, d0.itab[dir - 1].links + 1) && Backed(g, d0, d1, live, dir)
    requires Extended(g, d1, d3, live, dir, c, e)
    ensures Gained(g, d0, d3, live, dir, c, e, 1) && SameNode(g, d0, d3, c)
  {
    hide Gained, Extended, SlotOk, DirOk, Listing;
    ExtendedGains(g, d0, d1, d3, live, owner, dir, c, e);
    assert SameNode(g, d0, d1, c);
    SameNodeTrans(g, d0, d1, d3, c);
  }

  lemma LinksBack(g: Geo, d0: Disk, d1: Disk, d4: Disk, d5: Disk, dir: nat, links: nat)
    requires Shape(g, d0) && 1 <= dir <= g.inodes <= 8192 && g.blocks <= 8193 && d0.ibm[dir - 1]
    requires d1 == WithLinks(d0, dir, links) && EqualInUse(g, d1, d4)
    requires d5 == WithLinks(d4, dir, d0.itab[dir - 1].links)
    ensures EqualInUse(g, d0, d5)
  {}

  /** Count the directory in the group descriptor, then insert the entry; undo the count if that fails. */
  method CountAndAdd(m: Mount, dir: nat, n: Inode, ino: nat, name: Name, ghost blk: nat, ghost slips: nat)
    returns (ok: bool)
    requires m.Valid() && m.gd.usedDirs < m.g.inodes && dir in m.live && 1 <= dir <= |m.disk.itab|
    requires n == m.disk.itab[dir - 1] && n.IsDir()
    requires blk != 0 && Adoptable(m.g, m.disk, m.live, ino, blk)
    requires slips == Slips(m.readFails, m.nreads + 1 + AddReads(n, name, m.sb, m.gd, 0), m.writeFails, m.nwrites + 1)
    modifies m`nreads, m`nwrites, m`faults, m`disk, m`history, m`sb, m`gd, m`refusals, m`live, m`owner
    ensures old(m.history) <= m.history
    ensures m.Valid() && m.Bad() >= old(m.Bad()) + (if ok then 0 else 1) && m.faults >= old(m.faults)
    ensures old(m.refusals) <= m.refusals <= old(m.refusals) + 1
    ensures ok ==> m.live == old(m.live) + {ino} && m.Bad() == old(m.Bad())
                   && Extended(m.g, old(m.disk), m.disk, old(m.live), dir, ino, Entry(name, ino))
                   && m.gd.usedDirs == old(m.gd).usedDirs + 1
    ensures !ok ==> m.live == old(m.live) && m.owner == old(m.owner) && Backed(m.g, old(m.disk), m.disk, m.live, dir)
    ensures !ok && m.Bad() == old(m.Bad()) + 1 && old(m.Synced()) ==>
              EqualInUse(m.g, old(m.disk), m.disk) && m.Synced() && m.sb == old(m.sb) && m.gd == old(m.gd)
    ensures m.faults == old(m.faults) ==> m.Books() == old(m.Books()) && (old(m.Agreed()) ==> m.Agreed())
    ensures m.faults == old(m.faults) ==> (ok <==> !NoPlace(m.g, old(m.disk), old(m.sb), old(m.gd), n, name))
    // Refused, only the count on the device may be off, exactly if its write-back fails.
    ensures m.refusals > old(m.refusals) ==>
              && !ok && m.faults == old(m.faults) + slips && m.sb == old(m.sb) && m.gd == old(m.gd)
              && m.disk == old(m.disk).(gd := m.disk.gd)
              && (slips == 0 ==> m.disk.gd == m.gd && m.nwrites == old(m.nwrites) + 2)
    // It is refused exactly if there is no place and every access up to finding that out goes well.
    ensures m.refusals > old(m.refusals) <==>
              NoPlace(m.g, old(m.disk), old(m.sb), old(m.gd), n, name)
              && Passes(m.readFails, old(m.nreads), 1 + AddReads(n, name, old(m.sb), old(m.gd), 0),
                        m.writeFails, old(m.nwrites), 1)
  {
    hide Inv, Backed, EqualInUse, Extended, Adoptable, Leaked, Clear, Safe, NoPlace, Clean, Passes, Slips, AddReads,
         DirOk, InodeOk, LiveOk, Mount.Logged, Mount.Books, Mount.Agreed;
    ghost var d0, live0 := m.disk, m.live;
    ghost var r0, w0, k := m.nreads, m.nwrites, AddReads(n, name, m.sb, m.gd, 0);
    PassesPair(m.readFails, r0, m.writeFails, w0);
    LiveFacts(m.g, d0, m.live, m.owner, dir);
    DirPointer(m.g, d0, m.live, m.owner, dir, 0);
    var used := m.gd.usedDirs;
    CountReads(n, used + 1, name, m.sb, m.gd);
    ok := PutUsedDirs(m, used + 1, dir);
    PassesThen(m.readFails, r0, 1 + k, m.writeFails, w0, 1, 1, 1, m.nreads, k, m.nwrites, 0);
    PassesReads(m.readFails, m.nreads, k, m.writeFails, m.nwrites);
    if !ok {
      m.gd := m.gd.(usedDirs := used);
      return;
    }
    ghost var d2 := m.disk;
    AdoptableCounts(m.g, d0, m.live, m.owner, d2.gd, ino, blk);
    NoPlaceSame(m.g, d0, m.sb, old(m.gd), n, d2, m.sb, m.gd, n, name);
    ok := DirAdd(m, dir, n, ino, name, blk);
    if ok {
      ExtendedCounts(m.g, d0, d2.gd, m.disk, live0, dir, ino, Entry(name, ino));
    } else {
      ghost var d3 := m.disk;
      LeakedBacked(m.g, d2, d3, m.live, m.owner, dir);
      BackedTrans(m.g, d0, d2, d3, m.live, dir);
      assert m.refusals > old(m.refusals) ==> slips == Slips(m.readFails, m.nreads, m.writeFails, m.nwrites);
      var _ := TakeCountBack(m, used, dir, d0, d2);
    }
  }

  /** Count one directory less after its entry could not be added. */
  method TakeCountBack(m: Mount, used: nat, ghost dir: nat, ghost d0: Disk, ghost d2: Disk) returns (ok: bool)
    requires m.Valid() && dir in m.live && used <= m.g.inodes
    requires d2 == d0.(gd := d2.gd) && Backed(m.g, d0, m.disk, m.live, dir)
    modifies m`nreads, m`nwrites, m`faults, m`disk, m`history, m`gd
    ensures old(m.history) <= m.history
    ensures m.Valid() && m.faults == old(m.faults) + if ok then 0 else 1
    ensures m.gd == old(m.gd).(usedDirs := used) && m.disk == if ok then old(m.disk).(gd := m.gd) else old(m.disk)
    ensures Backed(m.g, d0, m.disk, m.live, dir)
    ensures m.Books() == old(m.Books()) && (ok && old(m.Agreed()) ==> m.Agreed())
    ensures ok <==> Slips(m.readFails, old(m.nreads), m.writeFails, old(m.nwrites)) == 0
    ensures m.faults == old(m.faults) + Slips(m.readFails, old(m.nreads), m.writeFails, old(m.nwrites))
    ensures ok ==> m.nwrites == old(m.nwrites) + 1
    ensures ok && EqualInUse(m.g, d2, old(m.disk)) && m.gd == d0.gd ==> EqualInUse(m.g, d0, m.disk)
  {
    hide Inv, Backed, EqualInUse, Clear, Safe, Mount.Logged, Mount.Books, Mount.Agreed;
    ghost var d3 := m.disk;
    ok := PutUsedDirs(m, used, dir);
    BackedTrans(m.g, d0, d3, m.disk, m.live, dir);
    if ok && EqualInUse(m.g, d2, d3) && m.gd == d0.gd { CountBack(m.g, d0, d2, d3, m.disk); }
  }

  lemma CountReads(n: Inode, used: nat, name: Name, sb: Super, gd: Group)
    ensures AddReads(n, name, sb, gd.(usedDirs := used), 0) == AddReads(n, name, sb, gd, 0)
  {}

  lemma AdoptableCounts(g: Geo, d: Disk, live: set<nat>, owner: Owner, gd: Group, c: nat, blk: nat)
    requires Inv(g, d, live, owner) && Adoptable(g, d, live, c, blk)
    ensures Inv(g, d.(gd := gd), live, owner) && Adoptable(g, d.(gd := gd), live, c, blk)
  {
    hide SlotOk, DirOk, BlockClosed, Unpointed;
    InvCounts(g, d, live, owner, d.sb, gd);
  }

  lemma ExtendedCounts(g: Geo, d: Disk, gd: Group, d': Disk, live: set<nat>, dir: nat, c: nat, e: Entry)
    requires Extended(g, d.(gd := gd), d', live, dir, c, e) && InodeOk(g, d, dir) && DirOk(g, d, live, dir)
    ensures Extended(g, d, d', live, dir, c, e)
  {
    hide DirOk, Listing, Inserted, SectorsOk, SameNode;
    forall j | (j in live || j == c) && j != dir
      ensures SameNode(g, d, d', j)
    {
      SameNodeCounts(g, d, gd, d', j);
    }
    ViewCounts(g, d, gd, live, dir);
  }

  lemma SameNodeCounts(g: Geo, d: Disk, gd: Group, d': Disk, j: nat)
    requires SameNode(g, d.(gd := gd), d', j)
    ensures SameNode(g, d, d', j)
  {
    var e := d.(gd := gd);
    assert InodeOk(g, d, j) && InodeOk(g, e, j);
    forall k | 0 <= k < SLOTS && 0 < Ptr(g, d, j, k) < g.blocks
      ensures d'.data[Ptr(g, d, j, k)] == d.data[Ptr(g, d, j, k)]
    {
      assert Ptr(g, e, j, k) == Ptr(g, d, j, k);
    }
  }

  lemma ViewCounts(g: Geo, d: Disk, gd: Group, live: set<nat>, dir: nat)
    requires InodeOk(g, d, dir) && DirOk(g, d, live, dir)
    ensures InodeOk(g, d.(gd := gd), dir) && DirOk(g, d.(gd := gd), live, dir)
    ensures Listing(g, d.(gd := gd), live, dir) == Listing(g, d, live, dir)
    ensures SectorsOk(g, d.(gd := gd), dir) == SectorsOk(g, d, dir)
  {
    CountSame(g, d, d.(gd := gd), dir, SLOTS);
  }

  lemma LeakedBacked(g: Geo, d: Disk, d': Disk, live: set<nat>, owner: Owner, dir: nat)
    requires Inv(g, d, live, owner) && Inv(g, d', live, owner) && Leaked(g, d, d') && dir in live
    ensures Backed(g, d, d', live, dir)
  {
    QuietLeaked(g, d, d', live, owner);
    QuietBacked(g, d, d', live, owner, dir);
  }

  lemma CountBack(g: Geo, d0: Disk, d2: Disk, d3: Disk, d4: Disk)
    requires d2 == d0.(gd := d2.gd) && EqualInUse(g, d2, d3) && d4 == d3.(gd := d0.gd)
    ensures EqualInUse(g, d0, d4)
  {}

  // --------------------------------------------------------------------------- mkdir

  /** Inode c is a fresh directory: one block holding "." and "..". */
  ghost predicate IsNewDir(g: Geo, d: Disk, c: nat, parent: nat)
  {
    && InodeOk(g, d, c) && c < TWO32 && parent < TWO32
    && var b := d.itab[c - 1].block[0];
       b != 0 && InRange(g, b) && d.itab[c - 1] == NewDir(b) && d.data[b] == Dots(c, parent)
  }

  /** What happened before, if it left the live nodes alone, can be prefixed to a gain. */
  lemma GainedAfter(g: Geo, d0: Disk, d: Disk, d': Disk, live: set<nat>, owner: Owner, dir: nat, c: nat, e: Entry,
                    dl: nat)
    requires Inv(g, d0, live, owner) && dir in live && d0.itab[dir - 1].IsDir()
    requires Quiet(g, d0, d, live) && InodeOk(g, d, dir) && Gained(g, d, d', live, dir, c, e, dl)
    ensures Gained(g, d0, d', live, dir, c, e, dl)
  {
    hide DirOk, Listing, Inserted, SectorsOk;
    assert SameNode(g, d0, d, dir);
    SameIsSameButLinks(g, d0, d, dir);
    SameButLinksView(g, d0, d, live, owner, dir);
    QuietSubset(g, d0, d, live, live - {dir});
    QuietTrans(g, d0, d, d', live - {dir});
  }

  lemma QuietSubset(g: Geo, d: Disk, d': Disk, s: set<nat>, t: set<nat>)
    requires Quiet(g, d, d', s) && t <= s
    ensures Quiet(g, d, d', t)
  {}

  /** A block no live node names and an inode that is not live may be written freely. */
  lemma FillQuiet(g: Geo, d: Disk, d': Disk, live: set<nat>, owner: Owner, c: nat, blk: nat)
    requires Inv(g, d, live, owner) && c !in live && Unpointed(g, d, live, blk) && Shape(g, d')
    requires forall i :: 0 <= i < g.inodes && i + 1 != c ==> d'.itab[i] == d.itab[i]
    requires forall x :: 0 <= x < g.blocks && x != blk ==> d'.data[x] == d.data[x]
    ensures Quiet(g, d, d', live)
  {
    forall j | j in live
      ensures SameNode(g, d, d', j)
    {
      assert InodeOk(g, d, j);
      forall k | 0 <= k < SLOTS && 0 < Ptr(g, d, j, k) < g.blocks
        ensures d'.data[Ptr(g, d, j, k)] == d.data[Ptr(g, d, j, k)]
      {
        assert Ptr(g, d, j, k) != blk;
      }
    }
  }

  lemma NewDirAdoptable(g: Geo, d: Disk, live: set<nat>, owner: Owner, c: nat, blk: nat, dir: nat)
    requires Inv(g, d, live, owner) && dir in live && c !in live && 1 <= c <= g.inodes && d.ibm[c - 1]
    requires InRange(g, blk) && Marked(g, d, blk) && Unpointed(g, d, live, blk)
    requires d.itab[c - 1] == NewDir(blk) && d.data[blk] == Dots(c, dir)
    ensures blk != 0 && Adoptable(g, d, live, c, blk) && IsNewDir(g, d, c, dir)
  {
    hide SlotOk, DirOk, Unpointed, Entries, Chain, Dots;
    assert InodeOk(g, d, dir);
    DotsEntries(c, dir);
  }

  lemma NewDirStays(g: Geo, d: Disk, d': Disk, c: nat, dir: nat)
    requires IsNewDir(g, d, c, dir) && SameNode(g, d, d', c) && InodeOk(g, d', c)
    ensures IsNewDir(g, d', c, dir)
  {
    assert Ptr(g, d, c, 0) == d.itab[c - 1].block[0];
  }

  /** A refused mkdir before it gives block and inode back: all as before but for these two
      and the group's counts if its link count was restored, else that count off. */
  ghost predicate LeftBehind(g: Geo, d: Disk, d': Disk, dir: nat, c: nat, blk: nat, clean: bool)
  {
    && Shape(g, d) && Shape(g, d') && 1 <= dir <= g.inodes
    && d'.bbm == d.bbm && d'.ibm == d.ibm && d'.sb == d.sb
    && if clean then EqualBut(g, d, d'.(gd := d.gd), c, blk) else d'.itab[dir - 1] != d.itab[dir - 1]
  }

  lemma LinksLeft(g: Geo, d0: Disk, d2: Disk, d': Disk, dir: nat, c: nat, blk: nat, clean: bool)
    requires Shape(g, d2) && 1 <= dir <= g.inodes && dir != c
    requires Filled(g, d0, d2, c, blk)
    requires d' == WithLinks(d2, dir, d0.itab[dir - 1].links + if clean then 0 else 1).(gd := d'.gd)
    ensures LeftBehind(g, d0, d', dir, c, blk, clean)
  {
    if clean { EqualButWrites(g, d0, d'.(gd := d0.gd), c, blk); }
  }

  /** Write the directory's block and inode, then link it into the parent. */
  method FillNewDir(m: Mount, dir: nat, n: Inode, ino: nat, blk: nat, name: Name, ghost slips: nat) returns (ok: bool)
    requires m.Valid() && m.gd.usedDirs < m.g.inodes && dir in m.live && 1 <= dir <= |m.disk.itab|
    requires n == m.disk.itab[dir - 1] && n.IsDir()
    requires 1 <= ino <= m.g.inodes && ino !in m.live && m.disk.ibm[ino - 1]
    requires InRange(m.g, blk) && Marked(m.g, m.disk, blk) && Unpointed(m.g, m.disk, m.live, blk)
    requires slips == Slips(m.readFails, m.nreads + 3 + AddReads(n, name, m.sb, m.gd, 0), m.writeFails, m.nwrites + 4)
    modifies m`nreads, m`nwrites, m`faults, m`disk, m`history, m`sb, m`gd, m`refusals, m`live, m`owner
    ensures old(m.history) <= m.history
    ensures m.Valid() && m.Bad() >= old(m.Bad()) + (if ok then 0 else 1) && m.faults >= old(m.faults)
    ensures old(m.refusals) <= m.refusals <= old(m.refusals) + 1
    ensures ok ==> m.live == old(m.live) + {ino} && m.Bad() == old(m.Bad())
                   && Gained(m.g, old(m.disk), m.disk, old(m.live), dir, ino, Entry(name, ino), 1)
                   && IsNewDir(m.g, m.disk, ino, dir) && m.gd.usedDirs == old(m.gd).usedDirs + 1
    ensures !ok ==> m.live == old(m.live) && m.owner == old(m.owner) && Backed(m.g, old(m.disk), m.disk, m.live, dir)
    ensures !ok && m.Bad() == old(m.Bad()) + 1 && old(m.Synced()) ==>
              EqualBut(m.g, old(m.disk), m.disk, ino, blk) && m.Synced() && m.sb == old(m.sb) && m.gd == old(m.gd)
    ensures m.faults == old(m.faults) ==> m.Books() == old(m.Books()) && (old(m.Agreed()) ==> m.Agreed())
    ensures m.faults == old(m.faults) ==> (ok <==> !NoPlace(m.g, old(m.disk), old(m.sb), old(m.gd), n, name))
    ensures m.refusals > old(m.refusals) ==>
              && !ok && m.faults >= old(m.faults) + slips && m.sb == old(m.sb) && m.gd == old(m.gd)
              && (slips == 0 ==> m.disk.gd == m.gd)
              && LeftBehind(m.g, old(m.disk), m.disk, dir, ino, blk, m.faults == old(m.faults) + slips)
    ensures m.refusals > old(m.refusals) && slips == 0 && m.writeFails(old(m.nwrites) + 5) ==>
              LinkTooMany(m.disk, dir, n)
    ensures m.refusals > old(m.refusals) <==>
              NoPlace(m.g, old(m.disk), old(m.sb), old(m.gd), n, name)
              && Passes(m.readFails, old(m.nreads), 3 + AddReads(n, name, old(m.sb), old(m.gd), 0),
                        m.writeFails, old(m.nwrites), 4)
  {
    hide Inv, Gained, Backed, EqualInUse, EqualBut, Adoptable, Clear, Safe, IsNewDir, Unpointed, Dots, LeftBehind,
         Filled, Quiet, NoPlace, Passes, LinkTooMany, Slips, AddReads, Mount.Logged, Mount.Books, Mount.Agreed;
    ghost var d0, live0, owner0 := m.disk, m.live, m.owner;
    ghost var r0, w0, k := m.nreads, m.nwrites, AddReads(n, name, m.sb, m.gd, 0);
    LiveFacts(m.g, d0, m.live, m.owner, dir);
    ok := FillChild(m, dir, ino, blk);
    PassesThen(m.readFails, r0, 3 + k, m.writeFails, w0, 4, 1, 2, m.nreads, 2 + k, m.nwrites, 2);
    FilledFar(m.g, d0, m.disk, ino, blk, dir);
    if !ok { return; }
    ghost var d2 := m.disk;
    FilledPlace(m.g, d0, d2, m.live, m.owner, m.sb, m.gd, ino, blk, dir, name);
    assert m.nreads + 2 == r0 + 3 && m.nwrites + 2 == w0 + 4;
    ok := LinkIntoParent(m, dir, n, ino, name, blk, slips);
    if ok {
      LiveFacts(m.g, d2, live0, owner0, dir);
      GainedAfter(m.g, d0, d2, m.disk, live0, owner0, dir, ino, Entry(name, ino), 1);
      LiveFacts(m.g, m.disk, m.live, m.owner, ino);
      NewDirStays(m.g, d2, m.disk, ino, dir);
    } else {
      BackedTrans(m.g, d0, d2, m.disk, m.live, dir);
      if m.refusals > old(m.refusals) {
        LinksLeft(m.g, d0, d2, m.disk, dir, ino, blk, m.faults == old(m.faults) + slips);
      }
      if m.Bad() == old(m.Bad()) + 1 && old(m.Synced()) {
        EqualButFrom(m.g, d2, m.disk, ino, blk);
        EqualButTrans(m.g, d0, d2, m.disk, ino, blk);
      }
    }
  }

  /** Writing the child leaves the parent the room it had. */
  lemma FilledPlace(g: Geo, d: Disk, d': Disk, live: set<nat>, owner: Owner, sb: Super, gd: Group, c: nat, blk: nat,
                    dir: nat, name: Name)
    requires Inv(g, d, live, owner) && dir in live && Unpointed(g, d, live, blk) && Filled(g, d, d', c, blk)
    requires 1 <= dir <= g.inodes && d.itab[dir - 1].IsDir()
    ensures NoPlace(g, d', sb, gd, d.itab[dir - 1], name) == NoPlace(g, d, sb, gd, d.itab[dir - 1], name)
  {
    hide NoPlace, SlotOk, DirOk, Unpointed;
    DirAvoids(g, d, live, owner, dir, d.itab[dir - 1], blk);
    NoPlaceSame(g, d, sb, gd, d.itab[dir - 1], d', sb, gd, d.itab[dir - 1], name);
  }

  /** Only inode c and block blk differ. */
  ghost predicate Filled(g: Geo, d: Disk, d': Disk, c: nat, blk: nat)
  {
    && Shape(g, d) && Shape(g, d') && g.inodes <= 8192 && g.blocks <= 8193
    && d' == d.(itab := d'.itab, data := d'.data)
    && (forall i :: 0 <= i < g.inodes && i + 1 != c ==> d'.itab[i] == d.itab[i])
    && (forall x :: 0 <= x < g.blocks && x != blk ==> d'.data[x] == d.data[x])
  }

  lemma FilledFar(g: Geo, d: Disk, d': Disk, c: nat, blk: nat, dir: nat)
    requires Filled(g, d, d', c, blk) && 1 <= dir <= g.inodes && dir != c
    ensures Shape(g, d') && d'.itab[dir - 1] == d.itab[dir - 1] && d'.sb == d.sb && d'.gd == d.gd
  {}

  /** Write the directory's block and inode. */
  method FillChild(m: Mount, dir: nat, ino: nat, blk: nat) returns (ok: bool)
    requires m.Valid() && dir in m.live && 1 <= dir <= |m.disk.itab|
    requires 1 <= ino <= m.g.inodes && ino !in m.live && m.disk.ibm[ino - 1]
    requires InRange(m.g, blk) && Marked(m.g, m.disk, blk) && Unpointed(m.g, m.disk, m.live, blk)
    modifies m`nreads, m`nwrites, m`faults, m`disk, m`history
    ensures old(m.history) <= m.history
    ensures m.Valid() && m.faults == old(m.faults) + if ok then 0 else 1
    ensures Filled(m.g, old(m.disk), m.disk, ino, blk) && EqualBut(m.g, old(m.disk), m.disk, ino, blk)
    ensures Quiet(m.g, old(m.disk), m.disk, m.live) && Backed(m.g, old(m.disk), m.disk, m.live, dir)
    ensures m.Books() == old(m.Books()) && m.Agreed() == old(m.Agreed())
    ensures ok ==> blk != 0 && Adoptable(m.g, m.disk, m.live, ino, blk) && IsNewDir(m.g, m.disk, ino, dir)
    ensures ok <==> Passes(m.readFails, old(m.nreads), 1, m.writeFails, old(m.nwrites), 2)
    ensures ok ==> m.nreads == old(m.nreads) + 1 && m.nwrites == old(m.nwrites) + 2
  {
    hide Inv, Backed, Quiet, EqualInUse, EqualBut, Adoptable, Clear, Safe, IsNewDir, Unpointed, Dots,
         Mount.Logged, Mount.Books, Mount.Agreed;
    ghost var d0 := m.disk;
    LiveFacts(m.g, d0, m.live, m.owner, dir);
    FilledQuiet(m.g, d0, d0, m.live, m.owner, ino, blk, dir);
    ok := WriteFresh(m, blk, Dots(ino, dir));
    if !ok { return; }
    FilledQuiet(m.g, d0, m.disk, m.live, m.owner, ino, blk, dir);
    FreeInodeWritable(m.g, m.disk, m.live, m.owner, ino, NewDir(blk));
    ok := WriteInode(m, ino, NewDir(blk));
    if !ok { return; }
    FilledQuiet(m.g, d0, m.disk, m.live, m.owner, ino, blk, dir);
    NewDirAdoptable(m.g, m.disk, m.live, m.owner, ino, blk, dir);
  }

  lemma FilledQuiet(g: Geo, d: Disk, d': Disk, live: set<nat>, owner: Owner, c: nat, blk: nat, dir: nat)
    requires Inv(g, d, live, owner) && Inv(g, d', live, owner) && dir in live
    requires c !in live && Unpointed(g, d, live, blk) && Filled(g, d, d', c, blk)
    ensures Quiet(g, d, d', live) && Backed(g, d, d', live, dir) && EqualBut(g, d, d', c, blk)
  {
    EqualButWrites(g, d, d', c, blk);
    FillQuiet(g, d, d', live, owner, c, blk);
    QuietBacked(g, d, d', live, owner, dir);
  }

  lemma FreeInodeWritable(g: Geo, d: Disk, live: set<nat>, owner: Owner, c: nat, n: Inode)
    requires Inv(g, d, live, owner) && c !in live && 1 <= c <= g.inodes
    ensures Inv(g, d.(itab := d.itab[c - 1 := n]), live, owner)
    ensures forall b :: Unpointed(g, d, live, b) ==> Unpointed(g, d.(itab := d.itab[c - 1 := n]), live, b)
  {
    InvScratchInode(g, d, d.(itab := d.itab[c - 1 := n]), live, owner, c);
  }

  /** At most one block is to be had. */
  ghost predicate OneBlock(g: Geo, d: Disk, sb: Super, gd: Group)
  {
    || sb.freeBlocks <= 1 || gd.freeBlocks <= 1
    || forall x, y :: g.firstData <= x < y < g.blocks ==> Marked(g, d, x) || Marked(g, d, y)
  }

  /** There is no place for the name once a block is taken for the new directory itself. */
  ghost predicate NoPlaceNext(g: Geo, d: Disk, sb: Super, gd: Group, n: Inode, name: Name)
  {
    || |name| > 255
    || ((forall b: nat :: b < DirBlocks(n) ==> Crammed(d, n, b, name))
        && (DirBlocks(n) >= 12 || OneBlock(g, d, sb, gd)))
  }

  lemma TakenBlock(g: Geo, d: Disk, sb: Super, gd: Group, d': Disk, sb': Super, gd': Group, blk: nat)
    requires Allocated(g, d, d', blk) && sb.freeBlocks == sb'.freeBlocks + 1 && gd.freeBlocks == gd'.freeBlocks + 1
    ensures NoBlock(g, d', sb', gd') == OneBlock(g, d, sb, gd)
  {
    assert forall b :: g.firstData <= b < g.blocks ==> (Marked(g, d', b) <==> Marked(g, d, b) || b == blk);
    assert !Marked(g, d, blk);
  }

  lemma TakenReads(n: Inode, name: Name, sb: Super, gd: Group, sb': Super, gd': Group)
    requires sb.freeBlocks == sb'.freeBlocks + 1 && gd.freeBlocks == gd'.freeBlocks + 1
    ensures AddReads(n, name, sb', gd', 0) == AddReads(n, name, sb, gd, 1)
  {}

  lemma TakenPlace(g: Geo, d: Disk, sb: Super, gd: Group, d': Disk, sb': Super, gd': Group, live: set<nat>,
                   owner: Owner, blk: nat, dir: nat, n: Inode, name: Name)
    requires Inv(g, d', live, owner) && dir in live && Unpointed(g, d', live, blk) && n == d'.itab[dir - 1] && n.IsDir()
    requires Allocated(g, d, d', blk) && sb.freeBlocks == sb'.freeBlocks + 1 && gd.freeBlocks == gd'.freeBlocks + 1
    ensures NoPlace(g, d', sb', gd', n, name) == NoPlaceNext(g, d, sb, gd, n, name)
  {
    hide Room, SlotOk, DirOk, Unpointed, NoBlock, OneBlock;
    DirAvoids(g, d', live, owner, dir, n, blk);
    TakenBlock(g, d, sb, gd, d', sb', gd', blk);
    assert forall b: nat :: b < DirBlocks(n) ==> Crammed(d', n, b, name) == Crammed(d, n, b, name);
  }

  /** A mkdir that has its inode, with its next accesses numbered r and w, is refused: there is no
      block or then no place, and every access up to finding that out goes well. */
  ghost predicate BlockRefuses(g: Geo, d: Disk, sb: Super, gd: Group, n: Inode, name: Name,
                               readFails: nat -> bool, r: nat, writeFails: nat -> bool, w: nat)
  {
    if NoBlock(g, d, sb, gd) then Clean(readFails, r, BitmapReads(sb.freeBlocks, gd.freeBlocks))
    else NoPlaceNext(g, d, sb, gd, n, name)
         && Passes(readFails, r, 6 + AddReads(n, name, sb, gd, 1), writeFails, w, 8)
  }

  /** Allocate the directory's block; free it again if the rest fails. */
  method NewDirBlock(m: Mount, dir: nat, n: Inode, ino: nat, name: Name) returns (ok: bool)
    requires m.Valid() && m.gd.usedDirs < m.g.inodes && dir in m.live && 1 <= dir <= |m.disk.itab|
    requires n == m.disk.itab[dir - 1] && n.IsDir()
    requires 1 <= ino <= m.g.inodes && ino !in m.live && m.disk.ibm[ino - 1]
    modifies m`nreads, m`nwrites, m`faults, m`disk, m`history, m`sb, m`gd, m`refusals, m`live, m`owner
    ensures old(m.history) <= m.history
    ensures m.Valid() && m.Bad() >= old(m.Bad()) + (if ok then 0 else 1) && m.faults >= old(m.faults)
    ensures old(m.refusals) <= m.refusals <= old(m.refusals) + 1
    ensures ok ==> m.live == old(m.live) + {ino} && m.Bad() == old(m.Bad())
                   && Gained(m.g, old(m.disk), m.disk, old(m.live), dir, ino, Entry(name, ino), 1)
                   && IsNewDir(m.g, m.disk, ino, dir) && m.gd.usedDirs == old(m.gd).usedDirs + 1
    ensures !ok ==> m.live == old(m.live) && m.owner == old(m.owner) && Backed(m.g, old(m.disk), m.disk, m.live, dir)
    ensures !ok && m.Bad() == old(m.Bad()) + 1 && old(m.Synced()) ==>
              EqualBut(m.g, old(m.disk), m.disk, ino, 0) && m.Synced() && m.sb == old(m.sb) && m.gd == old(m.gd)
    ensures m.faults == old(m.faults) ==> m.Books() == old(m.Books()) && (old(m.Agreed()) ==> m.Agreed())
    ensures m.faults == old(m.faults) ==>
              (ok <==> !NoBlock(m.g, old(m.disk), old(m.sb), old(m.gd))
                       && !NoPlaceNext(m.g, old(m.disk), old(m.sb), old(m.gd), n, name))
    ensures var slips := if NoBlock(m.g, old(m.disk), old(m.sb), old(m.gd)) then 0
                         else Slips(m.readFails, old(m.nreads) + 6 + AddReads(n, name, old(m.sb), old(m.gd), 1),
                                    m.writeFails, old(m.nwrites) + 8);
            m.refusals > old(m.refusals) && old(m.Synced()) ==>
              && !ok && m.faults >= old(m.faults) + slips
              && if m.faults == old(m.faults) + slips
                 then EqualBut(m.g, old(m.disk), m.disk, ino, 0) && m.Synced() && m.sb == old(m.sb) && m.gd == old(m.gd)
                 else (|m.disk.itab| == |old(m.disk).itab| && m.disk.itab[dir - 1] != old(m.disk).itab[dir - 1])
                      || m.sb.freeBlocks != old(m.sb).freeBlocks
    ensures m.refusals > old(m.refusals) && !NoBlock(m.g, old(m.disk), old(m.sb), old(m.gd))
            && Slips(m.readFails, old(m.nreads) + 6 + AddReads(n, name, old(m.sb), old(m.gd), 1),
                     m.writeFails, old(m.nwrites) + 8) == 0
            && m.writeFails(old(m.nwrites) + 9) ==>
              LinkTooMany(m.disk, dir, n)
    ensures m.refusals > old(m.refusals) <==>
              BlockRefuses(m.g, old(m.disk), old(m.sb), old(m.gd), n, name,
                           m.readFails, old(m.nreads), m.writeFails, old(m.nwrites))
  {
    hide Inv, Gained, Backed, EqualInUse, EqualBut, Clear, Safe, IsNewDir, Unpointed, Allocated, Leaked, LeftBehind,
         NoBlock, NoPlace, NoPlaceNext, Passes, Clean, Slips, AddReads, Mount.Logged, Mount.Books, Mount.Agreed;
    ghost var d0, live0, owner0 := m.disk, m.live, m.owner;
    ghost var r0, w0, k := m.nreads, m.nwrites, AddReads(n, name, m.sb, m.gd, 1);
    LiveFacts(m.g, d0, m.live, m.owner, dir);
    var blk := AllocBlock(m);
    PassesThen(m.readFails, r0, 6 + k, m.writeFails, w0, 8, 3, 4, m.nreads, 3 + k, m.nwrites, 4);
    ghost var d1 := m.disk;
    LeakedBacked(m.g, d0, d1, m.live, m.owner, dir);
    if blk == 0 {
      ok := false;
      if m.Bad() == old(m.Bad()) + 1 && old(m.Synced()) {
        EqualButFrom(m.g, d0, d1, ino, 0);
      }
      return;
    }
    AllocatedFacts(m.g, d0, d1, blk);
    LiveFacts(m.g, d1, m.live, m.owner, dir);
    TakenPlace(m.g, d0, old(m.sb), old(m.gd), d1, m.sb, m.gd, m.live, m.owner, blk, dir, n, name);
    TakenReads(n, name, old(m.sb), old(m.gd), m.sb, m.gd);
    ghost var slips := Slips(m.readFails, r0 + 6 + AddReads(n, name, old(m.sb), old(m.gd), 1), m.writeFails, w0 + 8);
    assert m.nreads + 3 == r0 + 6 && m.nwrites + 4 == w0 + 8;
    ok := FillNewDir(m, dir, n, ino, blk, name, slips);
    if ok {
      QuietLeaked(m.g, d0, d1, live0, owner0);
      GainedAfter(m.g, d0, d1, m.disk, live0, owner0, dir, ino, Entry(name, ino), 1);
    } else {
      ghost var d2 := m.disk;
      LiveFacts(m.g, d2, m.live, m.owner, dir);
      BackedUnpointed(m.g, d1, d2, m.live, dir, blk);
      BackedTrans(m.g, d0, d1, d2, m.live, dir);
      ReturnBlock(m, dir, ino, blk, d0, d1);
      BackedTrans(m.g, d0, d2, m.disk, m.live, dir);
    }
  }

  /** Free the block taken between d0 and d1. */
  method ReturnBlock(m: Mount, ghost dir: nat, ghost ino: nat, blk: nat, ghost d0: Disk, ghost d1: Disk)
    requires m.Valid() && dir in m.live && 1 <= dir <= |d0.itab| && Allocated(m.g, d0, d1, blk)
    requires Unpointed(m.g, m.disk, m.live, blk)
    modifies m`nreads, m`nwrites, m`faults, m`disk, m`history, m`sb, m`gd
    ensures old(m.history) <= m.history
    ensures m.Valid() && m.faults >= old(m.faults) && Backed(m.g, old(m.disk), m.disk, m.live, dir)
    ensures m.disk.itab == old(m.disk).itab
    ensures m.faults == old(m.faults) ==> m.Books() == old(m.Books()) && (old(m.Agreed()) ==> m.Agreed())
    ensures EqualBut(m.g, d1, old(m.disk), ino, blk) && m.faults == old(m.faults) ==>
              && m.sb == old(m.sb).(freeBlocks := old(m.sb).freeBlocks + 1)
              && m.gd == old(m.gd).(freeBlocks := old(m.gd).freeBlocks + 1)
              && m.Synced() && (m.sb == d0.sb && m.gd == d0.gd ==> EqualBut(m.g, d0, m.disk, ino, 0))
    // After a refused mkdir it goes well exactly if no access fails.
    ensures LeftBehind(m.g, d1, old(m.disk), dir, ino, blk, true) ==>
              if m.faults == old(m.faults)
              then m.sb == old(m.sb).(freeBlocks := old(m.sb).freeBlocks + 1)
                   && m.gd == old(m.gd).(freeBlocks := old(m.gd).freeBlocks + 1)
                   && m.Synced() && (m.sb == d0.sb && m.gd == d0.gd ==> EqualBut(m.g, d0, m.disk, ino, 0))
              else m.sb == old(m.sb)
    ensures LeftBehind(m.g, d1, old(m.disk), dir, ino, blk, false) ==>
              |m.disk.itab| == |d0.itab| && m.disk.itab[dir - 1] != d0.itab[dir - 1]
  {
    hide Inv, Backed, EqualInUse, EqualBut, Clear, Safe, Unpointed, Allocated, LeftBehind, Mount.Logged, Mount.Books,
         Mount.Agreed;
    ghost var d2 := m.disk;
    AllocatedFacts(m.g, d0, d1, blk);
    LiveFacts(m.g, d2, m.live, m.owner, dir);
    FreeBlock(m, blk);
    MarksBacked(m.g, d2, m.disk, m.live, m.owner, dir);
    BlockLeft(m.g, d0, d1, d2, m.disk, dir, ino, blk);
    if EqualBut(m.g, d1, d2, ino, blk) {
      EqualMarks(m.g, d1, d2, ino, blk);
      if m.disk == d2.(bbm := d2.bbm[blk - 1 := false], sb := d0.sb, gd := d0.gd) {
        UndoBlock(m.g, d0, d1, d2, m.disk, ino, blk);
      }
    }
  }

  lemma BlockLeft(g: Geo, d0: Disk, d1: Disk, d2: Disk, d3: Disk, dir: nat, c: nat, b: nat)
    requires Allocated(g, d0, d1, b)
    ensures forall clean :: LeftBehind(g, d1, d2, dir, c, b, clean) ==>
              && d2.bbm == d1.bbm && |d2.bbm| == 8192 && d2.bbm[b - 1] && d1.itab == d0.itab
              && 1 <= dir <= |d1.itab| == |d2.itab|
              && (!clean ==> d2.itab[dir - 1] != d0.itab[dir - 1])
    ensures LeftBehind(g, d1, d2, dir, c, b, true)
            && d3 == d2.(bbm := d2.bbm[b - 1 := false], sb := d0.sb, gd := d0.gd) ==>
              EqualBut(g, d0, d3, c, 0)
  {
    if LeftBehind(g, d1, d2, dir, c, b, true) && d3 == d2.(bbm := d2.bbm[b - 1 := false], sb := d0.sb, gd := d0.gd) {
      UndoBlock(g, d0, d1, d2.(gd := d1.gd), d3, c, b);
    }
  }

  lemma AllocatedFacts(g: Geo, d: Disk, d': Disk, b: nat)
    requires Allocated(g, d, d', b)
    ensures InRange(g, b) && Marked(g, d', b) && d'.itab == d.itab && d'.ibm == d.ibm
  {}

  lemma MarksBacked(g: Geo, d: Disk, d': Disk, live: set<nat>, owner: Owner, dir: nat)
    requires Inv(g, d, live, owner) && Inv(g, d', live, owner) && dir in live && d'.itab == d.itab && d'.data == d.data
    ensures Backed(g, d, d', live, dir)
  {
    QuietSame(g, d, d', live, owner);
    QuietBacked(g, d, d', live, owner, dir);
  }

  /** Only the blocks, their marks and the counts of free blocks matter. */
  lemma NextSame(g: Geo, d: Disk, sb: Super, gd: Group, d': Disk, sb': Super, gd': Group, n: Inode, name: Name)
    requires d'.data == d.data && d'.bbm == d.bbm && sb'.freeBlocks == sb.freeBlocks && gd'.freeBlocks == gd.freeBlocks
    ensures NoBlock(g, d', sb', gd') == NoBlock(g, d, sb, gd)
    ensures NoPlaceNext(g, d', sb', gd', n, name) == NoPlaceNext(g, d, sb, gd, n, name)
    ensures AddReads(n, name, sb', gd', 1) == AddReads(n, name, sb, gd, 1)
  {
    hide Room;
    assert forall b: nat :: Crammed(d', n, b, name) == Crammed(d, n, b, name);
    assert forall b :: Marked(g, d', b) == Marked(g, d, b);
  }

  lemma BlockRefusesSame(g: Geo, d: Disk, sb: Super, gd: Group, d': Disk, sb': Super, gd': Group, n: Inode, name: Name,
                         readFails: nat -> bool, r: nat, writeFails: nat -> bool, w: nat)
    requires d'.data == d.data && d'.bbm == d.bbm && sb'.freeBlocks == sb.freeBlocks && gd'.freeBlocks == gd.freeBlocks
    ensures BlockRefuses(g, d', sb', gd', n, name, readFails, r, writeFails, w)
            == BlockRefuses(g, d, sb, gd, n, name, readFails, r, writeFails, w)
  {
    hide NoBlock, NoPlaceNext, AddReads, Passes, Clean;
    NextSame(g, d, sb, gd, d', sb', gd', n, name);
  }

  /** A mkdir that found no such name, with its next accesses numbered r and w, is refused: there is
      no inode or then no block or no place, and every access up to finding that out goes well. */
  ghost predicate DirRefuses(g: Geo, d: Disk, sb: Super, gd: Group, n: Inode, name: Name,
                             readFails: nat -> bool, r: nat, writeFails: nat -> bool, w: nat)
  {
    if NoInode(g, d, sb, gd) then Clean(readFails, r, BitmapReads(sb.freeInodes, gd.freeInodes))
    else Passes(readFails, r, 3, writeFails, w, 3)
         && BlockRefuses(g, d, sb, gd, n, name, readFails, r + 3, writeFails, w + 3)
  }

  /** Faults after the lookup that a refused mkdir makes good: a failed write-back of the
      group descriptor, 1 at most. Both allocations take 3 reads, and 3 and 4 writes; block,
      inode, link count and group count take 3 and 4; so in all 9 and 11 come before it,
      and the reads of the refused insertion. */
  ghost function Spare(g: Geo, d: Disk, sb: Super, gd: Group, n: Inode, name: Name,
                       readFails: nat -> bool, r: nat, writeFails: nat -> bool, w: nat): (s: nat)
    ensures s <= 1
  {
    if NoInode(g, d, sb, gd) || NoBlock(g, d, sb, gd) then 0
    else Slips(readFails, r + 9 + AddReads(n, name, sb, gd, 1), writeFails, w + 11)
  }

  /** Allocate the inode; free it again if the rest fails. */
  method NewDirInode(m: Mount, dir: nat, n: Inode, name: Name) returns (ok: bool, ino: nat)
    requires m.Valid() && m.gd.usedDirs < m.g.inodes && dir in m.live && 1 <= dir <= |m.disk.itab|
    requires n == m.disk.itab[dir - 1] && n.IsDir()
    modifies m`nreads, m`nwrites, m`faults, m`disk, m`history, m`sb, m`gd, m`refusals, m`live, m`owner
    ensures old(m.history) <= m.history
    ensures m.Valid() && m.Bad() >= old(m.Bad()) + (if ok then 0 else 1) && m.faults >= old(m.faults)
    ensures old(m.refusals) <= m.refusals <= old(m.refusals) + 1
    ensures ok ==> ino != 0 && ino !in old(m.live) && m.live == old(m.live) + {ino} && m.Bad() == old(m.Bad())
                   && Gained(m.g, old(m.disk), m.disk, old(m.live), dir, ino, Entry(name, ino), 1)
                   && IsNewDir(m.g, m.disk, ino, dir) && m.gd.usedDirs == old(m.gd).usedDirs + 1
    ensures !ok ==> m.live == old(m.live) && Backed(m.g, old(m.disk), m.disk, m.live, dir)
    ensures !ok && m.Bad() == old(m.Bad()) + 1 && old(m.Synced()) ==>
              Restored(m.g, old(m.disk), old(m.sb), old(m.gd), m.disk, m.sb, m.gd)
    ensures m.faults == old(m.faults) ==>
              (ok <==> !NoInode(m.g, old(m.disk), old(m.sb), old(m.gd))
                       && !NoBlock(m.g, old(m.disk), old(m.sb), old(m.gd))
                       && !NoPlaceNext(m.g, old(m.disk), old(m.sb), old(m.gd), n, name))
    ensures m.refusals > old(m.refusals) && old(m.Synced()) ==>
              (Restored(m.g, old(m.disk), old(m.sb), old(m.gd), m.disk, m.sb, m.gd)
               <==> m.faults == old(m.faults) + Spare(m.g, old(m.disk), old(m.sb), old(m.gd), n, name,
                                                      m.readFails, old(m.nreads), m.writeFails, old(m.nwrites)))
    ensures m.refusals > old(m.refusals)
            && !NoInode(m.g, old(m.disk), old(m.sb), old(m.gd)) && !NoBlock(m.g, old(m.disk), old(m.sb), old(m.gd))
            && Spare(m.g, old(m.disk), old(m.sb), old(m.gd), n, name,
                     m.readFails, old(m.nreads), m.writeFails, old(m.nwrites)) == 0
            && m.writeFails(old(m.nwrites) + 12) ==>
              LinkTooMany(m.disk, dir, n)
    ensures m.refusals > old(m.refusals) <==>
              DirRefuses(m.g, old(m.disk), old(m.sb), old(m.gd), n, name,
                         m.readFails, old(m.nreads), m.writeFails, old(m.nwrites))
    ensures m.faults == old(m.faults) ==> m.Books() == old(m.Books()) && (old(m.Agreed()) ==> m.Agreed())
  {
    hide Inv, Gained, Backed, EqualInUse, EqualBut, Clear, Safe, IsNewDir, Quiet, NoInode, NoBlock, NoPlaceNext,
         BlockRefuses, Passes, Clean, Mount.Logged, Mount.Books, Mount.Agreed;
    ghost var d0, live0, owner0 := m.disk, m.live, m.owner;
    LiveFacts(m.g, d0, m.live, m.owner, dir);
    ino := AllocInode(m);
    ghost var d1 := m.disk;
    MarksBacked(m.g, d0, d1, m.live, m.owner, dir);
    if ino == 0 { return false, 0; }
    LiveFacts(m.g, d1, m.live, m.owner, dir);
    NextSame(m.g, d0, old(m.sb), old(m.gd), d1, m.sb, m.gd, n, name);
    BlockRefusesSame(m.g, d0, old(m.sb), old(m.gd), d1, m.sb, m.gd, n, name,
                     m.readFails, m.nreads, m.writeFails, m.nwrites);
    ok := NewDirBlock(m, dir, n, ino, name);
    if ok {
      QuietSame(m.g, d0, d1, live0, owner0);
      GainedAfter(m.g, d0, d1, m.disk, live0, owner0, dir, ino, Entry(name, ino), 1);
    } else {
      ghost var d2 := m.disk;
      BackedTrans(m.g, d0, d1, d2, m.live, dir);
      ReturnInode(m, dir, ino, d0, d1, old(m.sb), old(m.gd));
      BackedTrans(m.g, d0, d2, m.disk, m.live, dir);
    }
  }

  /** Free the inode taken between d0 and d1. */
  method ReturnInode(m: Mount, ghost dir: nat, ino: nat, ghost d0: Disk, ghost d1: Disk, ghost sb0: Super,
                     ghost gd0: Group)
    requires m.Valid() && dir in m.live && ino !in m.live && InodeTaken(m.g, d0, d1, ino)
    requires 1 <= dir <= m.g.inodes && d0.ibm[dir - 1]
    modifies m`nreads, m`nwrites, m`faults, m`disk, m`history, m`sb, m`gd
    ensures old(m.history) <= m.history
    ensures m.Valid() && m.faults >= old(m.faults) && Backed(m.g, old(m.disk), m.disk, m.live, dir)
    ensures m.disk.itab == old(m.disk).itab && m.sb.freeBlocks == old(m.sb).freeBlocks
    ensures m.faults == old(m.faults) ==> m.Books() == old(m.Books()) && (old(m.Agreed()) ==> m.Agreed())
    // It goes well exactly if no access fails.
    ensures EqualBut(m.g, d1, old(m.disk), ino, 0) && old(m.Synced()) && d0.sb == sb0 && d0.gd == gd0
            && OneLess(sb0, gd0, old(m.sb), old(m.gd)) ==>
              (Restored(m.g, d0, sb0, gd0, m.disk, m.sb, m.gd) <==> m.faults == old(m.faults))
    ensures |m.disk.itab| == |d0.itab| && m.disk.itab[dir - 1] != d0.itab[dir - 1] ==> !EqualInUse(m.g, d0, m.disk)
  {
    hide Inv, Backed, EqualInUse, EqualBut, Clear, Safe, Mount.Logged, Mount.Books, Mount.Agreed;
    ghost var d2 := m.disk;
    LiveFacts(m.g, d2, m.live, m.owner, dir);
    FreeInode(m, ino);
    LiveFacts(m.g, m.disk, m.live, m.owner, dir);
    MarksBacked(m.g, d2, m.disk, m.live, m.owner, dir);
    InodeLeft(m.g, d0, d1, d2, m.disk, dir, ino);
  }

  lemma InodeLeft(g: Geo, d0: Disk, d1: Disk, d2: Disk, d3: Disk, dir: nat, c: nat)
    requires InodeTaken(g, d0, d1, c) && Shape(g, d3) && 1 <= dir <= g.inodes && d0.ibm[dir - 1]
    ensures d3.itab[dir - 1] != d0.itab[dir - 1] ==> !EqualInUse(g, d0, d3)
    ensures EqualBut(g, d1, d2, c, 0) ==> |d2.ibm| == 8192 && d2.ibm[c - 1]
    ensures EqualBut(g, d1, d2, c, 0) && d3 == d2.(ibm := d2.ibm[c - 1 := false], sb := d0.sb, gd := d0.gd) ==>
              EqualInUse(g, d0, d3)
  {
    if EqualBut(g, d1, d2, c, 0) && d3 == d2.(ibm := d2.ibm[c - 1 := false], sb := d0.sb, gd := d0.gd) {
      UndoInode(g, d0, d1, d2, d3, c);
    }
  }

  /** A name a directory can be made under. */
  predicate Legal(name: Name) { 0 < |name| <= 255 && name != DOT && name != DOTDOT }

  /** The lookup of a mkdir that starts at read number `from` is made and cut short. */
  ghost predicate Missed(g: Geo, d: Disk, dir: nat, name: Name, fails: nat -> bool, from: nat)
  {
    1 <= dir <= |d.itab| && d.itab[dir - 1].IsDir() && Legal(name) && Hidden(g, d, dir, name, fails, from)
  }

  /** What the parent and the counts must be for a mkdir to be carried out: all but the lookup. */
  ghost predicate Welcome(g: Geo, d: Disk, sb: Super, gd: Group, n: Inode, name: Name)
  {
    && n.links != 0xFFFF && gd.usedDirs < g.inodes
    && !NoInode(g, d, sb, gd) && !NoBlock(g, d, sb, gd) && !NoPlaceNext(g, d, sb, gd, n, name)
  }

  /** Inode and block are to be had, but the name has no place then; all reads and the first
      twelve writes succeed, and the thirteenth, which should take the link back, fails. */
  ghost predicate LosesLink(g: Geo, d: Disk, sb: Super, gd: Group, n: Inode, name: Name,
                            readFails: nat -> bool, nreads: nat, writeFails: nat -> bool, nwrites: nat)
  {
    && n.links != 0xFFFF && gd.usedDirs < g.inodes && !NoInode(g, d, sb, gd) && !NoBlock(g, d, sb, gd)
    && NoPlaceNext(g, d, sb, gd, n, name)
    && Clean(readFails, nreads, 37) && Clean(writeFails, nwrites, 12) && writeFails(nwrites + 12)
  }

  /** ext2_mkdir. */
  method Mkdir(m: Mount, dir: nat, name: Name) returns (ok: bool, ino: nat)
    requires m.Valid() && dir in m.live
    modifies m`nreads, m`nwrites, m`faults, m`disk, m`history, m`sb, m`gd, m`refusals, m`live, m`owner
    ensures old(m.history) <= m.history
    ensures m.Valid() && m.faults >= old(m.faults) && InodeOk(m.g, old(m.disk), dir)
    ensures old(m.disk).itab[dir - 1].IsDir() ==> DirOk(m.g, old(m.disk), old(m.live), dir)
    // Success: a fresh directory under an acceptable name, counted in parent and group.
    ensures ok ==>
              && ino !in old(m.live) && m.live == old(m.live) + {ino}
              && Gained(m.g, old(m.disk), m.disk, old(m.live), dir, ino, Entry(name, ino), 1)
              && IsNewDir(m.g, m.disk, ino, dir) && m.gd.usedDirs == old(m.gd).usedDirs + 1
              && old(m.disk).itab[dir - 1].IsDir() && Legal(name)
              && (old(m.disk).itab[dir - 1].links <= 0xFFFF ==> m.disk.itab[dir - 1].links <= 0xFFFF)
              && m.gd.usedDirs <= m.g.inodes
              && NamesGained(m.g, old(m.disk), m.disk, old(m.live), dir, ino, Entry(name, ino))
    // Only a lookup cut short by a failed read lets it add a name already there.
    ensures ok && Find(Listing(m.g, old(m.disk), old(m.live), dir), name) != 0 ==>
              Missed(m.g, old(m.disk), dir, name, m.readFails, old(m.nreads)) && m.faults > old(m.faults)
    ensures ok ==> m.refusals == old(m.refusals)
    ensures if m.readFails(old(m.nreads)) then m.faults > old(m.faults)
            else m.faults >= LookedUp(old(m.faults), Missed(m.g, old(m.disk), dir, name, m.readFails, old(m.nreads)))
    // If nothing fails after the lookup, it succeeds exactly if the parent is a directory with links to spare,
    // the name is acceptable and not found, and there is an inode, a block and a place for the entry.
    ensures var missed := Missed(m.g, old(m.disk), dir, name, m.readFails, old(m.nreads));
            m.faults == LookedUp(old(m.faults), missed) && !m.readFails(old(m.nreads)) ==>
              (ok <==>
                && old(m.disk).itab[dir - 1].IsDir() && Legal(name)
                && (missed || Find(Listing(m.g, old(m.disk), old(m.live), dir), name) == 0)
                && Welcome(m.g, old(m.disk), old(m.sb), old(m.gd), old(m.disk).itab[dir - 1], name))
    // It fails only for a bad or taken name, a parent that is no directory or full of links, a fault, or lack of room.
    ensures !ok && m.Bad() == old(m.Bad()) ==>
              var n := old(m.disk).itab[dir - 1];
              || !n.IsDir() || !Legal(name) || n.links == 0xFFFF || old(m.gd).usedDirs >= m.g.inodes
              || Find(Listing(m.g, old(m.disk), old(m.live), dir), name) != 0
    // Failure: at most the parent's link count may be left off, and not even that
    // unless something failed after the first failing step.
    ensures !ok ==> m.live == old(m.live) && Backed(m.g, old(m.disk), m.disk, m.live, dir)
    ensures old(m.refusals) <= m.refusals <= old(m.refusals) + 1
    ensures var missed := Missed(m.g, old(m.disk), dir, name, m.readFails, old(m.nreads));
            !ok && m.Bad() <= LookedUp(old(m.faults), missed) + old(m.refusals) + 1 && old(m.Synced()) ==>
              Restored(m.g, old(m.disk), old(m.sb), old(m.gd), m.disk, m.sb, m.gd)
    // It is refused exactly if parent, name and counts allow it, the lookup finds nothing, there is no room,
    // and every access up to finding that out goes well.
    ensures var n := old(m.disk).itab[dir - 1];
            m.refusals > old(m.refusals) <==>
              && !m.readFails(old(m.nreads)) && n.IsDir() && Legal(name)
              && (Missed(m.g, old(m.disk), dir, name, m.readFails, old(m.nreads))
                  || Find(Listing(m.g, old(m.disk), old(m.live), dir), name) == 0)
              && n.links != 0xFFFF && old(m.gd).usedDirs < m.g.inodes
              && DirRefuses(m.g, old(m.disk), old(m.sb), old(m.gd), n, name,
                            m.readFails, old(m.nreads) + LookupReads(n, m.readFails, old(m.nreads)),
                            m.writeFails, old(m.nwrites))
    // Refused, it has rolled back exactly if after the lookup no access failed but the spare one.
    ensures var missed := Missed(m.g, old(m.disk), dir, name, m.readFails, old(m.nreads));
            var n := old(m.disk).itab[dir - 1];
            m.refusals > old(m.refusals) && old(m.Synced()) ==>
              (Restored(m.g, old(m.disk), old(m.sb), old(m.gd), m.disk, m.sb, m.gd)
               <==> m.faults == LookedUp(old(m.faults), missed)
                                + Spare(m.g, old(m.disk), old(m.sb), old(m.gd), n, name,
                                        m.readFails, old(m.nreads) + LookupReads(n, m.readFails, old(m.nreads)),
                                        m.writeFails, old(m.nwrites)))
    ensures old(m.disk).itab[dir - 1].IsDir() && Legal(name)
            && Find(Listing(m.g, old(m.disk), old(m.live), dir), name) == 0
            && LosesLink(m.g, old(m.disk), old(m.sb), old(m.gd), old(m.disk).itab[dir - 1], name,
                         m.readFails, old(m.nreads), m.writeFails, old(m.nwrites)) ==>
              !ok && m.refusals > old(m.refusals) && LinkTooMany(m.disk, dir, old(m.disk).itab[dir - 1])
    ensures m.faults == old(m.faults) ==> m.Books() == old(m.Books()) && (old(m.Agreed()) ==> m.Agreed())
  {
    hide Inv, Gained, NamesGained, Backed, EqualInUse, Clear, Safe, IsNewDir, DirOk, Listing, Blinded, NoInode, NoBlock,
         NoPlaceNext, DirRefuses, LosesLink, LinkTooMany, Spare, Attempts, Mount.Logged, Mount.Books, Mount.Agreed;
    LiveFacts(m.g, m.disk, m.live, m.owner, dir);
    LivePointersOk(m.g, m.disk, m.live, m.owner, dir);
    if m.disk.itab[dir - 1].IsDir() { DirPointer(m.g, m.disk, m.live, m.owner, dir, 0); }
    ghost var r0, w0 := m.nreads, m.nwrites;
    LosesStart(m.g, m.disk, m.sb, m.gd, m.disk.itab[dir - 1], name, m.readFails, r0, m.writeFails, w0);
    ino := 0;
    var n;
    ok, n := ReadInode(m, dir);
    if !ok { return; }
    if !n.IsDir() || |name| == 0 || |name| > 255 || name == DOT || name == DOTDOT { return false, 0; }
    DirReadable(m.g, m.disk, m.live, dir);
    BlindNotClean(m.g, n, m.disk.data, name, m.readFails, r0 + 1, r0, 37);
    var found := DirLookup(m, dir, n, name);
    if found != 0 || n.links == 0xFFFF || m.gd.usedDirs >= m.g.inodes { return false, 0; }
    LosesRefusesDir(m.g, m.disk, m.sb, m.gd, n, name, m.readFails, r0, m.nreads, m.writeFails, w0);
    ok, ino := NewDirInode(m, dir, n, name);
    if ok {
      GainedNames(m.g, old(m.disk), m.disk, old(m.live), dir, ino, Entry(name, ino), 1);
      GainedLinks(m.g, old(m.disk), m.disk, old(m.live), dir, ino, Entry(name, ino));
    }
  }

  lemma LosesStart(g: Geo, d: Disk, sb: Super, gd: Group, n: Inode, name: Name,
                   readFails: nat -> bool, r: nat, writeFails: nat -> bool, w: nat)
    ensures LosesLink(g, d, sb, gd, n, name, readFails, r, writeFails, w) ==>
              Clean(readFails, r, 37) && !readFails(r) && n.links != 0xFFFF && gd.usedDirs < g.inodes
  {}

  /** A run that loses a link is one that is refused, without a spare failure. */
  lemma LosesRefusesDir(g: Geo, d: Disk, sb: Super, gd: Group, n: Inode, name: Name,
                        readFails: nat -> bool, r: nat, r': nat, writeFails: nat -> bool, w: nat)
    requires DirBlocks(n) <= 12 && r <= r' <= r + 13
    ensures LosesLink(g, d, sb, gd, n, name, readFails, r, writeFails, w) ==>
              && !NoInode(g, d, sb, gd) && !NoBlock(g, d, sb, gd) && writeFails(w + 12)
              && Spare(g, d, sb, gd, n, name, readFails, r', writeFails, w) == 0
              && DirRefuses(g, d, sb, gd, n, name, readFails, r', writeFails, w)
  {
    hide NoInode, NoBlock, NoPlaceNext;
  }

  lemma GainedLinks(g: Geo, d: Disk, d': Disk, live: set<nat>, dir: nat, c: nat, e: Entry)
    requires Gained(g, d, d', live, dir, c, e, 1)
    ensures Shape(g, d) && Shape(g, d') && 1 <= dir <= g.inodes
    ensures d'.itab[dir - 1].links == d.itab[dir - 1].links + 1
  {}
}
