/** Creating files and directories, with rollback (kernel/ext2.c:1036-1263). */
module Ext2Create {
  import opened Machine
  import opened Ext2Blocks
  import opened Ext2Dirents
  import opened Ext2Disk
  import opened Ext2Content
  import opened Ext2Alloc
  import opened Ext2Files
  import opened Ext2Dirs
  import opened Ext2DirAdd

  // ------------------------------------------------------- equal up to one inode and block

  /** Like EqualInUse, but leaving out inode c and block b. */
  ghost predicate EqualBut(g: Geo, d: Disk, d': Disk, c: nat, b: nat)
  {
    && Shape(g, d) && Shape(g, d') && g.inodes <= 8192 && g.blocks <= 8193
    && d'.sb == d.sb && d'.gd == d.gd && d'.bbm == d.bbm && d'.ibm == d.ibm
    && (forall i :: 0 <= i < g.inodes && d.ibm[i] && i + 1 != c ==> d'.itab[i] == d.itab[i])
    && (forall x :: 1 <= x < g.blocks && d.bbm[x - 1] && x != b ==> d'.data[x] == d.data[x])
  }

  lemma EqualButTrans(g: Geo, d: Disk, d1: Disk, d2: Disk, c: nat, b: nat)
    requires EqualBut(g, d, d1, c, b) && EqualBut(g, d1, d2, c, b)
    ensures EqualBut(g, d, d2, c, b)
  {}

  lemma EqualButFrom(g: Geo, d: Disk, d': Disk, c: nat, b: nat)
    requires EqualInUse(g, d, d')
    ensures EqualBut(g, d, d', c, b)
  {}

  lemma EqualButWrites(g: Geo, d: Disk, d': Disk, c: nat, b: nat)
    requires Shape(g, d) && Shape(g, d') && g.inodes <= 8192 && g.blocks <= 8193
    requires d' == d.(itab := d'.itab, data := d'.data)
    requires forall i :: 0 <= i < g.inodes && i + 1 != c ==> d'.itab[i] == d.itab[i]
    requires forall x :: 0 <= x < g.blocks && x != b ==> d'.data[x] == d.data[x]
    ensures EqualBut(g, d, d', c, b)
  {}

  lemma EqualMarks(g: Geo, d: Disk, d': Disk, c: nat, b: nat)
    requires EqualBut(g, d, d', c, b)
    ensures d'.bbm == d.bbm && d'.ibm == d.ibm && d'.sb == d.sb && d'.gd == d.gd && Shape(g, d) && Shape(g, d')
  {}

  /** Taking a block, using it and handing it back changes nothing in use. */
  lemma UndoBlock(g: Geo, d: Disk, d1: Disk, d2: Disk, d3: Disk, c: nat, b: nat)
    requires Allocated(g, d, d1, b) && EqualBut(g, d1, d2, c, b)
    requires d3 == d2.(bbm := d2.bbm[b - 1 := false], sb := d.sb, gd := d.gd)
    ensures EqualBut(g, d, d3, c, 0)
  {
    assert d.bbm[b - 1 := true][b - 1 := false] == d.bbm;
  }

  /** Likewise for an inode. */
  lemma UndoInode(g: Geo, d: Disk, d1: Disk, d2: Disk, d3: Disk, c: nat)
    requires Shape(g, d) && 1 <= c <= g.inodes <= 8192 && !d.ibm[c - 1]
    requires d1 == d.(ibm := d.ibm[c - 1 := true], sb := d1.sb, gd := d1.gd) && EqualBut(g, d1, d2, c, 0)
    requires d3 == d2.(ibm := d2.ibm[c - 1 := false], sb := d.sb, gd := d.gd)
    ensures EqualInUse(g, d, d3)
  {
    assert d.ibm[c - 1 := true][c - 1 := false] == d.ibm;
  }

  // --------------------------------------------------------------- nodes left alone

  /** Every node of s is on d' what it was on d. */
  ghost predicate Quiet(g: Geo, d: Disk, d': Disk, s: set<nat>)
  {
    forall j :: j in s ==> SameNode(g, d, d', j)
  }

  lemma QuietTrans(g: Geo, d: Disk, d1: Disk, d2: Disk, s: set<nat>)
    requires Quiet(g, d, d1, s) && Quiet(g, d1, d2, s)
    ensures Quiet(g, d, d2, s)
  {
    forall j | j in s
      ensures SameNode(g, d, d2, j)
    {
      SameNodeTrans(g, d, d1, d2, j);
    }
  }

  lemma QuietOutside(g: Geo, d: Disk, d': Disk, live: set<nat>, owner: Owner)
    requires Inv(g, d, live, owner) && Outside(g, d, d', live)
    ensures Quiet(g, d, d', live)
  {
    forall j | j in live
      ensures SameNode(g, d, d', j)
    {
      OutsideSameNode(g, d, d', live, owner, j);
    }
  }

  /** Changes to inode c, not live, and to marks and counts. */
  lemma QuietInode(g: Geo, d: Disk, d': Disk, live: set<nat>, owner: Owner, c: nat)
    requires Inv(g, d, live, owner) && c !in live && Shape(g, d') && d'.data == d.data
    requires forall i :: 0 <= i < g.inodes && i + 1 != c ==> d'.itab[i] == d.itab[i]
    ensures Quiet(g, d, d', live)
  {
    forall j | j in live
      ensures SameNode(g, d, d', j)
    {
      assert InodeOk(g, d, j);
    }
  }

  lemma QuietLeaked(g: Geo, d: Disk, d': Disk, live: set<nat>, owner: Owner)
    requires Inv(g, d, live, owner) && Leaked(g, d, d')
    ensures Quiet(g, d, d', live)
  {
    LeakedOutside(g, d, d', live, owner);
    QuietOutside(g, d, d', live, owner);
  }

  /** Directory dir differs at most in its link count. */
  ghost predicate SameButLinks(g: Geo, d: Disk, d': Disk, dir: nat)
  {
    && InodeOk(g, d, dir) && InodeOk(g, d', dir)
    && d'.itab[dir - 1] == d.itab[dir - 1].(links := d'.itab[dir - 1].links)
    && (forall k :: 0 <= k < SLOTS && 0 < Ptr(g, d, dir, k) < g.blocks ==>
          d'.data[Ptr(g, d, dir, k)] == d.data[Ptr(g, d, dir, k)])
  }

  lemma SameIsSameButLinks(g: Geo, d: Disk, d': Disk, dir: nat)
    requires SameNode(g, d, d', dir) && InodeOk(g, d', dir)
    ensures SameButLinks(g, d, d', dir)
  {}

  lemma SameButLinksView(g: Geo, d: Disk, d': Disk, live: set<nat>, owner: Owner, dir: nat)
    requires Inv(g, d, live, owner) && dir in live && d.itab[dir - 1].IsDir() && SameButLinks(g, d, d', dir)
    ensures DirOk(g, d, live, dir) && DirOk(g, d', live, dir)
    ensures Listing(g, d', live, dir) == Listing(g, d, live, dir)
    ensures SectorsOk(g, d, dir) ==> SectorsOk(g, d', dir)
  {
    var n, n' := d.itab[dir - 1], d'.itab[dir - 1];
    DirPointer(g, d, live, owner, dir, 0);
    forall b | 0 <= b < DirBlocks(n)
      ensures n.block[b] < g.blocks && d'.data[n.block[b]] == d.data[n.block[b]]
    {
      DirPointer(g, d, live, owner, dir, b);
      assert Ptr(g, d, dir, b) == n.block[b];
    }
    forall b | 0 <= b < DirBlocks(n')
      ensures n'.block[b] < g.blocks && BlockClosed(d'.data[n'.block[b]], live)
    {
      assert BlockClosed(d.data[n.block[b]], live);
    }
    SameUpTo(g, n, n', d.data, d'.data, DirBlocks(n));
    forall k | 0 <= k < SLOTS
      ensures Ptr(g, d', dir, k) == Ptr(g, d, dir, k)
    {
      assert 0 < Ptr(g, d, dir, 12) < g.blocks ==> d'.data[Ptr(g, d, dir, 12)] == d.data[Ptr(g, d, dir, 12)];
    }
    CountSame(g, d, d', dir, SLOTS);
  }

  /** The directory gained entry e for the new inode c, its link count grew by dl, and no other live node changed. */
  ghost predicate Gained(g: Geo, d: Disk, d': Disk, live: set<nat>, dir: nat, c: nat, e: Entry, dl: nat)
  {
    && InodeOk(g, d, dir) && InodeOk(g, d', dir)
    && DirOk(g, d, live, dir) && DirOk(g, d', live + {c}, dir)
    && Inserted(Listing(g, d, live, dir), Listing(g, d', live + {c}, dir), e)
    && d'.itab[dir - 1].mode == d.itab[dir - 1].mode && d'.itab[dir - 1].links == d.itab[dir - 1].links + dl
    && Quiet(g, d, d', live - {dir})
    && (SectorsOk(g, d, dir) ==> SectorsOk(g, d', dir))
  }

  lemma ExtendedGains(g: Geo, d0: Disk, d: Disk, d': Disk, live: set<nat>, owner: Owner, dir: nat, c: nat, e: Entry)
    requires Inv(g, d0, live, owner) && dir in live && d0.itab[dir - 1].IsDir()
    requires SameButLinks(g, d0, d, dir) && Quiet(g, d0, d, live - {dir}) && Extended(g, d, d', live, dir, c, e)
    requires d.itab[dir - 1].links >= d0.itab[dir - 1].links
    ensures Gained(g, d0, d', live, dir, c, e, d.itab[dir - 1].links - d0.itab[dir - 1].links)
    ensures c !in live ==> SameNode(g, d, d', c)
  {
    hide SameNode, SectorsOk, Listing, Inserted, DirOk;
    SameButLinksView(g, d0, d, live, owner, dir);
    assert Quiet(g, d, d', live - {dir});
    QuietTrans(g, d0, d, d', live - {dir});
  }

  /** The names of a directory that gained an entry. */
  lemma GainedNames(g: Geo, d: Disk, d': Disk, live: set<nat>, dir: nat, c: nat, e: Entry, dl: nat)
    requires Gained(g, d, d', live, dir, c, e, dl) && e.ino != 0
    ensures NamesGained(g, d, d', live, dir, c, e)
  {
    hide Entries, SectorsOk, Quiet;
    UpToNonzero(g, d.itab[dir - 1], d.data, DirBlocks(d.itab[dir - 1]));
    var l, l' := Listing(g, d, live, dir), Listing(g, d', live + {c}, dir);
    InsertedFind(l, l', e);
    InsertedDistinctIff(l, l', e);
  }

  /** The directory's map from names to inodes gained one binding, and names are
      distinct afterwards exactly if they were and the added one was absent. */
  ghost predicate NamesGained(g: Geo, d: Disk, d': Disk, live: set<nat>, dir: nat, c: nat, e: Entry)
  {
    && InodeOk(g, d, dir) && InodeOk(g, d', dir) && DirOk(g, d, live, dir) && DirOk(g, d', live + {c}, dir)
    && var l, l' := Listing(g, d, live, dir), Listing(g, d', live + {c}, dir);
       && OneMore(l, l', e)
       && (DistinctNames(l') <==> DistinctNames(l) && Find(l, e.name) == 0)
  }

  // -------------------------------------------------------------------------- create

  const NEW_FILE: Inode := Inode(Mode(Regular, 0x1A4), 1, 0, 0, NoPtrs())

  /** An inode is to be had but the name has no place; all reads and the first four
      writes (three for the inode's mark and counts, one for its record) succeed, and
      the fifth, which should clear the mark again, fails. */
  ghost predicate LosesInode(g: Geo, d: Disk, sb: Super, gd: Group, n: Inode, name: Name,
                             readFails: nat -> bool, nreads: nat, writeFails: nat -> bool, nwrites: nat)
  {
    && !NoInode(g, d, sb, gd) && NoPlace(g, d, sb, gd, n, name)
    && Clean(readFails, nreads, 30) && Clean(writeFails, nwrites, 4) && writeFails(nwrites + 4)
  }

  /** What the directory with record n holds under the name is hidden from a create
      that starts at read number `from`. */
  ghost predicate Hidden(g: Geo, d: Disk, dir: nat, name: Name, fails: nat -> bool, from: nat)
  {
    1 <= dir <= |d.itab| && Blinded(g, d.itab[dir - 1], d.data, name, fails, from + 1)
  }

  /** Faults so far once the lookup is done. */
  ghost function LookedUp(faults: nat, hidden: bool): nat
  {
    faults + if hidden then 1 else 0
  }

  /** Reads of the directory's record and of the lookup that follows, if that finds nothing. */
  ghost function LookupReads(n: Inode, fails: nat -> bool, from: nat): nat
  {
    1 + Attempts(fails, from + 1, DirBlocks(n))
  }

  /** A create that found no such name, with its next accesses numbered r and w, is refused:
      there is no inode or no place, and every access up to finding that out goes well. */
  ghost predicate Refuses(g: Geo, d: Disk, sb: Super, gd: Group, n: Inode, name: Name,
                          readFails: nat -> bool, r: nat, writeFails: nat -> bool, w: nat)
  {
    if NoInode(g, d, sb, gd) then Clean(readFails, r, BitmapReads(sb.freeInodes, gd.freeInodes))
    else NoPlace(g, d, sb, gd, n, name) && Passes(readFails, r, 4 + AddReads(n, name, sb, gd, 0), writeFails, w, 4)
  }

  /** ext2_create. Returns the new inode number, 0 on failure. */
  method Create(m: Mount, dir: nat, name: Name) returns (ino: nat)
    requires m.Valid() && dir in m.live && m.disk.itab[dir - 1].IsDir()
    modifies m`nreads, m`nwrites, m`faults, m`disk, m`history, m`sb, m`gd, m`refusals, m`live, m`owner
    ensures old(m.history) <= m.history
    ensures m.Valid() && m.faults >= old(m.faults)
    ensures InodeOk(m.g, old(m.disk), dir) && DirOk(m.g, old(m.disk), old(m.live), dir)
    // Success: one new entry for one new, empty file; everything else is untouched.
    ensures ino != 0 ==>
              && ino !in old(m.live) && m.live == old(m.live) + {ino}
              && Gained(m.g, old(m.disk), m.disk, old(m.live), dir, ino, Entry(name, ino), 0)
              && HasInode(m.g, m.disk, ino) && m.disk.itab[ino - 1] == NEW_FILE
              && NamesGained(m.g, old(m.disk), m.disk, old(m.live), dir, ino, Entry(name, ino))
    // Only a lookup cut short by a failed read lets it add a name already there.
    ensures ino != 0 && Find(Listing(m.g, old(m.disk), old(m.live), dir), name) != 0 ==>
              Hidden(m.g, old(m.disk), dir, name, m.readFails, old(m.nreads)) && m.faults > old(m.faults)
    ensures ino != 0 ==> m.refusals == old(m.refusals)
    ensures if m.readFails(old(m.nreads)) then m.faults > old(m.faults)
            else m.faults >= LookedUp(old(m.faults), Hidden(m.g, old(m.disk), dir, name, m.readFails, old(m.nreads)))
    // If nothing fails after the lookup, it succeeds exactly if the lookup finds nothing and there is room.
    ensures var hidden := Hidden(m.g, old(m.disk), dir, name, m.readFails, old(m.nreads));
            m.faults == LookedUp(old(m.faults), hidden) && !m.readFails(old(m.nreads)) ==>
              (ino != 0 <==>
                && (hidden || Find(Listing(m.g, old(m.disk), old(m.live), dir), name) == 0)
                && !NoInode(m.g, old(m.disk), old(m.sb), old(m.gd))
                && !NoPlace(m.g, old(m.disk), old(m.sb), old(m.gd), old(m.disk).itab[dir - 1], name))
    // It fails only for a name already there, a fault, or lack of room.
    ensures ino == 0 && m.Bad() == old(m.Bad()) ==> Find(Listing(m.g, old(m.disk), old(m.live), dir), name) != 0
    // Failure: no live node changed; nothing in use did unless something failed after the first failing step.
    ensures ino == 0 ==> m.live == old(m.live) && Quiet(m.g, old(m.disk), m.disk, m.live)
    ensures old(m.refusals) <= m.refusals <= old(m.refusals) + 1
    ensures var hidden := Hidden(m.g, old(m.disk), dir, name, m.readFails, old(m.nreads));
            ino == 0 && m.Bad() <= LookedUp(old(m.faults), hidden) + old(m.refusals) + 1 && old(m.Synced()) ==>
              Restored(m.g, old(m.disk), old(m.sb), old(m.gd), m.disk, m.sb, m.gd)
    // It is refused exactly if the lookup finds nothing, there is no room, and every access up to finding that
    // out goes well.
    ensures var n := old(m.disk).itab[dir - 1];
            m.refusals > old(m.refusals) <==>
              && !m.readFails(old(m.nreads))
              && (Hidden(m.g, old(m.disk), dir, name, m.readFails, old(m.nreads))
                  || Find(Listing(m.g, old(m.disk), old(m.live), dir), name) == 0)
              && Refuses(m.g, old(m.disk), old(m.sb), old(m.gd), n, name,
                         m.readFails, old(m.nreads) + LookupReads(n, m.readFails, old(m.nreads)),
                         m.writeFails, old(m.nwrites))
    // Refused, it has rolled back exactly if no access failed after the lookup.
    ensures var hidden := Hidden(m.g, old(m.disk), dir, name, m.readFails, old(m.nreads));
            m.refusals > old(m.refusals) && old(m.Synced()) ==>
              (Restored(m.g, old(m.disk), old(m.sb), old(m.gd), m.disk, m.sb, m.gd)
               <==> m.faults == LookedUp(old(m.faults), hidden))
    ensures Find(Listing(m.g, old(m.disk), old(m.live), dir), name) == 0 &&
            LosesInode(m.g, old(m.disk), old(m.sb), old(m.gd), old(m.disk).itab[dir - 1], name,
                       m.readFails, old(m.nreads), m.writeFails, old(m.nwrites)) ==>
              ino == 0 && m.refusals > old(m.refusals) && !EqualInUse(m.g, old(m.disk), m.disk)
    ensures m.faults == old(m.faults) ==> m.Books() == old(m.Books()) && (old(m.Agreed()) ==> m.Agreed())
  {
    hide Inv, Gained, NamesGained, Quiet, EqualInUse, Clear, Safe, DirOk, Listing, NoInode, NoPlace, Blinded, Clean,
         Refuses, Attempts, LosesInode, Mount.Logged, Mount.Agreed;
    GeoFits(m.g, m.disk, m.live, m.owner);
    QuietSelf(m.g, m.disk, m.live, m.owner);
    DirPointer(m.g, m.disk, m.live, m.owner, dir, 0);
    DirReadable(m.g, m.disk, m.live, dir);
    ghost var from := m.nreads;
    var ok, n := ReadInode(m, dir);
    if !ok { LosesStarts(m.g, m.disk, m.sb, m.gd, n, name, m.readFails, from, m.writeFails, m.nwrites); return 0; }
    LivePointersOk(m.g, m.disk, m.live, m.owner, dir);
    ino := DirLookup(m, dir, n, name);
    if ino != 0 { return 0; }
    BlindNotClean(m.g, n, m.disk.data, name, m.readFails, from + 1, from, 30);
    LosesRefuses(m.g, m.disk, m.sb, m.gd, n, name, m.readFails, from, m.nreads, m.writeFails, m.nwrites);
    ino := CreateAbsent(m, dir, n, name);
    if ino != 0 { GainedNames(m.g, old(m.disk), m.disk, old(m.live), dir, ino, Entry(name, ino), 0); }
  }

  lemma DirReadable(g: Geo, d: Disk, live: set<nat>, dir: nat)
    requires InodeOk(g, d, dir) && DirOk(g, d, live, dir)
    ensures DirIn(g, d.itab[dir - 1], d.data)
  {}

  lemma LosesStarts(g: Geo, d: Disk, sb: Super, gd: Group, n: Inode, name: Name,
                    readFails: nat -> bool, r: nat, writeFails: nat -> bool, w: nat)
    requires readFails(r)
    ensures forall x :: !LosesInode(g, d, sb, gd, x, name, readFails, r, writeFails, w)
  {}

  /** A run that loses an inode is one that is refused. */
  lemma LosesRefuses(g: Geo, d: Disk, sb: Super, gd: Group, n: Inode, name: Name,
                     readFails: nat -> bool, r: nat, r': nat, writeFails: nat -> bool, w: nat)
    requires DirBlocks(n) <= 12 && r <= r' <= r + 13
    ensures LosesInode(g, d, sb, gd, n, name, readFails, r, writeFails, w) ==>
              && Clean(readFails, r, 30) && !NoInode(g, d, sb, gd) && writeFails(w + 4)
              && Refuses(g, d, sb, gd, n, name, readFails, r', writeFails, w)
  {
    hide NoInode, NoPlace;
  }

  lemma BlindNotClean(g: Geo, n: Inode, data: seq<Block>, name: Name, fails: nat -> bool, from: nat, from': nat, k: nat)
    requires DirIn(g, n, data) && from' <= from && from + 12 <= from' + k
    ensures DirBlocks(n) <= 12 && (Blinded(g, n, data, name, fails, from) ==> !Clean(fails, from', k))
  {
    if Blinded(g, n, data, name, fails, from) {
      var b: nat :| BlindAt(g, n, data, name, fails, from, b);
      assert fails(from + b);
    }
  }

  lemma QuietSelf(g: Geo, d: Disk, live: set<nat>, owner: Owner)
    requires Inv(g, d, live, owner)
    ensures Quiet(g, d, d, live)
  {
    forall j | j in live
      ensures SameNode(g, d, d, j)
    {
      assert InodeOk(g, d, j);
    }
  }

  /** The rest of create once the name was not found. */
  method CreateAbsent(m: Mount, dir: nat, n: Inode, name: Name) returns (ino: nat)
    requires m.Valid() && dir in m.live && n == m.disk.itab[dir - 1] && n.IsDir()
    modifies m`nreads, m`nwrites, m`faults, m`disk, m`history, m`sb, m`gd, m`refusals, m`live, m`owner
    ensures old(m.history) <= m.history
    ensures m.Valid() && m.faults >= old(m.faults)
    ensures ino != 0 ==>
              && ino !in old(m.live) && m.live == old(m.live) + {ino} && m.Bad() == old(m.Bad())
              && Gained(m.g, old(m.disk), m.disk, old(m.live), dir, ino, Entry(name, ino), 0)
              && HasInode(m.g, m.disk, ino) && m.disk.itab[ino - 1] == NEW_FILE
    ensures ino == 0 ==> m.live == old(m.live) && Quiet(m.g, old(m.disk), m.disk, m.live) && m.Bad() > old(m.Bad())
    ensures old(m.refusals) <= m.refusals <= old(m.refusals) + 1
    ensures ino == 0 && m.Bad() == old(m.Bad()) + 1 && old(m.Synced()) ==>
              Restored(m.g, old(m.disk), old(m.sb), old(m.gd), m.disk, m.sb, m.gd)
    ensures m.refusals > old(m.refusals) && old(m.Synced()) ==>
              (Restored(m.g, old(m.disk), old(m.sb), old(m.gd), m.disk, m.sb, m.gd) <==> m.faults == old(m.faults))
    ensures m.faults == old(m.faults) ==>
              (ino != 0 <==> !NoInode(m.g, old(m.disk), old(m.sb), old(m.gd))
                             && !NoPlace(m.g, old(m.disk), old(m.sb), old(m.gd), n, name))
    ensures m.refusals > old(m.refusals) <==>
              Refuses(m.g, old(m.disk), old(m.sb), old(m.gd), n, name,
                      m.readFails, old(m.nreads), m.writeFails, old(m.nwrites))
    ensures m.refusals > old(m.refusals) && !NoInode(m.g, old(m.disk), old(m.sb), old(m.gd))
            && m.writeFails(old(m.nwrites) + 4) ==>
              ino == 0 && !EqualInUse(m.g, old(m.disk), m.disk)
    ensures m.faults == old(m.faults) ==> m.Books() == old(m.Books()) && (old(m.Agreed()) ==> m.Agreed())
  {
    hide Inv, Gained, Quiet, EqualInUse, EqualBut, Clear, Safe, Find, Listing, InodeOk, DirOk, NoInode, NoPlace, Clean,
         Passes, AddReads, Mount.Logged, Mount.Books, Mount.Agreed;
    ghost var d0, live0, owner0 := m.disk, m.live, m.owner;
    GeoFits(m.g, d0, m.live, m.owner);
    ghost var r0, w0 := m.nreads, m.nwrites;
    ghost var k := 1 + AddReads(n, name, m.sb, m.gd, 0);
    ino := AllocInode(m);
    PassesThen(m.readFails, r0, 3 + k, m.writeFails, w0, 4, 3, 3, m.nreads, k, m.nwrites, 1);
    ghost var d1 := m.disk;
    GeoFits(m.g, d1, m.live, m.owner);
    if ino == 0 {
      QuietSame(m.g, d0, d1, live0, owner0);
      return;
    }
    NoPlaceSame(m.g, d0, old(m.sb), old(m.gd), n, d1, m.sb, m.gd, n, name);
    InodesReads(n, name, old(m.sb), old(m.gd), m.sb, m.gd);
    var ok := InitAndAdd(m, dir, n, ino, name);
    if ok {
      ghost var d3 := m.disk;
      FileGains(m.g, d0, d1, d3, live0, owner0, dir, ino, Entry(name, ino));
    } else {
      GiveBack(m, ino, d0, d1, old(m.sb), old(m.gd));
      ino := 0;
    }
  }

  lemma InodesReads(n: Inode, name: Name, sb: Super, gd: Group, sb': Super, gd': Group)
    requires sb'.freeBlocks == sb.freeBlocks && gd'.freeBlocks == gd.freeBlocks
    ensures AddReads(n, name, sb', gd', 0) == AddReads(n, name, sb, gd, 0)
  {}

  /** Free the inode taken between d0 and d1 after its entry could not be added. */
  method GiveBack(m: Mount, ino: nat, ghost d0: Disk, ghost d1: Disk, ghost sb0: Super, ghost gd0: Group)
    requires m.Valid() && ino !in m.live && Inv(m.g, d0, m.live, m.owner) && InodeTaken(m.g, d0, d1, ino)
    requires m.disk == d1 || Leaked(m.g, d1.(itab := d1.itab[ino - 1 := NEW_FILE]), m.disk)
    modifies m`nreads, m`nwrites, m`faults, m`disk, m`history, m`sb, m`gd
    ensures old(m.history) <= m.history
    ensures m.Valid() && m.faults >= old(m.faults) && Quiet(m.g, d0, m.disk, m.live)
    ensures m.faults == old(m.faults) ==> m.Books() == old(m.Books()) && (old(m.Agreed()) ==> m.Agreed())
    // It goes well exactly if no access fails.
    ensures EqualBut(m.g, d1, old(m.disk), ino, 0) && old(m.Synced()) && d0.sb == sb0 && d0.gd == gd0
            && OneLess(sb0, gd0, old(m.sb), old(m.gd)) ==>
              (Restored(m.g, d0, sb0, gd0, m.disk, m.sb, m.gd) <==> m.faults == old(m.faults))
    ensures old(m.disk).ibm == d1.ibm && m.writeFails(old(m.nwrites)) ==> !EqualInUse(m.g, d0, m.disk)
  {
    hide Inv, Quiet, EqualInUse, EqualBut, Leaked, Clear, Safe, Mount.Logged, Mount.Books, Mount.Agreed;
    ghost var d2 := m.disk;
    GeoFits(m.g, d2, m.live, m.owner);
    FreeInode(m, ino);
    GeoFits(m.g, m.disk, m.live, m.owner);
    FileUndone(m.g, d0, d1, d2, m.disk, m.live, m.owner, ino);
    StillMarked(m.g, d0, m.disk, ino);
    if EqualBut(m.g, d1, d2, ino, 0) { EqualMarks(m.g, d1, d2, ino, 0); }
  }

  ghost predicate OneLess(sb0: Super, gd0: Group, sb: Super, gd: Group)
  {
    && sb0.freeInodes > 0 && sb == sb0.(freeInodes := sb0.freeInodes - 1)
    && gd0.freeInodes > 0 && gd == gd0.(freeInodes := gd0.freeInodes - 1)
  }

  lemma StillMarked(g: Geo, d: Disk, d': Disk, c: nat)
    requires 1 <= c <= |d.ibm| == |d'.ibm| && !d.ibm[c - 1]
    ensures d'.ibm[c - 1] ==> !EqualInUse(g, d, d')
  {}

  lemma QuietSame(g: Geo, d: Disk, d': Disk, live: set<nat>, owner: Owner)
    requires Inv(g, d, live, owner) && Shape(g, d') && d'.itab == d.itab && d'.data == d.data
    ensures Quiet(g, d, d', live)
  {
    forall j | j in live
      ensures SameNode(g, d, d', j)
    {
      assert InodeOk(g, d, j);
    }
  }

  /** d1 is d with inode c marked and the counts moved; d2 also has c's record set to n. */
  ghost predicate InodeTaken(g: Geo, d: Disk, d1: Disk, c: nat)
  {
    && Shape(g, d) && 1 <= c <= g.inodes <= 8192 && !d.ibm[c - 1]
    && d1 == d.(ibm := d.ibm[c - 1 := true], sb := d1.sb, gd := d1.gd)
  }

  lemma TakenSafe(g: Geo, d: Disk, d1: Disk, live: set<nat>, owner: Owner, c: nat, n: Inode)
    requires Inv(g, d, live, owner) && InodeTaken(g, d, d1, c) && c !in live
    ensures Inv(g, d1.(itab := d1.itab[c - 1 := n]), live, owner)
    ensures Quiet(g, d, d1.(itab := d1.itab[c - 1 := n]), live)
  {
    hide SlotOk, DirOk, SameNode, Unpointed;
    var d2 := d1.(itab := d1.itab[c - 1 := n]);
    InvScratchInode(g, d, d2, live, owner, c);
    QuietInode(g, d, d2, live, owner, c);
  }

  lemma FileGains(g: Geo, d0: Disk, d1: Disk, d3: Disk, live: set<nat>, owner: Owner, dir: nat, c: nat, e: Entry)
    requires Inv(g, d0, live, owner) && dir in live && d0.itab[dir - 1].IsDir() && c !in live
    requires InodeTaken(g, d0, d1, c)
    requires Extended(g, d1.(itab := d1.itab[c - 1 := NEW_FILE]), d3, live, dir, c, e)
    ensures Gained(g, d0, d3, live, dir, c, e, 0)
    ensures HasInode(g, d3, c) && d3.itab[c - 1] == NEW_FILE
  {
    hide SlotOk, DirOk, Unpointed, Listing, Gained, SectorsOk;
    var d2 := d1.(itab := d1.itab[c - 1 := NEW_FILE]);
    TakenSafe(g, d0, d1, live, owner, c, NEW_FILE);
    assert InodeOk(g, d2, dir) && SameNode(g, d0, d2, dir);
    SameIsSameButLinks(g, d0, d2, dir);
    ExtendedGains(g, d0, d2, d3, live, owner, dir, c, e);
  }

  lemma FileUndone(g: Geo, d0: Disk, d1: Disk, d2: Disk, d3: Disk, live: set<nat>, owner: Owner, c: nat)
    requires Inv(g, d0, live, owner) && c !in live && InodeTaken(g, d0, d1, c)
    requires d2 == d1 || Leaked(g, d1.(itab := d1.itab[c - 1 := NEW_FILE]), d2)
    requires d3 == d2.(ibm := d3.ibm, sb := d3.sb, gd := d3.gd) && |d3.ibm| == 8192
    ensures Quiet(g, d0, d3, live)
    ensures EqualBut(g, d1, d2, c, 0) && d3.ibm == d2.ibm[c - 1 := false] && d3.sb == d0.sb && d3.gd == d0.gd ==>
              EqualInUse(g, d0, d3)
  {
    hide SlotOk, DirOk, SameNode, Unpointed, Quiet, EqualInUse, EqualBut;
    if d2 == d1 {
      QuietSame(g, d0, d3, live, owner);
    } else {
      var x := d1.(itab := d1.itab[c - 1 := NEW_FILE]);
      TakenSafe(g, d0, d1, live, owner, c, NEW_FILE);
      QuietLeaked(g, x, d2, live, owner);
      QuietTrans(g, d0, x, d2, live);
      QuietMarks(g, d0, d2, d3, live);
    }
    if EqualBut(g, d1, d2, c, 0) && d3.ibm == d2.ibm[c - 1 := false] && d3.sb == d0.sb && d3.gd == d0.gd {
      UndoInode(g, d0, d1, d2, d3, c);
    }
  }

  lemma QuietMarks(g: Geo, d: Disk, d1: Disk, d2: Disk, s: set<nat>)
    requires Quiet(g, d, d1, s) && Shape(g, d2) && d2.itab == d1.itab && d2.data == d1.data
    ensures Quiet(g, d, d2, s)
  {
    forall j | j in s
      ensures SameNode(g, d, d2, j)
    {
      assert SameNode(g, d, d1, j);
    }
  }

  lemma RecordAt(g: Geo, d: Disk, live: set<nat>, owner: Owner, dir: nat)
    requires Inv(g, d, live, owner) && dir in live
    ensures 1 <= dir <= g.inodes == |d.itab|
  {
    assert InodeOk(g, d, dir);
  }

  lemma NewFileAdoptable(g: Geo, d: Disk, live: set<nat>, owner: Owner, c: nat, dir: nat)
    requires Inv(g, d, live, owner) && c !in live && 1 <= c <= g.inodes && d.ibm[c - 1] && dir in live
    requires d.itab[c - 1] == NEW_FILE
    ensures LiveOk(g, d, live) && Adoptable(g, d, live, c, 0) && dir != c && 1 <= dir <= g.inodes
  {
    assert InodeOk(g, d, dir);
  }

  /** Store the new inode, then its directory entry. */
  method InitAndAdd(m: Mount, dir: nat, n: Inode, ino: nat, name: Name) returns (ok: bool)
    requires m.Valid() && dir in m.live && n == m.disk.itab[dir - 1] && n.IsDir()
    requires 1 <= ino <= m.g.inodes && ino !in m.live && m.disk.ibm[ino - 1]
    modifies m`nreads, m`nwrites, m`faults, m`disk, m`history, m`sb, m`gd, m`refusals, m`live, m`owner
    ensures old(m.history) <= m.history
    ensures m.Valid() && m.Bad() >= old(m.Bad()) + if ok then 0 else 1
    ensures old(m.refusals) <= m.refusals <= old(m.refusals) + 1
    ensures ok ==> m.live == old(m.live) + {ino} && m.Bad() == old(m.Bad())
                   && Extended(m.g, old(m.disk).(itab := old(m.disk).itab[ino - 1 := NEW_FILE]), m.disk,
                               old(m.live), dir, ino, Entry(name, ino))
    ensures !ok ==> m.live == old(m.live) && m.owner == old(m.owner)
                    && (m.disk == old(m.disk)
                        || Leaked(m.g, old(m.disk).(itab := old(m.disk).itab[ino - 1 := NEW_FILE]), m.disk))
    ensures !ok && m.Bad() == old(m.Bad()) + 1 && old(m.Synced()) ==>
              EqualBut(m.g, old(m.disk), m.disk, ino, 0) && m.Synced() && m.sb == old(m.sb) && m.gd == old(m.gd)
    ensures m.faults >= old(m.faults)
    ensures m.faults == old(m.faults) ==> m.Books() == old(m.Books()) && (old(m.Agreed()) ==> m.Agreed())
    ensures m.faults == old(m.faults) ==> (ok <==> !NoPlace(m.g, old(m.disk), old(m.sb), old(m.gd), n, name))
    ensures m.refusals > old(m.refusals) ==> m.faults == old(m.faults) && m.sb == old(m.sb) && m.gd == old(m.gd)
    ensures m.refusals > old(m.refusals) ==> m.nwrites == old(m.nwrites) + 1 && m.disk.ibm == old(m.disk).ibm
    ensures m.refusals > old(m.refusals) <==>
              NoPlace(m.g, old(m.disk), old(m.sb), old(m.gd), n, name)
              && Passes(m.readFails, old(m.nreads), 1 + AddReads(n, name, old(m.sb), old(m.gd), 0),
                        m.writeFails, old(m.nwrites), 1)
  {
    hide Inv, Extended, EqualInUse, EqualBut, Leaked, Clear, Safe, SlotOk, DirOk, Unpointed, NoPlace, AddReads,
         Mount.Logged, Mount.Books, Mount.Agreed;
    ghost var d0 := m.disk;
    GeoFits(m.g, d0, m.live, m.owner);
    InvScratchInode(m.g, m.disk, m.disk.(itab := m.disk.itab[ino - 1 := NEW_FILE]), m.live, m.owner, ino);
    EqualButWrites(m.g, d0, d0, ino, 0);
    EqualButWrites(m.g, d0, d0.(itab := d0.itab[ino - 1 := NEW_FILE]), ino, 0);
    ghost var r0, w0, k := m.nreads, m.nwrites, AddReads(n, name, m.sb, m.gd, 0);
    RecordAt(m.g, d0, m.live, m.owner, dir);
    ok := WriteInode(m, ino, NEW_FILE);
    PassesThen(m.readFails, r0, 1 + k, m.writeFails, w0, 1, 1, 1, m.nreads, k, m.nwrites, 0);
    if ok {
      ghost var d1 := m.disk;
      NewFileAdoptable(m.g, d1, m.live, m.owner, ino, dir);
      NoPlaceSame(m.g, d0, m.sb, m.gd, n, d1, m.sb, m.gd, n, name);
      ok := DirAdd(m, dir, n, ino, name, 0);
      if !ok && m.Bad() == old(m.Bad()) + 1 && old(m.Synced()) {
        EqualButFrom(m.g, d1, m.disk, ino, 0);
        EqualButTrans(m.g, d0, d1, m.disk, ino, 0);
      }
    }
  }
}
