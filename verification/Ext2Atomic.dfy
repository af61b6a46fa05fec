/** Create and mkdir when at most one device access fails: all or nothing on every volume with
    room, and exactly when on the others (kernel/ext2.c:1036-1263). */
module Ext2Atomic {
  import opened Machine
  import opened Ext2Blocks
  import opened Ext2Dirents
  import opened Ext2Disk
  import opened Ext2Content
  import opened Ext2Alloc
  import opened Ext2Files
  import opened Ext2Dirs
  import opened Ext2DirAdd
  import opened Ext2Create
  import opened Ext2Mkdir

  /** A create whose first accesses are numbered r and w is turned away for lack of room: it does
      not find the name, and every access up to finding that there is no room goes well. */
  ghost predicate CreateTurned(g: Geo, d: Disk, live: set<nat>, sb: Super, gd: Group, dir: nat, name: Name,
                               readFails: nat -> bool, r: nat, writeFails: nat -> bool, w: nat)
    requires InodeOk(g, d, dir) && DirOk(g, d, live, dir)
  {
    var n := d.itab[dir - 1];
    && !readFails(r)
    && (Hidden(g, d, dir, name, readFails, r) || Find(Listing(g, d, live, dir), name) == 0)
    && Refuses(g, d, sb, gd, n, name, readFails, r + LookupReads(n, readFails, r), writeFails, w)
  }

  /** With room a create is not turned away. */
  lemma RoomTakes(g: Geo, d: Disk, live: set<nat>, sb: Super, gd: Group, dir: nat, name: Name,
                  readFails: nat -> bool, r: nat, writeFails: nat -> bool, w: nat)
    requires InodeOk(g, d, dir) && DirOk(g, d, live, dir)
    requires !NoInode(g, d, sb, gd) && !NoPlace(g, d, sb, gd, d.itab[dir - 1], name)
    ensures !CreateTurned(g, d, live, sb, gd, dir, name, readFails, r, writeFails, w)
  {}

  /** If at most one access fails, wherever it is, a create that fails has changed nothing in use,
      unless it was turned away and the one failing access was in the roll-back. With room it is
      done or undone. */
  method CreateAtomic(m: Mount, dir: nat, name: Name) returns (ino: nat)
    requires m.Valid() && m.Synced() && dir in m.live && m.disk.itab[dir - 1].IsDir()
    modifies m`nreads, m`nwrites, m`faults, m`disk, m`history, m`sb, m`gd, m`refusals, m`live, m`owner
    ensures m.Valid() && InodeOk(m.g, old(m.disk), dir) && DirOk(m.g, old(m.disk), old(m.live), dir)
    ensures ino == 0 && m.faults <= old(m.faults) + 1 ==>
              (Restored(m.g, old(m.disk), old(m.sb), old(m.gd), m.disk, m.sb, m.gd) <==>
                 (CreateTurned(m.g, old(m.disk), old(m.live), old(m.sb), old(m.gd), dir, name,
                               m.readFails, old(m.nreads), m.writeFails, old(m.nwrites)) ==>
                    m.faults == LookedUp(old(m.faults),
                                         Hidden(m.g, old(m.disk), dir, name, m.readFails, old(m.nreads)))))
    ensures old(!NoInode(m.g, m.disk, m.sb, m.gd) && !NoPlace(m.g, m.disk, m.sb, m.gd, m.disk.itab[dir - 1], name))
            && m.faults <= old(m.faults) + 1 ==>
              if ino == 0 then Restored(m.g, old(m.disk), old(m.sb), old(m.gd), m.disk, m.sb, m.gd)
              else Gained(m.g, old(m.disk), m.disk, old(m.live), dir, ino, Entry(name, ino), 0)
                   && HasInode(m.g, m.disk, ino) && m.disk.itab[ino - 1] == NEW_FILE
  {
    hide Inv, Gained, NamesGained, Quiet, EqualInUse, Clear, Safe, DirOk, Listing, Find, NoInode, NoPlace, Blinded,
         Clean, Refuses, Attempts, LosesInode, Restored, Mount.Logged, Mount.Books, Mount.Agreed;
    DirPointer(m.g, m.disk, m.live, m.owner, dir, 0);
    if !NoInode(m.g, m.disk, m.sb, m.gd) && !NoPlace(m.g, m.disk, m.sb, m.gd, m.disk.itab[dir - 1], name) {
      RoomTakes(m.g, m.disk, m.live, m.sb, m.gd, dir, name, m.readFails, m.nreads, m.writeFails, m.nwrites);
    }
    ino := Create(m, dir, name);
  }

  /** The same for a mkdir, which also needs a directory to make it in, an acceptable name, and counts
      that can grow. */
  ghost predicate MkdirTurned(g: Geo, d: Disk, live: set<nat>, sb: Super, gd: Group, dir: nat, name: Name,
                              readFails: nat -> bool, r: nat, writeFails: nat -> bool, w: nat)
    requires InodeOk(g, d, dir) && (d.itab[dir - 1].IsDir() ==> DirOk(g, d, live, dir))
  {
    var n := d.itab[dir - 1];
    && !readFails(r) && n.IsDir() && Legal(name)
    && (Missed(g, d, dir, name, readFails, r) || Find(Listing(g, d, live, dir), name) == 0)
    && n.links != 0xFFFF && gd.usedDirs < g.inodes
    && DirRefuses(g, d, sb, gd, n, name, readFails, r + LookupReads(n, readFails, r), writeFails, w)
  }

  lemma WelcomeTakes(g: Geo, d: Disk, live: set<nat>, sb: Super, gd: Group, dir: nat, name: Name,
                     readFails: nat -> bool, r: nat, writeFails: nat -> bool, w: nat)
    requires InodeOk(g, d, dir) && (d.itab[dir - 1].IsDir() ==> DirOk(g, d, live, dir))
    requires Welcome(g, d, sb, gd, d.itab[dir - 1], name)
    ensures !MkdirTurned(g, d, live, sb, gd, dir, name, readFails, r, writeFails, w)
  {}

  /** If at most one access fails, wherever it is, a mkdir that fails has changed nothing in use,
      unless it was turned away and the one failing access was in the roll-back and not the spare
      one. With room it is done or undone. */
  method MkdirAtomic(m: Mount, dir: nat, name: Name) returns (ok: bool, ino: nat)
    requires m.Valid() && m.Synced() && dir in m.live
    modifies m`nreads, m`nwrites, m`faults, m`disk, m`history, m`sb, m`gd, m`refusals, m`live, m`owner
    ensures m.Valid() && InodeOk(m.g, old(m.disk), dir)
    ensures old(m.disk).itab[dir - 1].IsDir() ==> DirOk(m.g, old(m.disk), old(m.live), dir)
    ensures !ok && m.faults <= old(m.faults) + 1 ==>
              var n := old(m.disk).itab[dir - 1];
              (Restored(m.g, old(m.disk), old(m.sb), old(m.gd), m.disk, m.sb, m.gd) <==>
                 (MkdirTurned(m.g, old(m.disk), old(m.live), old(m.sb), old(m.gd), dir, name,
                              m.readFails, old(m.nreads), m.writeFails, old(m.nwrites)) ==>
                    m.faults == LookedUp(old(m.faults),
                                         Missed(m.g, old(m.disk), dir, name, m.readFails, old(m.nreads)))
                                + Spare(m.g, old(m.disk), old(m.sb), old(m.gd), n, name,
                                        m.readFails, old(m.nreads) + LookupReads(n, m.readFails, old(m.nreads)),
                                        m.writeFails, old(m.nwrites))))
    ensures old(Welcome(m.g, m.disk, m.sb, m.gd, m.disk.itab[dir - 1], name)) && m.faults <= old(m.faults) + 1 ==>
              if !ok then Restored(m.g, old(m.disk), old(m.sb), old(m.gd), m.disk, m.sb, m.gd)
              else Gained(m.g, old(m.disk), m.disk, old(m.live), dir, ino, Entry(name, ino), 1)
                   && IsNewDir(m.g, m.disk, ino, dir)
  {
    hide Inv, Gained, NamesGained, Backed, EqualInUse, Clear, Safe, IsNewDir, DirOk, Listing, Find, Blinded,
         Welcome, DirRefuses, LosesLink, LinkTooMany, Spare, Attempts, Restored, Legal,
         Mount.Logged, Mount.Books, Mount.Agreed;
    LiveFacts(m.g, m.disk, m.live, m.owner, dir);
    LivePointersOk(m.g, m.disk, m.live, m.owner, dir);
    if m.disk.itab[dir - 1].IsDir() { DirPointer(m.g, m.disk, m.live, m.owner, dir, 0); }
    if Welcome(m.g, m.disk, m.sb, m.gd, m.disk.itab[dir - 1], name) {
      WelcomeTakes(m.g, m.disk, m.live, m.sb, m.gd, dir, name, m.readFails, m.nreads, m.writeFails, m.nwrites);
    }
    ok, ino := Mkdir(m, dir, name);
  }
}
