/** Reading, writing and truncating regular files (kernel/ext2.c:242-282,
    470-641 and 908-1034). */
module Ext2Files {
  import opened Machine
  import opened Ext2Blocks
  import opened Ext2Dirents
  import opened Ext2Disk
  import opened Ext2Content
  import opened Ext2Alloc
  import opened Ext2Pending
  import opened Ext2Space

  /** Every pointer of the inode is a hole or a data block, and the deeper levels are unused. */
  predicate PointersOk(g: Geo, n: Inode)
  {
    && (forall k :: 0 <= k <= 12 ==> PtrOk(g, n.block[k]))
    && n.block[13] == 0 && n.block[14] == 0
  }

  /** The pointer check before each operation never refuses a live inode. */
  lemma LivePointersOk(g: Geo, d: Disk, live: set<nat>, owner: Owner, i: nat)
    requires Inv(g, d, live, owner) && i in live
    ensures PointersOk(g, d.itab[i - 1])
  {
    assert InodeOk(g, d, i);
    var n := d.itab[i - 1];
    forall k | 0 <= k <= 12
      ensures PtrOk(g, n.block[k])
    {
      assert SlotOk(g, d, owner, i, k) && Ptr(g, d, i, k) == n.block[k];
    }
  }

  method ReadInode(m: Mount, ino: nat) returns (ok: bool, n: Inode)
    requires m.Valid()
    modifies m`nreads, m`faults
    ensures m.Valid()
    ensures ok ==> 1 <= ino <= m.g.inodes && n == m.disk.itab[ino - 1] && m.faults == old(m.faults)
    ensures !ok && 1 <= ino <= m.g.inodes ==> m.faults == old(m.faults) + 1
    ensures m.faults >= old(m.faults)
    ensures 1 <= ino <= m.g.inodes ==> ok == !m.readFails(old(m.nreads)) && m.nreads == old(m.nreads) + 1
  {
    ok, n := false, Inode(Mode(Other, 0), 0, 0, 0, NoPtrs());
    if ino < 1 || ino > m.g.inodes { return; }
    ok := m.DevRead();
    if ok { n := m.disk.itab[ino - 1]; }
  }

  /** Read the table block, replace one inode in it, write it back. */
  method WriteInode(m: Mount, ino: nat, n: Inode) returns (ok: bool)
    requires m.Valid()
    requires 1 <= ino <= m.g.inodes ==> Inv(m.g, m.disk.(itab := m.disk.itab[ino - 1 := n]), m.live, m.owner)
    modifies m`nreads, m`nwrites, m`faults, m`disk, m`history
    ensures old(m.history) <= m.history
    ensures m.Valid()
    ensures ok ==> 1 <= ino <= m.g.inodes && m.faults == old(m.faults)
                   && m.disk == old(m.disk).(itab := old(m.disk).itab[ino - 1 := n])
    ensures !ok ==> m.disk == old(m.disk)
    ensures !ok && 1 <= ino <= m.g.inodes ==> m.faults == old(m.faults) + 1
    ensures m.faults >= old(m.faults)
    ensures m.Books() == old(m.Books()) && m.Agreed() == old(m.Agreed())
    ensures 1 <= ino <= m.g.inodes ==> (ok <==> !m.readFails(old(m.nreads)) && !m.writeFails(old(m.nwrites)))
    ensures ok ==> m.nreads == old(m.nreads) + 1 && m.nwrites == old(m.nwrites) + 1
  {
    hide SlotOk, DirOk, Safe, Clear, Mount.Logged;
    ok := false;
    if ino < 1 || ino > m.g.inodes { return; }
    ok := m.DevRead();
    if ok {
      ok := m.DevWrite(m.disk.(itab := m.disk.itab[ino - 1 := n]));
    }
  }

  // --------------------------------------------------------------------- write

  /** The inode record of i and its pointer table are on d what they were on d0. */
  ghost predicate Anchored(g: Geo, d0: Disk, d: Disk, i: nat)
  {
    && InodeOk(g, d0, i) && InodeOk(g, d, i) && d.itab[i - 1] == d0.itab[i - 1]
    && (d.itab[i - 1].block[12] != 0 ==> d.data[d.itab[i - 1].block[12]] == d0.data[d.itab[i - 1].block[12]])
  }

  lemma AnchoredLeaked(g: Geo, d0: Disk, d: Disk, d': Disk, live: set<nat>, owner: Owner, i: nat)
    requires Inv(g, d, live, owner) && i in live && Anchored(g, d0, d, i) && Leaked(g, d, d')
    ensures Anchored(g, d0, d', i)
  {
    assert SlotOk(g, d, owner, i, 12) && Ptr(g, d, i, 12) == d.itab[i - 1].block[12];
  }

  /** Give slot k of the file a new block while a write is pending; 0 when there is none to be had. */
  method NewBlock(m: Mount, ino: nat, w0: Wip, k: nat, ghost d0: Disk, ghost off: nat, ghost s: seq<Byte>)
    returns (w: Wip, phys: nat)
    requires m.Valid() && Going(m.g, d0, m.disk, m.live, m.owner, ino, w0, off, s) && k < SLOTS
    requires Anchored(m.g, d0, m.disk, ino)
    requires k <= 12 ==> w0.n.block[k] == 0
    requires k > 12 ==> w0.loaded && w0.ents[k - 13] == 0
    modifies m`nreads, m`nwrites, m`faults, m`disk, m`history, m`sb, m`gd, m`refusals, m`owner
    ensures old(m.history) <= m.history
    ensures m.Valid() && Going(m.g, d0, m.disk, m.live, m.owner, ino, w, off, s)
    ensures Anchored(m.g, d0, m.disk, ino)
    ensures w == if phys != 0 then Link(w0, k, phys) else w0
    ensures m.faults >= old(m.faults) && m.refusals >= old(m.refusals)
    ensures m.faults == old(m.faults) ==> m.Books() == old(m.Books()) && (old(m.Agreed()) ==> m.Agreed())
    ensures phys == 0 && m.faults == old(m.faults) ==> NoBlock(m.g, m.disk, m.sb, m.gd) && m.refusals > old(m.refusals)
    // Without a fault it gets one exactly if there is one.
    ensures m.faults == old(m.faults) ==>
              (phys != 0 <==> old(Avail(m.g, m.disk, m.sb, m.gd)) > 0)
              && Avail(m.g, m.disk, m.sb, m.gd) == old(Avail(m.g, m.disk, m.sb, m.gd)) - if phys != 0 then 1 else 0
  {
    hide Inv, Anchored, Clear, Overlaid, Lags, NoBlock, Mount.Logged, Mount.Books, Mount.Agreed;
    w := w0;
    phys := AllocForFile(m, ino, w, d0, off, s);
    if phys != 0 {
      GoingOn(m.g, d0, m.disk, m.live, m.owner, ino, w, off, s, k, phys);
      w := Link(w, k, phys);
      m.owner := m.owner[phys := (ino, k)];
    }
  }

  /** Allocate a block while a write is pending. */
  method AllocForFile(m: Mount, ghost ino: nat, ghost w: Wip, ghost d0: Disk, ghost off: nat, ghost s: seq<Byte>)
    returns (phys: nat)
    requires m.Valid() && Going(m.g, d0, m.disk, m.live, m.owner, ino, w, off, s)
    requires Anchored(m.g, d0, m.disk, ino)
    modifies m`nreads, m`nwrites, m`faults, m`disk, m`history, m`sb, m`gd, m`refusals
    ensures old(m.history) <= m.history
    ensures m.Valid() && Going(m.g, d0, m.disk, m.live, m.owner, ino, w, off, s)
    ensures Anchored(m.g, d0, m.disk, ino)
    ensures phys != 0 ==> Fresh(m.g, m.disk, m.live, ino, w, phys)
    ensures m.faults >= old(m.faults) && m.refusals >= old(m.refusals)
    ensures m.faults == old(m.faults) ==> m.Books() == old(m.Books()) && (old(m.Agreed()) ==> m.Agreed())
    ensures phys == 0 && m.faults == old(m.faults) ==> NoBlock(m.g, m.disk, m.sb, m.gd) && m.refusals > old(m.refusals)
    // Without a fault it gets one exactly if there is one.
    ensures m.faults == old(m.faults) ==>
              (phys != 0 <==> old(Avail(m.g, m.disk, m.sb, m.gd)) > 0)
              && Avail(m.g, m.disk, m.sb, m.gd) == old(Avail(m.g, m.disk, m.sb, m.gd)) - if phys != 0 then 1 else 0
  {
    hide Going, Anchored, Inv, Clear, Fresh, Leaked, Allocated, Avail, NoBlock, Mount.Logged, Mount.Books, Mount.Agreed;
    phys := AllocBlock(m);
    GoingGeo(m.g, d0, old(m.disk), m.live, m.owner, ino, w, off, s);
    AvailNone(m.g, old(m.disk), old(m.sb), old(m.gd));
    if phys != 0 {
      AvailTaken(m.g, old(m.disk), old(m.sb), old(m.gd), m.disk, m.sb, m.gd, phys);
      GoingAllocated(m.g, d0, old(m.disk), m.disk, m.live, m.owner, ino, w, off, s, phys);
    } else {
      GoingLeaked(m.g, d0, old(m.disk), m.disk, m.live, m.owner, ino, w, off, s);
    }
    GoingIsLive(m.g, d0, old(m.disk), m.live, m.owner, ino, w, off, s);
    AnchoredLeaked(m.g, d0, old(m.disk), m.disk, m.live, m.owner, ino);
  }

  lemma GoingGeo(g: Geo, d0: Disk, d: Disk, live: set<nat>, owner: Owner, i: nat, w: Wip, off: nat, s: seq<Byte>)
    requires Going(g, d0, d, live, owner, i, w, off, s)
    ensures GeoOk(g) && Shape(g, d) && HasInode(g, d0, i) && (w.loaded ==> |w.ents| == 256)
  {}

  lemma GoingIsLive(g: Geo, d0: Disk, d: Disk, live: set<nat>, owner: Owner, i: nat, w: Wip, off: nat, s: seq<Byte>)
    requires Going(g, d0, d, live, owner, i, w, off, s)
    ensures i in live
  {}

  lemma TableInRange(g: Geo, d0: Disk, d: Disk, live: set<nat>, owner: Owner, i: nat, w: Wip, off: nat, s: seq<Byte>)
    requires Going(g, d0, d, live, owner, i, w, off, s)
    ensures w.n.block[12] < |d.data|
  {}

  /** A table read from the device has the entries the write began with. */
  lemma TableKept(g: Geo, d0: Disk, d: Disk, live: set<nat>, owner: Owner, i: nat, w: Wip, off: nat, s: seq<Byte>)
    requires Going(g, d0, d, live, owner, i, w, off, s) && Anchored(g, d0, d, i)
    ensures Kept(g, d0, i, w, w, 12)
    ensures !w.loaded && w.n.block[12] != 0 ==>
              && w.n.block[12] < |d.data|
              && Kept(g, d0, i, w, w.(ents := Children(d.data[w.n.block[12]]), loaded := true), 12)
  {
    hide Inv, Overlaid;
  }

  /** A fresh table has as many entries as no table. */
  lemma FreshTableKept(g: Geo, d0: Disk, d: Disk, live: set<nat>, owner: Owner, i: nat, w: Wip, off: nat, s: seq<Byte>,
                       b: nat)
    requires Going(g, d0, d, live, owner, i, w, off, s) && Anchored(g, d0, d, i) && w.n.block[12] == 0
    ensures Kept(g, d0, i, w, Link(w, 12, b), 12)
  {
    hide Inv, Overlaid;
  }

  lemma LinkKept(g: Geo, d0: Disk, i: nat, w: Wip, k: nat, b: nat)
    requires HasInode(g, d0, i) && k < SLOTS && k != 12 && (k > 12 ==> w.loaded && |w.ents| == 256)
    ensures Kept(g, d0, i, w, Link(w, k, b), k)
    ensures Link(w, k, b).n.block[12] == w.n.block[12]
  {}

  lemma KeptMore(g: Geo, d0: Disk, i: nat, w: Wip, w': Wip, k: nat)
    requires Kept(g, d0, i, w, w', 12) && k < SLOTS
    ensures Kept(g, d0, i, w, w', k)
    ensures k != 12 ==> Slot(g, d0, i, w', k) == Slot(g, d0, i, w, k)
  {}

  /** Have the pointer table in memory, allocating its block if the file has none. */
  method LoadTable(m: Mount, ino: nat, w0: Wip, ghost d0: Disk, ghost off: nat, ghost s: seq<Byte>)
    returns (w: Wip, ok: bool)
    requires m.Valid() && Going(m.g, d0, m.disk, m.live, m.owner, ino, w0, off, s)
    requires Anchored(m.g, d0, m.disk, ino)
    modifies m`nreads, m`nwrites, m`faults, m`disk, m`history, m`sb, m`gd, m`refusals, m`owner
    ensures old(m.history) <= m.history
    ensures m.Valid() && Going(m.g, d0, m.disk, m.live, m.owner, ino, w, off, s)
    ensures Anchored(m.g, d0, m.disk, ino)
    ensures ok ==> w.loaded
    ensures w.dirty == w0.dirty
    ensures m.faults >= old(m.faults) && m.refusals >= old(m.refusals)
    ensures m.faults == old(m.faults) ==> m.Books() == old(m.Books()) && (old(m.Agreed()) ==> m.Agreed())
    ensures !ok && m.faults == old(m.faults) ==> NoBlock(m.g, m.disk, m.sb, m.gd) && m.refusals > old(m.refusals)
    // Without a fault it fails exactly if the file has no table and the volume no block.
    ensures Kept(m.g, d0, ino, w0, w, 12) && (ok ==> w.n.block[12] != 0)
    ensures m.faults == old(m.faults) ==>
              var need := if w0.n.block[12] == 0 then 1 else 0;
              && (ok <==> need <= old(Avail(m.g, m.disk, m.sb, m.gd)))
              && Avail(m.g, m.disk, m.sb, m.gd) == old(Avail(m.g, m.disk, m.sb, m.gd)) - if ok then need else 0
  {
    hide Inv, Anchored, Clear, Overlaid, Lags, NoBlock, Avail, Kept, Mount.Logged, Mount.Books, Mount.Agreed;
    w, ok := w0, true;
    TableKept(m.g, d0, m.disk, m.live, m.owner, ino, w0, off, s);
    if w.n.block[12] == 0 {
      var b;
      w, b := NewBlock(m, ino, w, 12, d0, off, s);
      ok := b != 0;
      if ok { FreshTableKept(m.g, d0, old(m.disk), old(m.live), old(m.owner), ino, w0, off, s, b); }
      return;
    }
    // The range check on the table block always passes: WipOk gives PtrOk.
    if !w.loaded {
      TableInRange(m.g, d0, m.disk, m.live, m.owner, ino, w, off, s);
      var blk;
      ok, blk := m.ReadBlock(w.n.block[12]);
      if ok {
        GoingLoaded(m.g, d0, m.disk, m.live, m.owner, ino, w, off, s);
        w := w.(ents := Children(blk), loaded := true);
      }
    }
  }

  /** Find the block holding file block bi, allocating it and the pointer table as needed. */
  method MapBlock(m: Mount, ino: nat, w0: Wip, bi: nat, ghost d0: Disk, ghost off: nat, ghost s: seq<Byte>)
    returns (w: Wip, phys: nat)
    requires m.Valid() && Going(m.g, d0, m.disk, m.live, m.owner, ino, w0, off, s) && bi < FILE_BLOCKS
    requires Anchored(m.g, d0, m.disk, ino)
    modifies m`nreads, m`nwrites, m`faults, m`disk, m`history, m`sb, m`gd, m`refusals, m`owner
    ensures old(m.history) <= m.history
    ensures m.Valid() && Going(m.g, d0, m.disk, m.live, m.owner, ino, w, off, s)
    ensures Anchored(m.g, d0, m.disk, ino)
    ensures phys == 0 ==> w.dirty == w0.dirty
    ensures phys != 0 && bi < 12 ==> phys == w.n.block[bi]
    ensures phys != 0 && bi >= 12 ==> w.loaded && phys == w.ents[bi - 12]
    ensures m.faults >= old(m.faults) && m.refusals >= old(m.refusals)
    ensures m.faults == old(m.faults) ==> m.Books() == old(m.Books()) && (old(m.Agreed()) ==> m.Agreed())
    ensures phys == 0 && m.faults == old(m.faults) ==> NoBlock(m.g, m.disk, m.sb, m.gd) && m.refusals > old(m.refusals)
    // Without a fault it succeeds exactly if the volume has the blocks that are missing.
    ensures Kept(m.g, d0, ino, w0, w, SlotOf(bi))
    ensures if bi < 12 then w.n.block[12] == w0.n.block[12] else phys != 0 ==> w.n.block[12] != 0
    ensures m.faults == old(m.faults) ==>
              (phys != 0 <==> Cost(m.g, d0, ino, w0, bi) <= old(Avail(m.g, m.disk, m.sb, m.gd)))
              && Avail(m.g, m.disk, m.sb, m.gd) ==
                 if phys != 0 then old(Avail(m.g, m.disk, m.sb, m.gd)) - Cost(m.g, d0, ino, w0, bi) else 0
  {
    hide Going, Inv, Anchored, Clear, NoBlock, Avail, Kept, Mount.Logged, Mount.Books, Mount.Agreed;
    w := w0;
    GoingGeo(m.g, d0, m.disk, m.live, m.owner, ino, w0, off, s);
    TableKept(m.g, d0, m.disk, m.live, m.owner, ino, w0, off, s);
    if bi < 12 {
      phys := w.n.block[bi];
      KeptMore(m.g, d0, ino, w0, w, bi);
      if phys == 0 {
        w, phys := NewBlock(m, ino, w, bi, d0, off, s);
        LinkKept(m.g, d0, ino, w0, bi, phys);
      }
    } else {
      phys := 0;
      var ok;
      w, ok := LoadTable(m, ino, w, d0, off, s);
      KeptMore(m.g, d0, ino, w0, w, bi + 1);
      GoingGeo(m.g, d0, m.disk, m.live, m.owner, ino, w, off, s);
      if ok {
        phys := w.ents[bi - 12];
        if phys == 0 {
          ghost var w1 := w;
          w, phys := NewBlock(m, ino, w, bi + 1, d0, off, s);
          LinkKept(m.g, d0, ino, w1, bi + 1, phys);
          if phys != 0 { KeptTrans(m.g, d0, ino, w0, w1, w, bi + 1); }
        }
      }
    }
  }

  lemma AnchoredWrite(g: Geo, d0: Disk, d: Disk, d': Disk, live: set<nat>, owner: Owner, i: nat, w: Wip, k: nat, p: nat)
    requires Anchored(g, d0, d, i) && WipOk(g, w) && Lags(g, d, i, w) && i in live
    requires Inv(g, Virtual(g, d, i, w), live, owner) && k < SLOTS && k != 12
    requires p == Ptr(g, Virtual(g, d, i, w), i, k) && p != 0
    requires Shape(g, d') && d' == d.(data := d'.data)
    requires forall x :: 0 <= x < g.blocks && x != p ==> d'.data[x] == d.data[x]
    ensures Anchored(g, d0, d', i)
  {
    VirtualPtr(g, d, i, w, 12);
    assert SlotOk(g, Virtual(g, d, i, w), owner, i, k) && SlotOk(g, Virtual(g, d, i, w), owner, i, 12);
    assert d.itab[i - 1].block[12] == 0 || d.itab[i - 1].block[12] == w.n.block[12];
  }

  /** All that one chunk's write to the device needs and keeps. */
  lemma ChunkLands(g: Geo, d0: Disk, d: Disk, live: set<nat>, owner: Owner, i: nat, w: Wip, off: nat, s: seq<Byte>,
                   c: seq<Byte>, p: nat)
    requires Going(g, d0, d, live, owner, i, w, off, s) && Anchored(g, d0, d, i)
    requires off + |s| < MAX_BYTES && (off + |s|) % 1024 + |c| <= 1024 && p != 0
    requires var bi := (off + |s|) / 1024;
             && (bi < 12 ==> p == w.n.block[bi])
             && (bi >= 12 ==> w.loaded && p == w.ents[bi - 12])
    ensures p < g.blocks
    ensures var d' := d.(data := d.data[p := Splice(d.data[p], (off + |s|) % 1024, c)]);
            && Going(g, d0, d', live, owner, i, w, off, s + c) && Anchored(g, d0, d', i)
            && Inv(g, d', live, owner)
  {
    var k := SlotOf((off + |s|) / 1024);
    VirtualPtr(g, d, i, w, k);
    GoingWrite(g, d0, d, live, owner, i, w, off, s, c, p);
    var d' := d.(data := d.data[p := Splice(d.data[p], (off + |s|) % 1024, c)]);
    AnchoredWrite(g, d0, d, d', live, owner, i, w, k, p);
    OnDevice(g, d', live, owner, i, w);
  }

  /** One turn of the write loop: map the block, read it, change part of it, write it back. */
  method WriteChunk(m: Mount, ino: nat, w0: Wip, at: nat, c: seq<Byte>, ghost d0: Disk, ghost off: nat,
                    ghost s: seq<Byte>)
    returns (w: Wip, ok: bool)
    requires m.Valid() && Going(m.g, d0, m.disk, m.live, m.owner, ino, w0, off, s)
    requires Anchored(m.g, d0, m.disk, ino)
    requires at == off + |s| && at < MAX_BYTES && at % 1024 + |c| <= 1024
    modifies m`nreads, m`nwrites, m`faults, m`disk, m`history, m`sb, m`gd, m`refusals, m`owner
    ensures old(m.history) <= m.history
    ensures m.Valid() && Anchored(m.g, d0, m.disk, ino)
    ensures Going(m.g, d0, m.disk, m.live, m.owner, ino, w, off, if ok then s + c else s)
    ensures m.faults >= old(m.faults) && m.refusals >= old(m.refusals)
    ensures m.faults == old(m.faults) ==> m.Books() == old(m.Books()) && (old(m.Agreed()) ==> m.Agreed())
    ensures !ok && m.faults == old(m.faults) ==>
              NoBlock(m.g, m.disk, m.sb, m.gd) && m.refusals > old(m.refusals) && w.dirty == w0.dirty
    // Without a fault it succeeds exactly if the volume has the blocks that are missing.
    ensures Kept(m.g, d0, ino, w0, w, SlotOf(at / 1024))
    ensures if at / 1024 < 12 then w.n.block[12] == w0.n.block[12] else ok ==> w.n.block[12] != 0
    ensures m.faults == old(m.faults) ==>
              (ok <==> Cost(m.g, d0, ino, w0, at / 1024) <= old(Avail(m.g, m.disk, m.sb, m.gd)))
              && Avail(m.g, m.disk, m.sb, m.gd) ==
                 if ok then old(Avail(m.g, m.disk, m.sb, m.gd)) - Cost(m.g, d0, ino, w0, at / 1024) else 0
  {
    hide Going, Inv, Anchored, Clear, NoBlock, Avail, Kept;
    GoingGeo(m.g, d0, m.disk, m.live, m.owner, ino, w0, off, s);
    var phys;
    w, phys := MapBlock(m, ino, w0, at / 1024, d0, off, s);
    ok := phys != 0;
    if ok {
      ghost var d1 := m.disk;
      ok := PutChunk(m, ino, w, phys, at, c, d0, off, s);
      AvailSame(m.g, d1, m.sb, m.gd, m.disk, m.sb, m.gd);
    }
  }

  /** Read-modify-write of the mapped block. The range check on it always passes. */
  method PutChunk(m: Mount, ghost ino: nat, ghost w: Wip, phys: nat, at: nat, c: seq<Byte>, ghost d0: Disk,
                  ghost off: nat, ghost s: seq<Byte>)
    returns (ok: bool)
    requires m.Valid() && Going(m.g, d0, m.disk, m.live, m.owner, ino, w, off, s)
    requires Anchored(m.g, d0, m.disk, ino)
    requires at == off + |s| && at < MAX_BYTES && at % 1024 + |c| <= 1024 && phys != 0
    requires at / 1024 < 12 ==> phys == w.n.block[at / 1024]
    requires at / 1024 >= 12 ==> w.loaded && phys == w.ents[at / 1024 - 12]
    modifies m`nreads, m`nwrites, m`faults, m`disk, m`history
    ensures old(m.history) <= m.history
    ensures m.Valid() && Anchored(m.g, d0, m.disk, ino)
    ensures Going(m.g, d0, m.disk, m.live, m.owner, ino, w, off, if ok then s + c else s)
    ensures m.faults == old(m.faults) + if ok then 0 else 1
    ensures m.disk == old(m.disk).(data := m.disk.data)
  {
    hide Going, Anchored;
    ChunkLands(m.g, d0, m.disk, m.live, m.owner, ino, w, off, s, c, phys);
    var blk;
    ok, blk := m.ReadBlock(phys);
    if !ok { return; }
    ok := m.DevWrite(m.disk.(data := m.disk.data[phys := Splice(blk, at % 1024, c)]));
  }

  lemma GoingStart(g: Geo, d: Disk, live: set<nat>, owner: Owner, i: nat, off: nat)
    requires Inv(g, d, live, owner) && i in live && !d.itab[i - 1].IsDir()
    ensures Going(g, d, d, live, owner, i, Wip(d.itab[i - 1], [], false, false), off, [])
    ensures Anchored(g, d, d, i)
  {
    var w := Wip(d.itab[i - 1], [], false, false);
    assert InodeOk(g, d, i);
    assert Virtual(g, d, i, w) == d;
    forall j | j in live && j != i
      ensures SameNode(g, d, d, j)
    {
      assert InodeOk(g, d, j);
    }
  }

  /** Bytes up to the end of the block at position `at`, or to the end of the request. */
  function ChunkLen(at: nat, left: nat): (n: nat)
    ensures n <= left && at % 1024 + n <= 1024 && (left > 0 ==> n > 0)
    ensures n < left ==> (at + n) % 1024 == 0
  {
    var room := 1024 - at % 1024;
    if room > left then left else room
  }

  lemma GoingRecord(g: Geo, d0: Disk, d: Disk, live: set<nat>, owner: Owner, i: nat, w: Wip, off: nat, s: seq<Byte>)
    requires Going(g, d0, d, live, owner, i, w, off, s) && Anchored(g, d0, d, i)
    ensures w.n == d0.itab[i - 1].(block := w.n.block, sectors := w.n.sectors)
  {}

  /** The loop of ext2_write_data: as many leading bytes of buf as could be placed. */
  method WriteLoop(m: Mount, ino: nat, n0: Inode, off: nat, buf: seq<Byte>)
    returns (w: Wip, wrote: nat)
    requires m.Valid() && ino in m.live && !m.disk.itab[ino - 1].IsDir() && n0 == m.disk.itab[ino - 1]
    requires off + |buf| <= MAX_BYTES
    modifies m`nreads, m`nwrites, m`faults, m`disk, m`history, m`sb, m`gd, m`refusals, m`owner
    ensures old(m.history) <= m.history
    ensures m.Valid() && wrote <= |buf|
    ensures Going(m.g, old(m.disk), m.disk, m.live, m.owner, ino, w, off, buf[..wrote])
    ensures Anchored(m.g, old(m.disk), m.disk, ino)
    ensures m.faults >= old(m.faults) && m.refusals >= old(m.refusals)
    ensures m.faults == old(m.faults) ==> m.Books() == old(m.Books()) && (old(m.Agreed()) ==> m.Agreed())
    // It stops without a fault only on a full volume.
    ensures wrote < |buf| && m.faults == old(m.faults) ==>
              NoBlock(m.g, m.disk, m.sb, m.gd) && m.refusals > old(m.refusals)
    // Without a fault it places exactly as many bytes as the volume has blocks for, and takes what they need.
    ensures m.faults == old(m.faults) ==>
              FitsMost(m.g, old(m.disk), old(m.sb), old(m.gd), ino, off, |buf|, wrote)
              && Avail(m.g, m.disk, m.sb, m.gd) ==
                 if wrote < |buf| then 0
                 else old(Avail(m.g, m.disk, m.sb, m.gd))
                      - Lacking(m.g, old(m.disk), ino, off / 1024, Behind(off, wrote))
    ensures wrote == 0 && m.faults == old(m.faults) ==> !w.dirty
    ensures w.n == n0.(block := w.n.block, sectors := w.n.sectors)
  {
    hide Going, Inv, Anchored, Clear, NoBlock, Avail, Kept, Cost, Paid, FitsMost, Lacking, Mount.Logged, Mount.Books,
         Mount.Agreed;
    ghost var d0 := m.disk;
    ghost var had := Avail(m.g, m.disk, m.sb, m.gd);
    w, wrote := Wip(n0, [], false, false), 0;
    GoingStart(m.g, d0, m.live, m.owner, ino, off);
    GoingGeo(m.g, d0, d0, m.live, m.owner, ino, w, off, []);
    PaidStart(m.g, d0, ino, off, had);
    var ok := true;
    assert buf[..0] == [];
    while wrote < |buf| && ok
      invariant m.Valid() && wrote <= |buf| && old(m.history) <= m.history
      invariant Going(m.g, d0, m.disk, m.live, m.owner, ino, w, off, buf[..wrote])
      invariant Anchored(m.g, d0, m.disk, ino)
      invariant m.faults >= old(m.faults) && m.refusals >= old(m.refusals)
      invariant m.faults == old(m.faults) ==> m.Books() == old(m.Books()) && (old(m.Agreed()) ==> m.Agreed())
      invariant !ok && m.faults == old(m.faults) ==> NoBlock(m.g, m.disk, m.sb, m.gd) && m.refusals > old(m.refusals)
      invariant wrote == 0 && m.faults == old(m.faults) ==> !w.dirty
      invariant 0 < wrote < |buf| ==> (off + wrote) % 1024 == 0
      invariant ok && m.faults == old(m.faults) ==>
                  Paid(m.g, d0, ino, w, off, wrote, had, Avail(m.g, m.disk, m.sb, m.gd))
      invariant !ok && m.faults == old(m.faults) ==>
                  && wrote < |buf| && Avail(m.g, m.disk, m.sb, m.gd) == 0
                  && FitsMost(m.g, d0, old(m.sb), old(m.gd), ino, off, |buf|, wrote)
      decreases |buf| - wrote, ok
    {
      var chunk := ChunkLen(off + wrote, |buf| - wrote);
      ghost var w1, has := w, Avail(m.g, m.disk, m.sb, m.gd);
      w, ok := WriteChunk(m, ino, w, off + wrote, buf[wrote..wrote + chunk], d0, off, buf[..wrote]);
      if m.faults == old(m.faults) {
        if ok { PaidNext(m.g, d0, ino, w1, w, off, wrote, chunk, had, has); }
        else { PaidNoMore(m.g, d0, old(m.sb), old(m.gd), ino, w1, off, wrote, |buf|, has); }
      }
      if ok {
        assert buf[..wrote] + buf[wrote..wrote + chunk] == buf[..wrote + chunk];
        wrote := wrote + chunk;
      }
    }
    if ok && m.faults == old(m.faults) {
      PaidAll(m.g, d0, old(m.sb), old(m.gd), ino, w, off, wrote, Avail(m.g, m.disk, m.sb, m.gd));
    }
    GoingRecord(m.g, d0, m.disk, m.live, m.owner, ino, w, off, buf[..wrote]);
  }
}
