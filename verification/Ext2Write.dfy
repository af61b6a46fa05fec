/** The end of a file write: store the pointer table, then the inode, and
    report the bytes that are on the device (kernel/ext2.c:612-641, 927-945). */
module Ext2Write {
  import opened Machine
  import opened Ext2Blocks
  import opened Ext2Dirents
  import opened Ext2Disk
  import opened Ext2Content
  import opened Ext2Alloc
  import opened Ext2Pending
  import opened Ext2Space
  import opened Ext2Files

  /** The inode record is the old one and no pointer was lost. */
  ghost predicate NoLoss(g: Geo, d0: Disk, d: Disk, i: nat)
  {
    && InodeOk(g, d0, i) && InodeOk(g, d, i) && d.itab[i - 1] == d0.itab[i - 1]
    && forall k :: 0 <= k < SLOTS && Ptr(g, d, i, k) == 0 ==> Ptr(g, d0, i, k) == 0
  }

  lemma AnchoredNoLoss(g: Geo, d0: Disk, d: Disk, i: nat)
    requires Anchored(g, d0, d, i)
    ensures NoLoss(g, d0, d, i)
  {}

  /** Each byte is the old one or the one asked for, and other nodes are untouched. */
  ghost predicate Mixed(g: Geo, d0: Disk, d: Disk, live: set<nat>, i: nat, off: nat, s: seq<Byte>)
  {
    && InodeOk(g, d0, i) && InodeOk(g, d, i) && d.itab[i - 1] == d0.itab[i - 1]
    && (forall j :: j in live && j != i ==> SameNode(g, d0, d, j))
    && (forall x :: 0 <= x < MAX_BYTES ==>
          || ByteAt(g, d, i, x) == ByteAt(g, d0, i, x)
          || (off <= x < off + |s| && ByteAt(g, d, i, x) == s[x - off]))
  }

  lemma GoingMixed(g: Geo, d0: Disk, d: Disk, live: set<nat>, owner: Owner, i: nat, w: Wip, off: nat, s: seq<Byte>)
    requires Going(g, d0, d, live, owner, i, w, off, s) && NoLoss(g, d0, d, i)
    ensures Mixed(g, d0, d, live, i, off, s)
  {
    var v := Virtual(g, d, i, w);
    forall j | j in live && j != i
      ensures SameNode(g, d0, d, j)
    {
      VirtualOther(g, d, live, owner, i, w, j);
      SameNodeTrans(g, d0, v, d, j);
    }
    forall x | 0 <= x < MAX_BYTES
      ensures ByteAt(g, d, i, x) == ByteAt(g, v, i, x) || ByteAt(g, d, i, x) == ByteAt(g, d0, i, x)
    {
      LagByte(g, d0, d, live, owner, i, w, x);
    }
  }

  lemma VirtualOther(g: Geo, d: Disk, live: set<nat>, owner: Owner, i: nat, w: Wip, j: nat)
    requires InodeOk(g, d, i) && WipOk(g, w) && i in live && j in live && j != i
    requires Inv(g, Virtual(g, d, i, w), live, owner)
    ensures SameNode(g, Virtual(g, d, i, w), d, j)
  {
    var v := Virtual(g, d, i, w);
    VirtualPtr(g, d, i, w, 12);
    LinkOther(g, v, d, live, owner, i, j);
  }

  lemma LagByte(g: Geo, d0: Disk, d: Disk, live: set<nat>, owner: Owner, i: nat, w: Wip, x: nat)
    requires NoLoss(g, d0, d, i) && WipOk(g, w) && Lags(g, d, i, w) && i in live
    requires Inv(g, Virtual(g, d, i, w), live, owner) && x < MAX_BYTES
    ensures HasInode(g, Virtual(g, d, i, w), i)
    ensures || ByteAt(g, d, i, x) == ByteAt(g, Virtual(g, d, i, w), i, x)
            || ByteAt(g, d, i, x) == ByteAt(g, d0, i, x)
  {
    var v := Virtual(g, d, i, w);
    var k := SlotOf(x / 1024);
    LagPtr(g, d, i, w, k);
    VirtualPtr(g, d, i, w, 12);
    assert SlotOk(g, v, owner, i, k) && SlotOk(g, v, owner, i, 12);
    assert Ptr(g, d, i, k) == 0 ==> Ptr(g, d0, i, k) == 0;
  }

  /** Storing the dirty table moves the device up to memory, table-wise. */
  lemma TableStored(g: Geo, d0: Disk, d: Disk, live: set<nat>, owner: Owner, i: nat, w: Wip, off: nat, s: seq<Byte>)
    requires Going(g, d0, d, live, owner, i, w, off, s) && w.loaded && NoLoss(g, d0, d, i)
    ensures var d1 := d.(data := d.data[w.n.block[12] := Table(w.ents)]);
            && Going(g, d0, d1, live, owner, i, w.(dirty := false), off, s)
            && Inv(g, d1, live, owner) && NoLoss(g, d0, d1, i)
  {
    var d1 := d.(data := d.data[w.n.block[12] := Table(w.ents)]);
    var w1 := w.(dirty := false);
    assert Virtual(g, d1, i, w1).data == Virtual(g, d, i, w).data;
    assert Virtual(g, d1, i, w1) == Virtual(g, d, i, w);
    StoredLags(g, d, i, w);
    OnDevice(g, d1, live, owner, i, w1);
    forall k | 0 <= k < SLOTS && Ptr(g, d1, i, k) == 0
      ensures Ptr(g, d0, i, k) == 0
    {
      StoredPtr(g, d, i, w, k);
      assert Ptr(g, d, i, k) == 0 ==> Ptr(g, d0, i, k) == 0;
    }
  }

  lemma StoredLags(g: Geo, d: Disk, i: nat, w: Wip)
    requires InodeOk(g, d, i) && WipOk(g, w) && Lags(g, d, i, w) && w.loaded
    ensures var d1 := d.(data := d.data[w.n.block[12] := Table(w.ents)]);
            InodeOk(g, d1, i) && Lags(g, d1, i, w.(dirty := false))
  {
    var d1 := d.(data := d.data[w.n.block[12] := Table(w.ents)]);
    var n := d1.itab[i - 1];
    assert n.block[12] == 0 || n.block[12] == w.n.block[12];
    forall c | 0 <= c < 256
      ensures n.block[12] != 0 ==> Child(d1.data[n.block[12]], c) == w.ents[c]
    {
      TableRoundTrip(w.ents, c);
    }
  }

  lemma StoredPtr(g: Geo, d: Disk, i: nat, w: Wip, k: nat)
    requires InodeOk(g, d, i) && WipOk(g, w) && Lags(g, d, i, w) && w.loaded && k < SLOTS
    ensures var d1 := d.(data := d.data[w.n.block[12] := Table(w.ents)]);
            InodeOk(g, d1, i) && (Ptr(g, d1, i, k) == 0 ==> Ptr(g, d, i, k) == 0)
  {
    var n := d.itab[i - 1];
    assert n.block[12] == 0 || n.block[12] == w.n.block[12];
    if k > 12 && n.block[12] != 0 {
      TableRoundTrip(w.ents, k - 13);
      assert Child(d.data[n.block[12]], k - 13) == 0 || Child(d.data[n.block[12]], k - 13) == w.ents[k - 13];
    }
  }

  /** The size of a file matters to neither the pointers nor the bytes. */
  lemma ResizedInv(g: Geo, v: Disk, d: Disk, live: set<nat>, owner: Owner, i: nat)
    requires Inv(g, v, live, owner) && i in live && !v.itab[i - 1].IsDir()
    requires Shape(g, d) && d == v.(itab := v.itab[i - 1 := v.itab[i - 1].(size := d.itab[i - 1].size)])
    ensures Inv(g, d, live, owner)
  {
    assert InodeOk(g, v, i);
    forall j | j in live
      ensures Shrunk(g, v, d, j)
    {
      assert InodeOk(g, v, j);
      if j != i {
        SameShrunk(g, v, d, live, owner, j);
      } else {
        forall k | 0 <= k < SLOTS && Ptr(g, d, i, k) != 0
          ensures Marked(g, d, Ptr(g, d, i, k))
        {
          assert SlotOk(g, v, owner, i, k);
        }
      }
    }
    InvShrunk(g, v, d, live, owner);
  }

  lemma ResizedOverlay(g: Geo, d0: Disk, v: Disk, d: Disk, live: set<nat>, i: nat, off: nat, s: seq<Byte>)
    requires InodeOk(g, d0, i) && InodeOk(g, v, i) && Overlaid(g, d0, v, live, i, off, s)
    requires Shape(g, d) && d == v.(itab := v.itab[i - 1 := v.itab[i - 1].(size := d.itab[i - 1].size)])
    ensures InodeOk(g, d, i) && Overlaid(g, d0, d, live, i, off, s)
    ensures SectorsOk(g, v, i) ==> SectorsOk(g, d, i)
  {
    forall j | j in live && j != i
      ensures SameNode(g, d0, d, j)
    {
      assert SameNode(g, d0, v, j);
    }
    forall x | 0 <= x < MAX_BYTES
      ensures ByteAt(g, d, i, x) == ByteAt(g, v, i, x)
    {
      assert Ptr(g, d, i, SlotOf(x / 1024)) == Ptr(g, v, i, SlotOf(x / 1024));
    }
    CountSame(g, v, d, i, SLOTS);
  }

  /** The inode of memory, grown to cover the bytes written, is stored. */
  lemma InodeStored(g: Geo, d0: Disk, d: Disk, live: set<nat>, owner: Owner, i: nat, w: Wip, off: nat, s: seq<Byte>,
                    size: nat)
    requires Going(g, d0, d, live, owner, i, w, off, s) && !w.dirty
    ensures var d2 := d.(itab := d.itab[i - 1 := w.n.(size := size)]);
            && Inv(g, d2, live, owner) && InodeOk(g, d2, i)
            && Overlaid(g, d0, d2, live, i, off, s)
            && (SectorsOk(g, d0, i) ==> SectorsOk(g, d2, i))
  {
    var v := Virtual(g, d, i, w);
    assert v.data == d.data;
    var d2 := d.(itab := d.itab[i - 1 := w.n.(size := size)]);
    assert d2.itab == v.itab[i - 1 := v.itab[i - 1].(size := size)];
    ResizedInv(g, v, d2, live, owner, i);
    ResizedOverlay(g, d0, v, d2, live, i, off, s);
  }

  /** ext2_write_data. Returns the bytes durably written, and the inode in memory as the code leaves it. */
  method WriteData(m: Mount, ino: nat, n0: Inode, off: nat, buf: seq<Byte>) returns (wrote: nat, n: Inode)
    requires m.Valid() && ino in m.live && !m.disk.itab[ino - 1].IsDir() && n0 == m.disk.itab[ino - 1]
    modifies m`nreads, m`nwrites, m`faults, m`disk, m`history, m`sb, m`gd, m`refusals, m`owner
    ensures old(m.history) <= m.history
    ensures m.Valid() && wrote <= |buf| && m.faults >= old(m.faults) && m.refusals >= old(m.refusals)
    // Progress reported is progress made, whatever faults occurred.
    ensures wrote > 0 ==>
              && InodeOk(m.g, old(m.disk), ino) && InodeOk(m.g, m.disk, ino)
              && Overlaid(m.g, old(m.disk), m.disk, m.live, ino, off, buf[..wrote])
              && m.disk.itab[ino - 1].size == Max(n0.size, off + wrote)
              && m.disk.itab[ino - 1].mode == n0.mode && m.disk.itab[ino - 1].links == n0.links
              && n == m.disk.itab[ino - 1]
              && (SectorsOk(m.g, old(m.disk), ino) ==> SectorsOk(m.g, m.disk, ino))
    ensures wrote == 0 ==> Mixed(m.g, old(m.disk), m.disk, m.live, ino, off, buf)
    // Without device faults a write of nothing changes nothing, and a short write means a full volume.
    ensures m.faults == old(m.faults) && wrote == 0 ==>
              Mixed(m.g, old(m.disk), m.disk, m.live, ino, off, []) && Anchored(m.g, old(m.disk), m.disk, ino)
    ensures m.faults == old(m.faults) && wrote < |buf| ==>
              off + |buf| > MAX_BYTES || (NoBlock(m.g, m.disk, m.sb, m.gd) && m.refusals > old(m.refusals))
    // It writes exactly as many bytes as the volume has blocks for, and takes what they need.
    ensures m.faults == old(m.faults) && off + |buf| <= MAX_BYTES ==>
              && HasInode(m.g, old(m.disk), ino)
              && FitsMost(m.g, old(m.disk), old(m.sb), old(m.gd), ino, off, |buf|, wrote)
              && Avail(m.g, m.disk, m.sb, m.gd) ==
                 if wrote < |buf| then 0
                 else old(Avail(m.g, m.disk, m.sb, m.gd))
                      - Lacking(m.g, old(m.disk), ino, off / 1024, Behind(off, wrote))
    ensures off + |buf| > MAX_BYTES ==> wrote == 0 && m.disk == old(m.disk)
    ensures m.faults == old(m.faults) ==> m.Books() == old(m.Books()) && (old(m.Agreed()) ==> m.Agreed())
  {
    hide Inv, Anchored, Clear, Overlaid, Lags, Mixed, NoLoss, SectorsOk, Safe, NoBlock, Avail, FitsMost,
         Lacking, Mount.Logged, Mount.Books, Mount.Agreed;
    n, wrote := n0, 0;
    if off > 0xFFFF_FFFF - |buf| || off + |buf| > MAX_BYTES {
      Untouched(m.g, m.disk, m.live, m.owner, ino, off, buf);
      return;
    }
    var w, placed := WriteLoop(m, ino, n0, off, buf);
    ghost var d0 := old(m.disk);
    assert buf[..0] == [];
    n := w.n;
    ghost var d1 := m.disk;
    var ok := StoreTable(m, ino, w, d0, off, buf, placed);
    NoBlockSame(m.g, d1, m.sb, m.gd, m.disk, m.sb, m.gd);
    AvailSame(m.g, d1, m.sb, m.gd, m.disk, m.sb, m.gd);
    if !ok || placed == 0 { return; }
    if off + placed > n.size { n := n.(size := off + placed); }
    wrote := StoreInode(m, ino, w.(dirty := false), n, d0, off, buf, placed);
    NoBlockSame(m.g, d1, m.sb, m.gd, m.disk, m.sb, m.gd);
    AvailSame(m.g, d1, m.sb, m.gd, m.disk, m.sb, m.gd);
  }

  /** Store the pointer table if it gained entries. */
  method StoreTable(m: Mount, ghost ino: nat, w: Wip, ghost d0: Disk, ghost off: nat, ghost buf: seq<Byte>,
                    ghost placed: nat)
    returns (ok: bool)
    requires m.Valid() && placed <= |buf| && Anchored(m.g, d0, m.disk, ino)
    requires Going(m.g, d0, m.disk, m.live, m.owner, ino, w, off, buf[..placed])
    modifies m`nwrites, m`faults, m`disk, m`history
    ensures old(m.history) <= m.history
    ensures m.Valid() && m.faults == old(m.faults) + if ok then 0 else 1
    ensures m.disk == old(m.disk).(data := m.disk.data) && (!w.dirty ==> m.disk == old(m.disk))
    ensures m.Books() == old(m.Books()) && m.Agreed() == old(m.Agreed())
    ensures Mixed(m.g, d0, m.disk, m.live, ino, off, buf) && Mixed(m.g, d0, m.disk, m.live, ino, off, buf[..placed])
    ensures ok ==> Going(m.g, d0, m.disk, m.live, m.owner, ino, w.(dirty := false), off, buf[..placed])
                   && NoLoss(m.g, d0, m.disk, ino)
  {
    hide Inv, Going, Mixed, NoLoss, Anchored, Safe, Clear, Mount.Logged;
    ok := true;
    TableFits(m.g, d0, m.disk, m.live, m.owner, ino, w, off, buf[..placed]);
    AnchoredNoLoss(m.g, d0, m.disk, ino);
    if w.dirty {
      TableStored(m.g, d0, m.disk, m.live, m.owner, ino, w, off, buf[..placed]);
      ok := m.DevWrite(m.disk.(data := m.disk.data[w.n.block[12] := Table(w.ents)]));
    }
    MixedWhole(m.g, d0, m.disk, m.live, m.owner, ino, if ok then w.(dirty := false) else w, off, buf, placed);
  }

  lemma TableFits(g: Geo, d0: Disk, d: Disk, live: set<nat>, owner: Owner, i: nat, w: Wip, off: nat, s: seq<Byte>)
    requires Going(g, d0, d, live, owner, i, w, off, s)
    ensures w.n.block[12] < |d.data|
    ensures w.dirty ==> w.loaded && |w.ents| == 256 && forall k :: 0 <= k < 256 ==> w.ents[k] < TWO32
  {}

  lemma Untouched(g: Geo, d: Disk, live: set<nat>, owner: Owner, i: nat, off: nat, buf: seq<Byte>)
    requires Inv(g, d, live, owner) && i in live
    ensures Mixed(g, d, d, live, i, off, buf) && Mixed(g, d, d, live, i, off, []) && Anchored(g, d, d, i)
  {
    assert InodeOk(g, d, i);
    forall j | j in live
      ensures SameNode(g, d, d, j)
    {
      assert InodeOk(g, d, j);
    }
  }

  lemma MixedWhole(g: Geo, d0: Disk, d: Disk, live: set<nat>, owner: Owner, i: nat, w: Wip, off: nat, buf: seq<Byte>,
                   placed: nat)
    requires placed <= |buf| && Going(g, d0, d, live, owner, i, w, off, buf[..placed]) && NoLoss(g, d0, d, i)
    ensures Mixed(g, d0, d, live, i, off, buf) && Mixed(g, d0, d, live, i, off, buf[..placed])
  {
    GoingMixed(g, d0, d, live, owner, i, w, off, buf[..placed]);
  }

  /** The last step of the write. */
  method StoreInode(m: Mount, ino: nat, ghost w: Wip, n: Inode, ghost d0: Disk, ghost off: nat, ghost buf: seq<Byte>,
                    placed: nat)
    returns (wrote: nat)
    requires m.Valid() && 0 < placed <= |buf|
    requires Going(m.g, d0, m.disk, m.live, m.owner, ino, w, off, buf[..placed]) && NoLoss(m.g, d0, m.disk, ino)
    requires !w.dirty && n == w.n.(size := Max(w.n.size, off + placed))
    modifies m`nreads, m`nwrites, m`faults, m`disk, m`history
    ensures old(m.history) <= m.history
    ensures m.Valid() && m.faults == old(m.faults) + if wrote == 0 then 1 else 0
    ensures wrote == 0 ==> m.disk == old(m.disk)
    ensures m.Books() == old(m.Books()) && m.Agreed() == old(m.Agreed())
    ensures wrote != 0 ==>
              && wrote == placed && m.disk == old(m.disk).(itab := old(m.disk).itab[ino - 1 := n])
              && InodeOk(m.g, m.disk, ino) && Overlaid(m.g, d0, m.disk, m.live, ino, off, buf[..placed])
              && (SectorsOk(m.g, d0, ino) ==> SectorsOk(m.g, m.disk, ino))
  {
    InodeStored(m.g, d0, m.disk, m.live, m.owner, ino, w, off, buf[..placed], n.size);
    var ok := WriteInode(m, ino, n);
    wrote := if ok then placed else 0;
  }
}
