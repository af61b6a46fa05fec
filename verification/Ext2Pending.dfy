/** A file write in progress: the inode and its pointer table live in memory
    while blocks are allocated and filled on the device. */
module Ext2Pending {
  import opened Machine
  import opened Ext2Blocks
  import opened Ext2Dirents
  import opened Ext2Disk
  import opened Ext2Content
  import opened Ext2Alloc

  /** `n` and `ents` are the in-memory inode and pointer table; `loaded` says the
      table is valid, `dirty` that it gained entries since. */
  datatype Wip = Wip(n: Inode, ents: seq<nat>, loaded: bool, dirty: bool)

  predicate WipOk(g: Geo, w: Wip)
  {
    && PtrOk(g, w.n.block[12]) && 0 < g.blocks
    && (w.loaded ==>
          && |w.ents| == 256 && (forall c :: 0 <= c < 256 ==> w.ents[c] < TWO32)
          && w.n.block[12] != 0)
  }

  /** The volume as it would be with the inode and pointer table in memory stored. */
  function Virtual(g: Geo, d: Disk, i: nat, w: Wip): Disk
    requires WipOk(g, w) && Shape(g, d) && 1 <= i <= g.inodes
  {
    d.(itab := d.itab[i - 1 := w.n],
       data := if w.loaded then d.data[w.n.block[12] := Table(w.ents)] else d.data)
  }

  /** The device lags behind memory only by pointers it does not have yet. */
  ghost predicate Lags(g: Geo, d: Disk, i: nat, w: Wip)
    requires WipOk(g, w) && InodeOk(g, d, i)
  {
    var n := d.itab[i - 1];
    && w.n == n.(block := w.n.block, sectors := w.n.sectors) && !n.IsDir()
    && w.n.block[13] == 0 && w.n.block[14] == 0
    && (forall k :: 0 <= k <= 12 ==> n.block[k] == 0 || n.block[k] == w.n.block[k])
    && (w.loaded && n.block[12] != 0 ==>
          forall c :: 0 <= c < 256 ==> Child(d.data[n.block[12]], c) == 0 || Child(d.data[n.block[12]], c) == w.ents[c])
    && (!w.loaded ==> w.n.block[12] == n.block[12] && !w.dirty)
    && (w.loaded && !w.dirty ==> d.data[w.n.block[12]] == Table(w.ents))
  }

  /** The write so far: storing memory now would give file i its old bytes
      overlaid with s, with no aliasing and nothing else changed. */
  ghost predicate Going(g: Geo, d0: Disk, d: Disk, live: set<nat>, owner: Owner, i: nat, w: Wip, off: nat, s: seq<Byte>)
  {
    && InodeOk(g, d0, i) && InodeOk(g, d, i) && i in live
    && WipOk(g, w) && Lags(g, d, i, w)
    && Inv(g, Virtual(g, d, i, w), live, owner)
    && Overlaid(g, d0, Virtual(g, d, i, w), live, i, off, s)
    && (SectorsOk(g, d0, i) ==> SectorsOk(g, Virtual(g, d, i, w), i))
  }

  lemma VirtualPtr(g: Geo, d: Disk, i: nat, w: Wip, k: nat)
    requires InodeOk(g, d, i) && WipOk(g, w) && k < SLOTS
    ensures HasInode(g, Virtual(g, d, i, w), i)
    ensures k <= 12 ==> Ptr(g, Virtual(g, d, i, w), i, k) == w.n.block[k]
    ensures k > 12 && w.loaded ==> Ptr(g, Virtual(g, d, i, w), i, k) == w.ents[k - 13]
    ensures k > 12 && !w.loaded ==>
              Ptr(g, Virtual(g, d, i, w), i, k) ==
              if w.n.block[12] == 0 then 0 else Child(d.data[w.n.block[12]], k - 13)
  {
    if k > 12 && w.loaded {
      TableRoundTrip(w.ents, k - 13);
    }
  }

  lemma LagPtr(g: Geo, d: Disk, i: nat, w: Wip, k: nat)
    requires InodeOk(g, d, i) && WipOk(g, w) && Lags(g, d, i, w) && k < SLOTS
    ensures HasInode(g, Virtual(g, d, i, w), i)
    ensures Ptr(g, d, i, k) == 0 || Ptr(g, d, i, k) == Ptr(g, Virtual(g, d, i, w), i, k)
  {
    VirtualPtr(g, d, i, w, k);
    if k > 12 && d.itab[i - 1].block[12] != 0 {
      assert Ptr(g, d, i, k) == Child(d.data[d.itab[i - 1].block[12]], k - 13);
    }
  }

  /** What holds with memory stored also holds on the device as it is. */
  lemma OnDevice(g: Geo, d: Disk, live: set<nat>, owner: Owner, i: nat, w: Wip)
    requires InodeOk(g, d, i) && WipOk(g, w) && Lags(g, d, i, w) && i in live
    requires Inv(g, Virtual(g, d, i, w), live, owner)
    ensures Inv(g, d, live, owner)
  {
    var v := Virtual(g, d, i, w);
    forall j | j in live
      ensures Shrunk(g, v, d, j)
    {
      if j == i {
        OnDeviceSelf(g, d, live, owner, i, w);
      } else if w.loaded {
        VirtualPtr(g, d, i, w, 12);
        IndirectShrunk(g, v, d, live, owner, i, j);
      } else {
        SameShrunk(g, v, d, live, owner, j);
      }
    }
    InvShrunk(g, v, d, live, owner);
  }

  lemma OnDeviceSelf(g: Geo, d: Disk, live: set<nat>, owner: Owner, i: nat, w: Wip)
    requires InodeOk(g, d, i) && WipOk(g, w) && Lags(g, d, i, w) && i in live
    requires Inv(g, Virtual(g, d, i, w), live, owner)
    ensures InodeOk(g, Virtual(g, d, i, w), i) && Shrunk(g, Virtual(g, d, i, w), d, i)
  {
    var v := Virtual(g, d, i, w);
    assert InodeOk(g, v, i);
    forall k | 0 <= k < SLOTS && Ptr(g, d, i, k) != 0
      ensures Ptr(g, d, i, k) == Ptr(g, v, i, k) && Marked(g, d, Ptr(g, d, i, k))
    {
      LagPtr(g, d, i, w, k);
      assert SlotOk(g, v, owner, i, k);
    }
  }

  // --------------------------------------------------------- steps of the write

  /** Device changes that reach no live block leave the write where it was. */
  lemma GoingOutside(g: Geo, d0: Disk, d: Disk, d': Disk, live: set<nat>, owner: Owner, i: nat, w: Wip, off: nat,
                     s: seq<Byte>)
    requires Going(g, d0, d, live, owner, i, w, off, s)
    requires InodeOk(g, d', i) && Lags(g, d', i, w)
    requires Outside(g, Virtual(g, d, i, w), Virtual(g, d', i, w), live)
    ensures Going(g, d0, d', live, owner, i, w, off, s)
  {
    var v, v' := Virtual(g, d, i, w), Virtual(g, d', i, w);
    InvOutside(g, v, v', live, owner);
    OverlaidOutside(g, d0, v, v', live, owner, i, off, s);
    forall k | 0 <= k < SLOTS
      ensures Ptr(g, v', i, k) == Ptr(g, v, i, k)
    {
      OutsideSlot(g, v, v', live, owner, i, k);
    }
    CountSame(g, v, v', i, SLOTS);
  }

  lemma GoingLeaked(g: Geo, d0: Disk, d: Disk, d': Disk, live: set<nat>, owner: Owner, i: nat, w: Wip, off: nat,
                    s: seq<Byte>)
    requires Going(g, d0, d, live, owner, i, w, off, s) && Leaked(g, d, d')
    ensures Going(g, d0, d', live, owner, i, w, off, s)
  {
    var v, v' := Virtual(g, d, i, w), Virtual(g, d', i, w);
    assert Leaked(g, v, v');
    LeakedOutside(g, v, v', live, owner);
    LeakedLags(g, d, d', live, owner, i, w);
    GoingOutside(g, d0, d, d', live, owner, i, w, off, s);
  }

  lemma LeakedLags(g: Geo, d: Disk, d': Disk, live: set<nat>, owner: Owner, i: nat, w: Wip)
    requires InodeOk(g, d, i) && WipOk(g, w) && Lags(g, d, i, w) && i in live
    requires Inv(g, Virtual(g, d, i, w), live, owner) && Leaked(g, d, d')
    ensures InodeOk(g, d', i) && Lags(g, d', i, w)
  {
    VirtualPtr(g, d, i, w, 12);
    assert SlotOk(g, Virtual(g, d, i, w), owner, i, 12);
  }

  /** A block fresh from the allocator: named by nothing, zeroed, marked. */
  ghost predicate Fresh(g: Geo, d: Disk, live: set<nat>, i: nat, w: Wip, b: nat)
    requires WipOk(g, w) && Shape(g, d) && 1 <= i <= g.inodes
    requires LiveOk(g, Virtual(g, d, i, w), live)
  {
    InRange(g, b) && Marked(g, d, b) && d.data[b] == Zero() && Unpointed(g, Virtual(g, d, i, w), live, b)
  }

  lemma GoingAllocated(g: Geo, d0: Disk, d: Disk, d': Disk, live: set<nat>, owner: Owner, i: nat, w: Wip, off: nat,
                       s: seq<Byte>, b: nat)
    requires Going(g, d0, d, live, owner, i, w, off, s) && Allocated(g, d, d', b)
    ensures Going(g, d0, d', live, owner, i, w, off, s)
    ensures Fresh(g, d', live, i, w, b)
  {
    var v, v' := Virtual(g, d, i, w), Virtual(g, d', i, w);
    GoingLeaked(g, d0, d, d', live, owner, i, w, off, s);
    ClearIsUnpointed(g, v, live, owner, b);
    VirtualPtr(g, d, i, w, 12);
    assert Ptr(g, v, i, 12) != b;
    InvScratch(g, v, v', live, owner, b);
  }

  /** The bi-th direct pointer is set to a fresh block. */
  function LinkDirect(w: Wip, k: nat, b: nat): Wip
    requires k <= 12
  {
    w.(n := w.n.(block := w.n.block[k := b], sectors := (w.n.sectors + 2) % TWO32))
  }

  /** The indirect block is a fresh block: an empty table, already loaded. */
  function LinkIndirect(w: Wip, b: nat): Wip
  {
    LinkDirect(w, 12, b).(ents := seq(256, c => 0), loaded := true)
  }

  function LinkChild(w: Wip, c: nat, b: nat): Wip
    requires |w.ents| == 256 && c < 256
  {
    w.(ents := w.ents[c := b], dirty := true, n := w.n.(sectors := (w.n.sectors + 2) % TWO32))
  }

  /** From v to v', inode i gains block b in slot k; at most its pointer table changes besides. */
  ghost predicate Gains(g: Geo, v: Disk, v': Disk, i: nat, k: nat, b: nat)
    requires InodeOk(g, v, i) && k < SLOTS
  {
    && InodeOk(g, v', i) && !v.itab[i - 1].IsDir() && !v'.itab[i - 1].IsDir()
    && v'.ibm == v.ibm && v'.bbm == v.bbm
    && (forall j :: 0 <= j < g.inodes && j != i - 1 ==> v'.itab[j] == v.itab[j])
    && Ptr(g, v, i, k) == 0 && Ptr(g, v', i, k) == b
    && (forall l :: 0 <= l < SLOTS && l != k ==> Ptr(g, v', i, l) == Ptr(g, v, i, l))
    && (v'.data == v.data || (Ptr(g, v, i, 12) != 0 && k != 12 &&
          forall x :: 0 <= x < g.blocks && x != Ptr(g, v, i, 12) ==> v'.data[x] == v.data[x]))
  }

  lemma GainsInv(g: Geo, v: Disk, v': Disk, live: set<nat>, owner: Owner, i: nat, k: nat, b: nat)
    requires Inv(g, v, live, owner) && i in live && k < SLOTS && Gains(g, v, v', i, k, b)
    requires InRange(g, b) && Marked(g, v, b) && Unpointed(g, v, live, b)
    ensures Inv(g, v', live, owner[b := (i, k)])
  {
    forall j | j in live && j != i
      ensures Shrunk(g, v, v', j)
    {
      assert InodeOk(g, v, j);
      LinkOther(g, v, v', live, owner, i, j);
    }
    forall l | 0 <= l < SLOTS && Ptr(g, v, i, l) != 0
      ensures Marked(g, v', Ptr(g, v, i, l))
    {
      assert SlotOk(g, v, owner, i, l);
    }
    InvLink(g, v, v', live, owner, i, k, b);
  }

  lemma GainsBytes(g: Geo, d0: Disk, v: Disk, v': Disk, live: set<nat>, owner: Owner, i: nat, k: nat, b: nat, off: nat,
                   s: seq<Byte>)
    requires Inv(g, v, live, owner) && i in live && k < SLOTS && Gains(g, v, v', i, k, b)
    requires InRange(g, b) && v.data[b] == Zero() && Unpointed(g, v, live, b)
    requires InodeOk(g, d0, i) && Overlaid(g, d0, v, live, i, off, s)
    ensures Overlaid(g, d0, v', live, i, off, s)
  {
    forall j | j in live && j != i
      ensures SameNode(g, v, v', j)
    {
      assert InodeOk(g, v, j);
      LinkOther(g, v, v', live, owner, i, j);
    }
    LinkKeepsBytes(g, v, v', live, owner, i);
    assert Ptr(g, v, i, 12) != b;
    OverlaidLink(g, d0, v, v', live, i, k, off, s);
  }

  lemma GainsSectors(g: Geo, v: Disk, v': Disk, i: nat, k: nat, b: nat)
    requires InodeOk(g, v, i) && k < SLOTS && Gains(g, v, v', i, k, b) && b != 0
    requires SectorsOk(g, v, i) && v'.itab[i - 1].sectors == (v.itab[i - 1].sectors + 2) % TWO32
    ensures SectorsOk(g, v', i)
  {
    var c := CountPtrs(g, v, i, SLOTS);
    CountBound(g, v, i, SLOTS);
    CountLink(g, v, v', i, k, SLOTS);
    SmallSum(c);
  }

  lemma SmallSum(c: nat)
    requires c <= SLOTS
    ensures (2 * c + 2) % TWO32 == 2 * (c + 1)
  {}

  lemma GoingLink(g: Geo, d0: Disk, d: Disk, live: set<nat>, owner: Owner, i: nat, w: Wip, w': Wip, off: nat,
                  s: seq<Byte>, k: nat, b: nat)
    requires Going(g, d0, d, live, owner, i, w, off, s) && k < SLOTS
    requires Fresh(g, d, live, i, w, b) && Virtual(g, d, i, w).data[b] == Zero()
    requires WipOk(g, w') && Lags(g, d, i, w') && w'.n.sectors == (w.n.sectors + 2) % TWO32
    requires InodeOk(g, Virtual(g, d, i, w), i) && Gains(g, Virtual(g, d, i, w), Virtual(g, d, i, w'), i, k, b)
    ensures Going(g, d0, d, live, owner[b := (i, k)], i, w', off, s)
  {
    var v, v' := Virtual(g, d, i, w), Virtual(g, d, i, w');
    GainsInv(g, v, v', live, owner, i, k, b);
    GainsBytes(g, d0, v, v', live, owner, i, k, b, off, s);
    assert v.itab[i - 1] == w.n && v'.itab[i - 1] == w'.n;
    if SectorsOk(g, d0, i) {
      GainsSectors(g, v, v', i, k, b);
    }
  }

  lemma LinkOther(g: Geo, v: Disk, v': Disk, live: set<nat>, owner: Owner, i: nat, j: nat)
    requires Inv(g, v, live, owner) && i in live && j in live && j != i
    requires Shape(g, v') && v'.itab[j - 1] == v.itab[j - 1] && v'.ibm == v.ibm && v'.bbm == v.bbm
    requires v'.data == v.data || (Ptr(g, v, i, 12) != 0 &&
               forall x :: 0 <= x < g.blocks && x != Ptr(g, v, i, 12) ==> v'.data[x] == v.data[x])
    ensures InodeOk(g, v, j) && Shrunk(g, v, v', j) && SameNode(g, v, v', j)
  {
    if v'.data == v.data {
      SameShrunk(g, v, v', live, owner, j);
    } else {
      IndirectShrunk(g, v, v', live, owner, i, j);
      forall l | 0 <= l < SLOTS && 0 < Ptr(g, v, j, l) < g.blocks
        ensures v'.data[Ptr(g, v, j, l)] == v.data[Ptr(g, v, j, l)]
      {
        IndirectWrite(g, v, v', live, owner, i, j, l);
      }
    }
  }

  lemma LinkKeepsBytes(g: Geo, v: Disk, v': Disk, live: set<nat>, owner: Owner, i: nat)
    requires Inv(g, v, live, owner) && i in live && Shape(g, v')
    requires v'.data == v.data || (Ptr(g, v, i, 12) != 0 &&
               forall x :: 0 <= x < g.blocks && x != Ptr(g, v, i, 12) ==> v'.data[x] == v.data[x])
    ensures forall l :: 0 <= l < SLOTS && l != 12 && 0 < Ptr(g, v, i, l) < g.blocks ==>
               v'.data[Ptr(g, v, i, l)] == v.data[Ptr(g, v, i, l)]
  {
    forall l | 0 <= l < SLOTS && l != 12 && 0 < Ptr(g, v, i, l) < g.blocks
      ensures v'.data[Ptr(g, v, i, l)] == v.data[Ptr(g, v, i, l)]
    {
      assert SlotOk(g, v, owner, i, l) && SlotOk(g, v, owner, i, 12);
    }
  }

  lemma FreshNotTable(g: Geo, d: Disk, live: set<nat>, owner: Owner, i: nat, w: Wip, b: nat)
    requires InodeOk(g, d, i) && WipOk(g, w) && i in live && Inv(g, Virtual(g, d, i, w), live, owner)
    requires Fresh(g, d, live, i, w, b)
    ensures b != w.n.block[12] && Virtual(g, d, i, w).data[b] == Zero()
  {
    VirtualPtr(g, d, i, w, 12);
    assert Ptr(g, Virtual(g, d, i, w), i, 12) != b;
  }

  lemma GoingDirect(g: Geo, d0: Disk, d: Disk, live: set<nat>, owner: Owner, i: nat, w: Wip, off: nat, s: seq<Byte>,
                    k: nat, b: nat)
    requires Going(g, d0, d, live, owner, i, w, off, s) && k < 12 && w.n.block[k] == 0
    requires Fresh(g, d, live, i, w, b)
    ensures Going(g, d0, d, live, owner[b := (i, k)], i, LinkDirect(w, k, b), off, s)
  {
    var w' := LinkDirect(w, k, b);
    FreshNotTable(g, d, live, owner, i, w, b);
    var v, v' := Virtual(g, d, i, w), Virtual(g, d, i, w');
    assert v'.data == v.data;
    forall l | 0 <= l < SLOTS
      ensures HasInode(g, v, i) && HasInode(g, v', i)
      ensures Ptr(g, v', i, l) == if l == k then b else Ptr(g, v, i, l)
    {
      VirtualPtr(g, d, i, w, l);
      VirtualPtr(g, d, i, w', l);
    }
    assert Ptr(g, v, i, k) == 0;
    GoingLink(g, d0, d, live, owner, i, w, w', off, s, k, b);
  }

  lemma GoingIndirect(g: Geo, d0: Disk, d: Disk, live: set<nat>, owner: Owner, i: nat, w: Wip, off: nat, s: seq<Byte>,
                      b: nat)
    requires Going(g, d0, d, live, owner, i, w, off, s) && w.n.block[12] == 0
    requires Fresh(g, d, live, i, w, b)
    ensures Going(g, d0, d, live, owner[b := (i, 12)], i, LinkIndirect(w, b), off, s)
  {
    var w' := LinkIndirect(w, b);
    FreshNotTable(g, d, live, owner, i, w, b);
    TableOfZeros();
    assert w'.ents == seq(256, c => 0);
    var v, v' := Virtual(g, d, i, w), Virtual(g, d, i, w');
    assert v'.data == v.data;
    forall l | 0 <= l < SLOTS
      ensures HasInode(g, v, i) && HasInode(g, v', i)
      ensures Ptr(g, v', i, l) == if l == 12 then b else Ptr(g, v, i, l)
    {
      VirtualPtr(g, d, i, w, l);
      VirtualPtr(g, d, i, w', l);
    }
    assert Ptr(g, v, i, 12) == 0;
    GoingLink(g, d0, d, live, owner, i, w, w', off, s, 12, b);
  }

  lemma GoingLoaded(g: Geo, d0: Disk, d: Disk, live: set<nat>, owner: Owner, i: nat, w: Wip, off: nat, s: seq<Byte>)
    requires Going(g, d0, d, live, owner, i, w, off, s) && w.n.block[12] != 0 && !w.loaded
    ensures Going(g, d0, d, live, owner, i, w.(ents := Children(d.data[w.n.block[12]]), loaded := true), off, s)
  {
    TableOfChildren(d.data[w.n.block[12]]);
    var w' := w.(ents := Children(d.data[w.n.block[12]]), loaded := true);
    assert Virtual(g, d, i, w').data == Virtual(g, d, i, w).data;
    assert Virtual(g, d, i, w') == Virtual(g, d, i, w);
  }

  lemma GoingChild(g: Geo, d0: Disk, d: Disk, live: set<nat>, owner: Owner, i: nat, w: Wip, off: nat, s: seq<Byte>,
                   c: nat, b: nat)
    requires Going(g, d0, d, live, owner, i, w, off, s) && w.loaded && c < 256 && w.ents[c] == 0
    requires Fresh(g, d, live, i, w, b)
    ensures Going(g, d0, d, live, owner[b := (i, c + 13)], i, LinkChild(w, c, b), off, s)
  {
    var w' := LinkChild(w, c, b);
    FreshNotTable(g, d, live, owner, i, w, b);
    ChildGains(g, d, i, w, c, b);
    ChildLags(g, d, i, w, c, b);
    GoingLink(g, d0, d, live, owner, i, w, w', off, s, c + 13, b);
  }

  lemma ChildGains(g: Geo, d: Disk, i: nat, w: Wip, c: nat, b: nat)
    requires InodeOk(g, d, i) && WipOk(g, w) && Lags(g, d, i, w)
    requires w.loaded && c < 256 && w.ents[c] == 0 && b < TWO32
    ensures WipOk(g, LinkChild(w, c, b))
    ensures InodeOk(g, Virtual(g, d, i, w), i)
    ensures Gains(g, Virtual(g, d, i, w), Virtual(g, d, i, LinkChild(w, c, b)), i, c + 13, b)
  {
    var w' := LinkChild(w, c, b);
    var v, v' := Virtual(g, d, i, w), Virtual(g, d, i, w');
    forall l | 0 <= l < SLOTS
      ensures HasInode(g, v, i) && HasInode(g, v', i)
      ensures Ptr(g, v', i, l) == if l == c + 13 then b else Ptr(g, v, i, l)
    {
      VirtualPtr(g, d, i, w, l);
      VirtualPtr(g, d, i, w', l);
    }
    VirtualPtr(g, d, i, w, c + 13);
    VirtualPtr(g, d, i, w, 12);
  }

  lemma ChildLags(g: Geo, d: Disk, i: nat, w: Wip, c: nat, b: nat)
    requires InodeOk(g, d, i) && WipOk(g, w) && Lags(g, d, i, w)
    requires w.loaded && c < 256 && w.ents[c] == 0 && WipOk(g, LinkChild(w, c, b))
    ensures Lags(g, d, i, LinkChild(w, c, b))
  {
    var n := d.itab[i - 1];
    if n.block[12] != 0 {
      forall x | 0 <= x < 256
        ensures Child(d.data[n.block[12]], x) == 0 || Child(d.data[n.block[12]], x) == w.ents[c := b][x]
      {
        assert Child(d.data[n.block[12]], x) == 0 || Child(d.data[n.block[12]], x) == w.ents[x];
      }
    }
  }

  /** The block of a data slot is a data block other than the pointer table. */
  lemma DataSlot(g: Geo, d: Disk, live: set<nat>, owner: Owner, i: nat, w: Wip, k: nat)
    requires InodeOk(g, d, i) && WipOk(g, w) && i in live && Inv(g, Virtual(g, d, i, w), live, owner)
    requires k < SLOTS && k != 12
    ensures HasInode(g, Virtual(g, d, i, w), i)
    ensures var p := Ptr(g, Virtual(g, d, i, w), i, k);
            p != 0 ==> p < g.blocks && p != w.n.block[12] && Virtual(g, d, i, w).data[p] == d.data[p]
  {
    var v := Virtual(g, d, i, w);
    assert SlotOk(g, v, owner, i, k) && SlotOk(g, v, owner, i, 12);
    VirtualPtr(g, d, i, w, 12);
  }

  /** One chunk of data lands in the block of its position. */
  lemma GoingWrite(g: Geo, d0: Disk, d: Disk, live: set<nat>, owner: Owner, i: nat, w: Wip, off: nat, s: seq<Byte>,
                   c: seq<Byte>, p: nat)
    requires Going(g, d0, d, live, owner, i, w, off, s)
    requires off + |s| < MAX_BYTES && (off + |s|) % 1024 + |c| <= 1024
    requires HasInode(g, Virtual(g, d, i, w), i)
    requires p == Ptr(g, Virtual(g, d, i, w), i, SlotOf((off + |s|) / 1024)) && p != 0
    ensures p < g.blocks
    ensures var d' := d.(data := d.data[p := Splice(d.data[p], (off + |s|) % 1024, c)]);
            Going(g, d0, d', live, owner, i, w, off, s + c)
  {
    var k := SlotOf((off + |s|) / 1024);
    DataSlot(g, d, live, owner, i, w, k);
    var v := Virtual(g, d, i, w);
    var d' := d.(data := d.data[p := Splice(d.data[p], (off + |s|) % 1024, c)]);
    var v' := Virtual(g, d', i, w);
    assert v'.data == v.data[p := Splice(v.data[p], (off + |s|) % 1024, c)];
    assert v' == v.(data := v'.data);
    WriteLags(g, d, d', live, owner, i, w, p, k);
    OverlaidWrite(g, d0, v, v', live, owner, i, off, s, c);
    InvFileWrite(g, v, v', live, owner, i, k);
    WriteSectors(g, v, v', live, owner, i, k);
  }

  lemma WriteSectors(g: Geo, v: Disk, v': Disk, live: set<nat>, owner: Owner, i: nat, k: nat)
    requires Inv(g, v, live, owner) && i in live && k < SLOTS && k != 12 && Ptr(g, v, i, k) != 0
    requires Shape(g, v') && v' == v.(data := v'.data)
    requires forall b :: 0 <= b < g.blocks && b != Ptr(g, v, i, k) ==> v'.data[b] == v.data[b]
    ensures InodeOk(g, v', i) && (SectorsOk(g, v, i) ==> SectorsOk(g, v', i))
  {
    assert InodeOk(g, v', i);
    forall l | 0 <= l < SLOTS
      ensures Ptr(g, v', i, l) == Ptr(g, v, i, l)
    {
      DataWrite(g, v, v', live, owner, i, k, i, l);
    }
    CountSame(g, v, v', i, SLOTS);
  }

  lemma WriteLags(g: Geo, d: Disk, d': Disk, live: set<nat>, owner: Owner, i: nat, w: Wip, p: nat, k: nat)
    requires InodeOk(g, d, i) && WipOk(g, w) && Lags(g, d, i, w) && i in live
    requires Inv(g, Virtual(g, d, i, w), live, owner) && k < SLOTS && k != 12
    requires p == Ptr(g, Virtual(g, d, i, w), i, k) && p != 0
    requires Shape(g, d') && d' == d.(data := d'.data)
    requires forall x :: 0 <= x < g.blocks && x != p ==> d'.data[x] == d.data[x]
    ensures InodeOk(g, d', i) && Lags(g, d', i, w)
  {
    VirtualPtr(g, d, i, w, 12);
    assert SlotOk(g, Virtual(g, d, i, w), owner, i, k) && SlotOk(g, Virtual(g, d, i, w), owner, i, 12);
    assert d.itab[i - 1].block[12] == 0 || d.itab[i - 1].block[12] == w.n.block[12];
  }

  /** What the driver does with a fresh block: store its number in the inode or table in memory. */
  function Link(w: Wip, k: nat, b: nat): Wip
    requires k < SLOTS && (k > 12 ==> |w.ents| == 256)
  {
    if k < 12 then LinkDirect(w, k, b) else if k == 12 then LinkIndirect(w, b) else LinkChild(w, k - 13, b)
  }

  lemma GoingOn(g: Geo, d0: Disk, d: Disk, live: set<nat>, owner: Owner, i: nat, w: Wip, off: nat, s: seq<Byte>, k: nat,
                b: nat)
    requires Going(g, d0, d, live, owner, i, w, off, s) && k < SLOTS
    requires k <= 12 ==> w.n.block[k] == 0
    requires k > 12 ==> w.loaded && w.ents[k - 13] == 0
    requires Fresh(g, d, live, i, w, b)
    ensures Going(g, d0, d, live, owner[b := (i, k)], i, Link(w, k, b), off, s)
    ensures Inv(g, d, live, owner[b := (i, k)])
  {
    if k < 12 {
      GoingDirect(g, d0, d, live, owner, i, w, off, s, k, b);
    } else if k == 12 {
      GoingIndirect(g, d0, d, live, owner, i, w, off, s, b);
    } else {
      GoingChild(g, d0, d, live, owner, i, w, off, s, k - 13, b);
    }
    OnDevice(g, d, live, owner[b := (i, k)], i, Link(w, k, b));
  }
}
