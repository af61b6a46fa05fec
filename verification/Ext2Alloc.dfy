/** The mounted volume, its device with an arbitrary fault schedule, and the
    block and inode allocators (kernel/ext2.c:202-450). */
module Ext2Alloc {
  import opened Machine
  import opened Ext2Blocks
  import opened Ext2Dirents
  import opened Ext2Disk

  /** Clear bits of a bitmap. */
  ghost function Clear(bits: seq<bool>): nat
  {
    if bits == [] then 0 else Clear(bits[..|bits| - 1]) + if bits[|bits| - 1] then 0 else 1
  }

  lemma {:induction false} ClearUpdate(bits: seq<bool>, i: nat, v: bool)
    requires i < |bits|
    ensures Clear(bits[i := v]) == Clear(bits) + (if v then 0 else 1) - (if bits[i] then 0 else 1)
  {
    var last := |bits| - 1;
    if i == last {
      assert bits[i := v][..last] == bits[..last];
    } else {
      assert bits[i := v][..last] == bits[..last][i := v];
      ClearUpdate(bits[..last], i, v);
    }
  }

  /** How many of the first n device accesses fail. */
  ghost function Fails(fails: nat -> bool, n: nat): nat
  {
    if n == 0 then 0 else Fails(fails, n - 1) + if fails(n - 1) then 1 else 0
  }

  /** None of the n accesses from number `from` on fails. */
  ghost predicate Clean(fails: nat -> bool, from: nat, n: nat)
  {
    forall k: nat :: from <= k < from + n ==> !fails(k)
  }

  /** The next i reads and the next j writes go well. */
  ghost predicate Passes(readFails: nat -> bool, r: nat, i: nat, writeFails: nat -> bool, w: nat, j: nat)
  {
    Clean(readFails, r, i) && Clean(writeFails, w, j)
  }

  /** Going well is going well first, and then from where that led to. */
  lemma PassesThen(readFails: nat -> bool, r: nat, i: nat, writeFails: nat -> bool, w: nat, j: nat,
                   i0: nat, j0: nat, r1: nat, i1: nat, w1: nat, j1: nat)
    requires i == i0 + i1 && j == j0 + j1
    ensures Passes(readFails, r, i, writeFails, w, j) ==> Passes(readFails, r, i0, writeFails, w, j0)
    ensures r1 == r + i0 && w1 == w + j0 ==>
              (Passes(readFails, r, i, writeFails, w, j)
               <==> Passes(readFails, r, i0, writeFails, w, j0) && Passes(readFails, r1, i1, writeFails, w1, j1))
  {}

  lemma PassesPair(readFails: nat -> bool, r: nat, writeFails: nat -> bool, w: nat)
    ensures Passes(readFails, r, 1, writeFails, w, 1) <==> !readFails(r) && !writeFails(w)
  {}

  lemma PassesReads(readFails: nat -> bool, r: nat, i: nat, writeFails: nat -> bool, w: nat)
    ensures Passes(readFails, r, i, writeFails, w, 0) <==> Clean(readFails, r, i)
  {}

  /** Reads of a bitmap: one, and none if a free count is 0 already. */
  ghost function BitmapReads(a: nat, b: nat): nat
  {
    if a > 0 && b > 0 then 1 else 0
  }

  /** The mount context. Every entry point holds the mount lock, so operations
      run one at a time. `readFails` and `writeFails` say which device accesses
      fail; a failed write leaves the block as it was. */
  class Mount {
    const g: Geo
    const readFails: nat -> bool
    const writeFails: nat -> bool
    var nreads: nat
    var nwrites: nat
    var disk: Disk          // what is on the device
    var sb: Super           // in-memory copies of the counts
    var gd: Group
    ghost var live: set<nat>
    ghost var owner: Owner
    ghost var faults: nat    // device accesses that failed so far
    ghost var refusals: nat  // requests refused so far, for lack of space or for too long a name
    ghost var history: seq<Disk>  // the device contents after each write that landed

    /** The counters and the history are those of the fault schedule: `history`
        holds one volume per write that landed, the last one being on the device. */
    ghost predicate Logged()
      reads `nreads, `nwrites, `faults, `history, `disk
    {
      && faults == Fails(readFails, nreads) + Fails(writeFails, nwrites)
      && |history| == 1 + nwrites - Fails(writeFails, nwrites) > 0
      && history[|history| - 1] == disk
    }

    ghost predicate Valid()
      reads this
    {
      && Inv(g, disk, live, owner)
      && Logged()
      && gd.usedDirs <= g.inodes && disk.gd.usedDirs <= g.inodes
      && forall h :: h in history ==> Safe(g, h)
    }

    /** The in-memory counts are what the device holds. */
    ghost predicate Synced()
      reads `sb, `gd, `disk
    {
      sb == disk.sb && gd == disk.gd
    }

    /** Clear bits less free count, for blocks and for inodes. */
    ghost function Books(): (int, int)
      reads `sb, `disk
    {
      (Clear(disk.bbm) - sb.freeBlocks, Clear(disk.ibm) - sb.freeInodes)
    }

    /** Superblock and group counts agree, in memory and on the device. */
    ghost predicate Agreed()
      reads `sb, `gd, `disk
    {
      Synced() && sb.freeBlocks == gd.freeBlocks && sb.freeInodes == gd.freeInodes
    }

    /** Things that went wrong so far: device faults and refused requests. */
    ghost function Bad(): nat
      reads `faults, `refusals
    {
      faults + refusals
    }

    constructor (g: Geo, d: Disk, readFails: nat -> bool, writeFails: nat -> bool,
                 ghost live: set<nat>, ghost owner: Owner)
      requires Inv(g, d, live, owner) && d.gd.usedDirs <= g.inodes
      ensures Valid() && Synced()
      ensures this.g == g && disk == d && this.live == live && this.owner == owner
      ensures this.readFails == readFails && this.writeFails == writeFails
      ensures nreads == nwrites == faults == refusals == 0 && history == [d]
    {
      this.g, this.readFails, this.writeFails := g, readFails, writeFails;
      nreads, nwrites := 0, 0;
      disk, sb, gd := d, d.sb, d.gd;
      this.live, this.owner := live, owner;
      faults, refusals := 0, 0;
      history := [d];
    }

    method DevRead() returns (ok: bool)
      requires Logged()
      modifies `nreads, `faults
      ensures Logged() && ok == !readFails(old(nreads)) && nreads == old(nreads) + 1
      ensures faults == old(faults) + if ok then 0 else 1
    {
      ok := !readFails(nreads);
      nreads := nreads + 1;
      if !ok { faults := faults + 1; }
    }

    /** Reading a piece of the volume gives what is on the device, or nothing to rely on. */
    method ReadBlockBits() returns (ok: bool, bm: seq<bool>)
      requires Logged()
      modifies `nreads, `faults
      ensures Logged() && (ok <==> !readFails(old(nreads))) && nreads == old(nreads) + 1
      ensures ok ==> bm == disk.bbm
      ensures faults == old(faults) + if ok then 0 else 1
    {
      bm := [];
      ok := DevRead();
      if ok { bm := disk.bbm; }
    }

    method ReadInodeBits() returns (ok: bool, bm: seq<bool>)
      requires Logged()
      modifies `nreads, `faults
      ensures Logged() && (ok <==> !readFails(old(nreads))) && nreads == old(nreads) + 1
      ensures ok ==> bm == disk.ibm
      ensures faults == old(faults) + if ok then 0 else 1
    {
      bm := [];
      ok := DevRead();
      if ok { bm := disk.ibm; }
    }

    method ReadBlock(p: nat) returns (ok: bool, blk: Block)
      requires Logged() && p < |disk.data|
      modifies `nreads, `faults
      ensures Logged() && (ok <==> !readFails(old(nreads))) && nreads == old(nreads) + 1
      ensures ok ==> blk == disk.data[p]
      ensures faults == old(faults) + if ok then 0 else 1
    {
      blk := Zero();
      ok := DevRead();
      if ok { blk := disk.data[p]; }
    }

    /** One device write. Whoever calls it must show that the volume would be safe afterwards. */
    method DevWrite(d: Disk)
      returns (ok: bool)
      requires Valid() && Inv(g, d, live, owner) && d.gd.usedDirs <= g.inodes
      modifies `nwrites, `faults, `disk, `history
      ensures Valid()
      ensures ok == !writeFails(old(nwrites)) && nwrites == old(nwrites) + 1
      ensures disk == if ok then d else old(disk)
      ensures faults == old(faults) + if ok then 0 else 1
      ensures history == if ok then old(history) + [d] else old(history)
    {
      ok := !writeFails(nwrites);
      nwrites := nwrites + 1;
      if ok {
        disk := d;
        history := history + [d];
        assert Safe(g, d);
      } else {
        faults := faults + 1;
      }
    }
  }

  method WriteSuper(m: Mount) returns (ok: bool)
    requires m.Valid()
    modifies m`nreads, m`nwrites, m`faults, m`disk, m`history
    ensures old(m.history) <= m.history
    ensures m.Valid()
    ensures m.disk == if ok then old(m.disk).(sb := m.sb) else old(m.disk)
    ensures m.faults == old(m.faults) + if ok then 0 else 1
    ensures ok <==> !m.readFails(old(m.nreads)) && !m.writeFails(old(m.nwrites))
    ensures ok ==> m.nreads == old(m.nreads) + 1 && m.nwrites == old(m.nwrites) + 1
  {
    hide Inv, Safe, Mount.Logged;
    ok := m.DevRead();
    if ok {
      InvCounts(m.g, m.disk, m.live, m.owner, m.sb, m.disk.gd);
      ok := m.DevWrite(m.disk.(sb := m.sb));
    }
  }

  method WriteGroup(m: Mount) returns (ok: bool)
    requires m.Valid()
    modifies m`nreads, m`nwrites, m`faults, m`disk, m`history
    ensures old(m.history) <= m.history
    ensures m.Valid()
    ensures m.disk == if ok then old(m.disk).(gd := m.gd) else old(m.disk)
    ensures m.faults == old(m.faults) + if ok then 0 else 1
    ensures ok <==> !m.readFails(old(m.nreads)) && !m.writeFails(old(m.nwrites))
    ensures ok ==> m.nreads == old(m.nreads) + 1 && m.nwrites == old(m.nwrites) + 1
  {
    hide Inv, Safe, Mount.Logged;
    ok := m.DevRead();
    if ok {
      InvCounts(m.g, m.disk, m.live, m.owner, m.disk.sb, m.gd);
      ok := m.DevWrite(m.disk.(gd := m.gd));
    }
  }

  /** `ext2_write_superblock(m) < 0 || ext2_write_group_desc(m) < 0`, negated. */
  method WriteCounts(m: Mount) returns (ok: bool)
    requires m.Valid()
    modifies m`nreads, m`nwrites, m`faults, m`disk, m`history
    ensures old(m.history) <= m.history
    ensures m.Valid()
    ensures ok ==> m.disk == old(m.disk).(sb := m.sb, gd := m.gd) && m.faults == old(m.faults)
    ensures !ok ==> m.faults == old(m.faults) + 1
    ensures !ok ==> m.disk == old(m.disk) || m.disk == old(m.disk).(sb := m.sb)
    ensures ok <==> Passes(m.readFails, old(m.nreads), 2, m.writeFails, old(m.nwrites), 2)
    ensures ok ==> m.nreads == old(m.nreads) + 2 && m.nwrites == old(m.nwrites) + 2
  {
    hide Inv, Safe, Mount.Logged;
    ghost var r, w := m.nreads, m.nwrites;
    ok := WriteSuper(m);
    PassesThen(m.readFails, r, 2, m.writeFails, w, 2, 1, 1, m.nreads, 1, m.nwrites, 1);
    if ok {
      ok := WriteGroup(m);
    }
  }

  /** Put both counts back, each half on its own. */
  method RestoreCounts(m: Mount)
    requires m.Valid()
    modifies m`nreads, m`nwrites, m`faults, m`disk, m`history
    ensures old(m.history) <= m.history
    ensures m.Valid() && m.faults >= old(m.faults)
    ensures m.disk == old(m.disk).(sb := m.disk.sb, gd := m.disk.gd)
    ensures m.faults == old(m.faults) ==> m.disk == old(m.disk).(sb := m.sb, gd := m.gd)
  {
    var ok := WriteSuper(m);
    ok := WriteGroup(m);
  }

  /** Move both counts in memory and on the device; if the device refuses, put everything back. */
  method MoveCounts(m: Mount, sb: Super, gd: Group) returns (ok: bool)
    requires m.Valid() && gd.usedDirs <= m.g.inodes
    modifies m`nreads, m`nwrites, m`faults, m`disk, m`history, m`sb, m`gd
    ensures old(m.history) <= m.history
    ensures m.Valid() && m.disk == old(m.disk).(sb := m.disk.sb, gd := m.disk.gd)
    ensures forall b :: Unpointed(m.g, old(m.disk), m.live, b) ==> Unpointed(m.g, m.disk, m.live, b)
    ensures ok ==> m.sb == sb && m.gd == gd && m.Synced() && m.faults == old(m.faults)
    ensures !ok ==> m.sb == old(m.sb) && m.gd == old(m.gd) && m.faults > old(m.faults)
    ensures !ok && m.faults == old(m.faults) + 1 ==> m.Synced()
    ensures ok <==> Passes(m.readFails, old(m.nreads), 2, m.writeFails, old(m.nwrites), 2)
    ensures ok ==> m.nreads == old(m.nreads) + 2 && m.nwrites == old(m.nwrites) + 2
  {
    var sb0, gd0 := m.sb, m.gd;
    m.sb, m.gd := sb, gd;
    ok := WriteCounts(m);
    if !ok {
      m.sb, m.gd := sb0, gd0;
      RestoreCounts(m);
    }
    InvCounts(m.g, old(m.disk), m.live, m.owner, m.disk.sb, m.disk.gd);
  }

  // ------------------------------------------------------------------- blocks

  /** Block `blk` went from free to allocated and zeroed, and nothing else changed. */
  ghost predicate Allocated(g: Geo, d: Disk, d': Disk, blk: nat)
  {
    && Shape(g, d) && InRange(g, blk) && 1 <= blk <= 8192 && !d.bbm[blk - 1]
    && d' == d.(bbm := d.bbm[blk - 1 := true], data := d.data[blk := Zero()], sb := d'.sb, gd := d'.gd)
  }

  /** The volumes agree on bitmaps and counts, on every inode in use and on every block in use. */
  ghost predicate EqualInUse(g: Geo, d: Disk, d': Disk)
  {
    && Shape(g, d) && Shape(g, d') && g.inodes <= 8192 && g.blocks <= 8193
    && d'.sb == d.sb && d'.gd == d.gd && d'.bbm == d.bbm && d'.ibm == d.ibm
    && (forall i :: 0 <= i < g.inodes && d.ibm[i] ==> d'.itab[i] == d.itab[i])
    && (forall b :: 1 <= b < g.blocks && d.bbm[b - 1] ==> d'.data[b] == d.data[b])
  }

  /** Nothing in use changed, and the counts in memory are what they were and what the device holds. */
  ghost predicate Restored(g: Geo, d: Disk, sb: Super, gd: Group, d': Disk, sb': Super, gd': Group)
  {
    EqualInUse(g, d, d') && sb' == sb == d'.sb && gd' == gd == d'.gd
  }

  /** What a failed allocation may leave behind whatever goes wrong: marks, counts and bytes of free blocks. */
  ghost predicate Leaked(g: Geo, d: Disk, d': Disk)
  {
    && Shape(g, d) && Shape(g, d') && g.blocks <= 8193
    && d'.itab == d.itab && d'.ibm == d.ibm
    && (forall x :: 0 <= x < 8192 && d.bbm[x] ==> d'.bbm[x])
    && (forall b :: 1 <= b < g.blocks && d.bbm[b - 1] ==> d'.data[b] == d.data[b])
  }

  /** Leaks stay clear of everything live. */
  lemma LeakedOutside(g: Geo, d: Disk, d': Disk, live: set<nat>, owner: Owner)
    requires Inv(g, d, live, owner) && Leaked(g, d, d')
    ensures Outside(g, d, d', live)
  {
    assert LiveOk(g, d, live);
    forall b | 0 < b < g.blocks && !Unpointed(g, d, live, b)
      ensures d'.data[b] == d.data[b] && (d.bbm[b - 1] ==> d'.bbm[b - 1])
    {
      if !d.bbm[b - 1] { ClearIsUnpointed(g, d, live, owner, b); }
    }
  }

  /** First clear bit at or after `from`, below `upto`. */
  method FirstClear(bits: seq<bool>, from: nat, upto: nat) returns (i: nat)
    requires from <= upto <= |bits|
    ensures from <= i <= upto
    ensures forall x :: from <= x < i ==> bits[x]
    ensures i < upto ==> !bits[i]
  {
    i := from;
    while i < upto && bits[i]
      invariant from <= i <= upto
      invariant forall x :: from <= x < i ==> bits[x]
    {
      i := i + 1;
    }
  }

  /** No data block is free, or a count says so. */
  ghost predicate NoBlock(g: Geo, d: Disk, sb: Super, gd: Group)
  {
    sb.freeBlocks == 0 || gd.freeBlocks == 0 || forall b :: g.firstData <= b < g.blocks ==> Marked(g, d, b)
  }

  /** Only the marks and the counts of free blocks matter. */
  lemma NoBlockSame(g: Geo, d: Disk, sb: Super, gd: Group, d': Disk, sb': Super, gd': Group)
    requires d'.bbm == d.bbm && sb'.freeBlocks == sb.freeBlocks && gd'.freeBlocks == gd.freeBlocks
    ensures NoBlock(g, d', sb', gd') == NoBlock(g, d, sb, gd)
  {
    assert forall b :: Marked(g, d', b) == Marked(g, d, b);
  }

  method AllocBlock(m: Mount) returns (blk: nat)
    requires m.Valid()
    modifies m`nreads, m`nwrites, m`faults, m`disk, m`history, m`sb, m`gd, m`refusals
    ensures old(m.history) <= m.history
    ensures m.Valid() && m.faults >= old(m.faults) && m.refusals >= old(m.refusals)
    ensures blk != 0 ==>
              && Allocated(m.g, old(m.disk), m.disk, blk)
              && (forall b :: m.g.firstData <= b < blk ==> Marked(m.g, old(m.disk), b))
              && old(m.sb).freeBlocks > 0 && m.sb == old(m.sb).(freeBlocks := old(m.sb).freeBlocks - 1)
              && old(m.gd).freeBlocks > 0 && m.gd == old(m.gd).(freeBlocks := old(m.gd).freeBlocks - 1)
              && m.Synced()
              && m.faults == old(m.faults) && m.refusals == old(m.refusals)
              && Unpointed(m.g, m.disk, m.live, blk)
    ensures Leaked(m.g, old(m.disk), m.disk)
    ensures blk == 0 ==> m.sb == old(m.sb) && m.gd == old(m.gd)
    ensures blk == 0 && m.faults == old(m.faults) ==> m.disk == old(m.disk) && m.refusals == old(m.refusals) + 1
    ensures blk == 0 && m.faults > old(m.faults) ==> m.refusals == old(m.refusals)
    ensures blk == 0 && m.faults == old(m.faults) + 1 && old(m.Synced()) ==>
              EqualInUse(m.g, old(m.disk), m.disk) && m.Synced()
    // Without a fault it fails exactly when there is no block to be had.
    ensures m.faults == old(m.faults) ==> (blk == 0 <==> NoBlock(m.g, old(m.disk), old(m.sb), old(m.gd)))
    ensures NoBlock(m.g, old(m.disk), old(m.sb), old(m.gd)) ==>
              m.nwrites == old(m.nwrites) && (!m.readFails(old(m.nreads)) ==> m.faults == old(m.faults))
    // Which of the three comes about is up to the volume and the accesses made.
    ensures m.refusals > old(m.refusals) <==>
              NoBlock(m.g, old(m.disk), old(m.sb), old(m.gd))
              && Clean(m.readFails, old(m.nreads), BitmapReads(old(m.sb).freeBlocks, old(m.gd).freeBlocks))
    ensures blk != 0 <==>
              !NoBlock(m.g, old(m.disk), old(m.sb), old(m.gd))
              && Passes(m.readFails, old(m.nreads), 3, m.writeFails, old(m.nwrites), 4)
    ensures m.refusals > old(m.refusals) ==>
              m.nreads == old(m.nreads) + BitmapReads(old(m.sb).freeBlocks, old(m.gd).freeBlocks)
    ensures blk != 0 ==> m.nreads == old(m.nreads) + 3 && m.nwrites == old(m.nwrites) + 4
    ensures m.faults == old(m.faults) ==> m.Books() == old(m.Books()) && (old(m.Agreed()) ==> m.Agreed())
  {
    hide SlotOk, DirOk, Clear, Safe, Mount.Logged;
    blk := 0;
    if m.sb.freeBlocks == 0 || m.gd.freeBlocks == 0 {
      m.refusals := m.refusals + 1;
      return;
    }
    var ok, bm := m.ReadBlockBits();
    if !ok { return; }
    var i := FirstClear(bm, m.g.firstData - 1, m.g.blocks - 1);
    if i == m.g.blocks - 1 {
      m.refusals := m.refusals + 1;
      forall b | m.g.firstData <= b < m.g.blocks ensures Marked(m.g, m.disk, b) { assert bm[b - 1]; }
      return;
    }
    assert !Marked(m.g, m.disk, i + 1);
    var done := ClaimBlock(m, bm, i + 1);
    if done {
      blk := i + 1;
      forall b | m.g.firstData <= b < blk ensures Marked(m.g, old(m.disk), b) { assert bm[b - 1]; }
    }
  }

  /** Write the block bitmap with at most block b's bit changed, b being named by nothing. */
  method WriteBlockBitmap(m: Mount, bm: seq<bool>, ghost b: nat) returns (ok: bool)
    requires m.Valid() && 1 <= b < m.g.blocks && Unpointed(m.g, m.disk, m.live, b)
    requires |bm| == 8192 && bm == m.disk.bbm[b - 1 := bm[b - 1]]
    modifies m`nwrites, m`faults, m`disk, m`history
    ensures old(m.history) <= m.history
    ensures m.Valid() && Unpointed(m.g, m.disk, m.live, b)
    ensures m.disk == if ok then old(m.disk).(bbm := bm) else old(m.disk)
    ensures m.faults == old(m.faults) + if ok then 0 else 1
    ensures ok == !m.writeFails(old(m.nwrites)) && m.nwrites == old(m.nwrites) + 1
  {
    InvScratch(m.g, m.disk, m.disk.(bbm := bm), m.live, m.owner, b);
    ok := m.DevWrite(m.disk.(bbm := bm));
  }

  /** Write a block that nothing names. */
  method WriteFresh(m: Mount, b: nat, bytes: Block) returns (ok: bool)
    requires m.Valid() && 1 <= b < m.g.blocks && Unpointed(m.g, m.disk, m.live, b)
    modifies m`nwrites, m`faults, m`disk, m`history
    ensures old(m.history) <= m.history
    ensures m.Valid() && Unpointed(m.g, m.disk, m.live, b)
    ensures m.disk == if ok then old(m.disk).(data := old(m.disk).data[b := bytes]) else old(m.disk)
    ensures m.faults == old(m.faults) + if ok then 0 else 1
    ensures ok == !m.writeFails(old(m.nwrites)) && m.nwrites == old(m.nwrites) + 1
    ensures m.Books() == old(m.Books()) && m.Agreed() == old(m.Agreed())
  {
    hide SlotOk, DirOk, Safe, Clear, Mount.Logged;
    InvScratch(m.g, m.disk, m.disk.(data := m.disk.data[b := bytes]), m.live, m.owner, b);
    ok := m.DevWrite(m.disk.(data := m.disk.data[b := bytes]));
  }

  lemma BlockBounds(g: Geo, d: Disk, live: set<nat>, owner: Owner, b: nat)
    requires Inv(g, d, live, owner) && InRange(g, b)
    ensures Shape(g, d) && LiveOk(g, d, live) && 1 <= b < g.blocks <= 8193 && g.inodes <= 8192
  {}

  /** Mark, zero and count the block found; on any failure undo in the reverse order. */
  method ClaimBlock(m: Mount, bm: seq<bool>, blk: nat) returns (done: bool)
    requires m.Valid() && InRange(m.g, blk) && bm == m.disk.bbm && !bm[blk - 1]
    requires m.sb.freeBlocks > 0 && m.gd.freeBlocks > 0
    modifies m`nreads, m`nwrites, m`faults, m`disk, m`history, m`sb, m`gd
    ensures old(m.history) <= m.history
    ensures m.Valid()
    ensures done ==>
              && Allocated(m.g, old(m.disk), m.disk, blk)
              && m.sb == old(m.sb).(freeBlocks := old(m.sb).freeBlocks - 1)
              && m.gd == old(m.gd).(freeBlocks := old(m.gd).freeBlocks - 1)
              && m.Synced() && m.faults == old(m.faults)
              && Unpointed(m.g, m.disk, m.live, blk)
    ensures !done ==> m.faults > old(m.faults) && m.sb == old(m.sb) && m.gd == old(m.gd)
    ensures !done ==> Leaked(m.g, old(m.disk), m.disk)
    ensures !done && m.faults == old(m.faults) + 1 && old(m.Synced()) ==>
              EqualInUse(m.g, old(m.disk), m.disk) && m.Synced()
    ensures done ==> m.Books() == old(m.Books())
    ensures done <==> Passes(m.readFails, old(m.nreads), 2, m.writeFails, old(m.nwrites), 4)
    ensures done ==> m.nreads == old(m.nreads) + 2 && m.nwrites == old(m.nwrites) + 4
  {
    hide Inv, SlotOk, DirOk, Clear, Safe, Unpointed, Mount.Logged;
    BlockBounds(m.g, m.disk, m.live, m.owner, blk);
    ClearUpdate(bm, blk - 1, true);
    ClearIsUnpointed(m.g, m.disk, m.live, m.owner, blk);
    done := WriteBlockBitmap(m, bm[blk - 1 := true], blk);
    if !done { return; }
    done := WriteFresh(m, blk, Zero());
    if !done {
      var _ := WriteBlockBitmap(m, bm, blk);
      return;
    }
    assert Allocated(m.g, old(m.disk), m.disk, blk);
    done := CountBlockOut(m, bm, blk);
  }

  /** Take one off both free counts; if that cannot be stored, restore them and clear the mark. */
  method CountBlockOut(m: Mount, bm: seq<bool>, blk: nat) returns (done: bool)
    requires m.Valid() && InRange(m.g, blk) && Unpointed(m.g, m.disk, m.live, blk)
    requires m.disk.bbm[blk - 1] && bm == m.disk.bbm[blk - 1 := false]
    requires m.sb.freeBlocks > 0 && m.gd.freeBlocks > 0
    modifies m`nreads, m`nwrites, m`faults, m`disk, m`history, m`sb, m`gd
    ensures old(m.history) <= m.history
    ensures m.Valid() && Unpointed(m.g, m.disk, m.live, blk)
    ensures done ==>
              && m.disk == old(m.disk).(sb := m.sb, gd := m.gd) && m.faults == old(m.faults)
              && m.sb == old(m.sb).(freeBlocks := old(m.sb).freeBlocks - 1)
              && m.gd == old(m.gd).(freeBlocks := old(m.gd).freeBlocks - 1)
    ensures !done ==> m.faults > old(m.faults) && m.sb == old(m.sb) && m.gd == old(m.gd)
    ensures !done ==> m.disk == old(m.disk).(sb := m.disk.sb, gd := m.disk.gd, bbm := m.disk.bbm)
    ensures !done ==> m.disk.bbm == bm || m.disk.bbm == old(m.disk).bbm
    ensures !done && m.faults == old(m.faults) + 1 ==> m.disk.bbm == bm && m.Synced()
    ensures done <==> Passes(m.readFails, old(m.nreads), 2, m.writeFails, old(m.nwrites), 2)
    ensures done ==> m.nreads == old(m.nreads) + 2 && m.nwrites == old(m.nwrites) + 2
  {
    done := MoveCounts(m, m.sb.(freeBlocks := m.sb.freeBlocks - 1), m.gd.(freeBlocks := m.gd.freeBlocks - 1));
    if !done {
      var _ := WriteBlockBitmap(m, bm, blk);
    }
  }

  /** Block `blk` went from allocated to free, and the counts with it. */
  method FreeBlock(m: Mount, blk: nat)
    requires m.Valid() && Unpointed(m.g, m.disk, m.live, blk)
    modifies m`nreads, m`nwrites, m`faults, m`disk, m`history, m`sb, m`gd
    ensures old(m.history) <= m.history
    ensures m.Valid() && m.faults >= old(m.faults) && Unpointed(m.g, m.disk, m.live, blk)
    ensures m.disk == old(m.disk).(bbm := m.disk.bbm, sb := m.disk.sb, gd := m.disk.gd)
    ensures !InRange(m.g, blk) ==> m.disk == old(m.disk) && m.sb == old(m.sb) && m.gd == old(m.gd)
    ensures InRange(m.g, blk) ==> m.disk.bbm == old(m.disk).bbm || m.disk.bbm == old(m.disk).bbm[blk - 1 := false]
    ensures m.faults == old(m.faults) && InRange(m.g, blk) ==> m.disk.bbm == old(m.disk).bbm[blk - 1 := false]
    ensures m.faults == old(m.faults) && InRange(m.g, blk) && old(m.disk).bbm[blk - 1] ==>
              && m.sb == old(m.sb).(freeBlocks := old(m.sb).freeBlocks + 1)
              && m.gd == old(m.gd).(freeBlocks := old(m.gd).freeBlocks + 1)
              && m.Synced()
    ensures m.faults == old(m.faults) && InRange(m.g, blk) && !old(m.disk).bbm[blk - 1] ==>
              m.disk == old(m.disk) && m.sb == old(m.sb) && m.gd == old(m.gd)
    ensures m.faults <= old(m.faults) + 1 && old(m.Synced()) ==> m.Synced()
    ensures m.faults == old(m.faults) ==> m.Books() == old(m.Books()) && (old(m.Agreed()) ==> m.Agreed())
    // Whatever fails, free space is never overstated by more than before.
    ensures m.Books().0 >= old(m.Books().0) && m.Books().1 == old(m.Books().1)
    // After a fault a marked block is not given back: its mark or the counts stay.
    ensures m.faults > old(m.faults) && InRange(m.g, blk) && old(m.disk).bbm[blk - 1] ==>
              m.sb == old(m.sb) && m.gd == old(m.gd)
  {
    hide SlotOk, DirOk, Clear, Safe, Mount.Logged;
    if blk == 0 || !PtrOk(m.g, blk) { return; }
    var ok, bm := m.ReadBlockBits();
    if !ok { return; }
    ClearUpdate(bm, blk - 1, false);
    if bm[blk - 1] {
      ok := WriteBlockBitmap(m, bm[blk - 1 := false], blk);
      if !ok { return; }
      var _ := MoveCounts(m, m.sb.(freeBlocks := m.sb.freeBlocks + 1), m.gd.(freeBlocks := m.gd.freeBlocks + 1));
    }
  }

  // ------------------------------------------------------------------- inodes

  method WriteInodeBitmap(m: Mount, bm: seq<bool>, ghost c: nat) returns (ok: bool)
    requires m.Valid() && 1 <= c <= m.g.inodes && c !in m.live
    requires |bm| == 8192 && bm == m.disk.ibm[c - 1 := bm[c - 1]]
    modifies m`nwrites, m`faults, m`disk, m`history
    ensures old(m.history) <= m.history
    ensures m.Valid()
    ensures m.disk == if ok then old(m.disk).(ibm := bm) else old(m.disk)
    ensures m.faults == old(m.faults) + if ok then 0 else 1
    ensures ok == !m.writeFails(old(m.nwrites)) && m.nwrites == old(m.nwrites) + 1
  {
    InvScratchInode(m.g, m.disk, m.disk.(ibm := bm), m.live, m.owner, c);
    ok := m.DevWrite(m.disk.(ibm := bm));
  }

  lemma ClearInodeNotLive(g: Geo, d: Disk, live: set<nat>, c: nat)
    requires LiveOk(g, d, live) && 1 <= c <= |d.ibm| && !d.ibm[c - 1]
    ensures c !in live
  {}

  /** No ordinary inode is free, or a count says so. */
  ghost predicate NoInode(g: Geo, d: Disk, sb: Super, gd: Group)
  {
    sb.freeInodes == 0 || gd.freeInodes == 0 || forall x :: FIRST_INO - 1 <= x < g.inodes && x < |d.ibm| ==> d.ibm[x]
  }

  method AllocInode(m: Mount) returns (ino: nat)
    requires m.Valid()
    modifies m`nreads, m`nwrites, m`faults, m`disk, m`history, m`sb, m`gd, m`refusals
    ensures old(m.history) <= m.history
    ensures m.Valid() && m.faults >= old(m.faults) && m.refusals >= old(m.refusals)
    ensures ino != 0 ==>
              && FIRST_INO <= ino <= m.g.inodes && ino !in m.live && !old(m.disk).ibm[ino - 1]
              && m.disk == old(m.disk).(ibm := old(m.disk).ibm[ino - 1 := true], sb := m.sb, gd := m.gd)
              && (forall x :: FIRST_INO - 1 <= x < ino - 1 ==> old(m.disk).ibm[x])
              && old(m.sb).freeInodes > 0 && m.sb == old(m.sb).(freeInodes := old(m.sb).freeInodes - 1)
              && old(m.gd).freeInodes > 0 && m.gd == old(m.gd).(freeInodes := old(m.gd).freeInodes - 1)
              && m.faults == old(m.faults) && m.refusals == old(m.refusals)
    ensures ino == 0 ==> m.sb == old(m.sb) && m.gd == old(m.gd)
    ensures ino == 0 ==> m.disk == old(m.disk).(ibm := m.disk.ibm, sb := m.disk.sb, gd := m.disk.gd)
    ensures ino == 0 ==> forall x :: 0 <= x < 8192 && old(m.disk).ibm[x] ==> m.disk.ibm[x]
    ensures ino == 0 && m.faults == old(m.faults) ==> m.disk == old(m.disk) && m.refusals == old(m.refusals) + 1
    ensures ino == 0 && m.faults > old(m.faults) ==> m.refusals == old(m.refusals)
    ensures ino == 0 && m.faults == old(m.faults) + 1 && old(m.Synced()) ==> m.disk == old(m.disk) && m.Synced()
    // Without a fault it fails exactly when there is no inode to be had.
    ensures m.faults == old(m.faults) ==> (ino == 0 <==> NoInode(m.g, old(m.disk), old(m.sb), old(m.gd)))
    // Which of the three comes about is up to the volume and the accesses made.
    ensures m.refusals > old(m.refusals) <==>
              NoInode(m.g, old(m.disk), old(m.sb), old(m.gd))
              && Clean(m.readFails, old(m.nreads), BitmapReads(old(m.sb).freeInodes, old(m.gd).freeInodes))
    ensures ino != 0 <==>
              !NoInode(m.g, old(m.disk), old(m.sb), old(m.gd))
              && Passes(m.readFails, old(m.nreads), 3, m.writeFails, old(m.nwrites), 3)
    ensures ino != 0 ==> m.nreads == old(m.nreads) + 3 && m.nwrites == old(m.nwrites) + 3
    ensures m.faults == old(m.faults) ==> m.Books() == old(m.Books()) && (old(m.Agreed()) ==> m.Agreed())
  {
    hide SlotOk, DirOk, Clear, Safe, Mount.Logged;
    ino := 0;
    if m.sb.freeInodes == 0 || m.gd.freeInodes == 0 {
      m.refusals := m.refusals + 1;
      return;
    }
    var ok, bm := m.ReadInodeBits();
    if !ok { return; }
    var i := FirstClear(bm, FIRST_INO - 1, m.g.inodes);
    if i == m.g.inodes {
      m.refusals := m.refusals + 1;
      return;
    }
    ClearInodeNotLive(m.g, m.disk, m.live, i + 1);
    ok := ClaimInode(m, bm, i + 1);
    if ok { ino := i + 1; }
  }

  /** Mark and count the inode found; on any failure undo in the reverse order. */
  method ClaimInode(m: Mount, bm: seq<bool>, c: nat) returns (done: bool)
    requires m.Valid() && 1 <= c <= m.g.inodes && c !in m.live && bm == m.disk.ibm && !bm[c - 1]
    requires m.sb.freeInodes > 0 && m.gd.freeInodes > 0
    modifies m`nreads, m`nwrites, m`faults, m`disk, m`history, m`sb, m`gd
    ensures old(m.history) <= m.history
    ensures m.Valid()
    ensures done ==>
              && m.disk == old(m.disk).(ibm := bm[c - 1 := true], sb := m.sb, gd := m.gd) && m.faults == old(m.faults)
              && m.sb == old(m.sb).(freeInodes := old(m.sb).freeInodes - 1)
              && m.gd == old(m.gd).(freeInodes := old(m.gd).freeInodes - 1)
    ensures !done ==> m.faults > old(m.faults) && m.sb == old(m.sb) && m.gd == old(m.gd)
    ensures !done ==> m.disk == old(m.disk).(sb := m.disk.sb, gd := m.disk.gd, ibm := m.disk.ibm)
    ensures !done ==> m.disk.ibm == bm || m.disk.ibm == bm[c - 1 := true]
    ensures !done && m.faults == old(m.faults) + 1 && old(m.Synced()) ==> m.disk == old(m.disk) && m.Synced()
    ensures done ==> m.Books() == old(m.Books())
    ensures done <==> Passes(m.readFails, old(m.nreads), 2, m.writeFails, old(m.nwrites), 3)
    ensures done ==> m.nreads == old(m.nreads) + 2 && m.nwrites == old(m.nwrites) + 3
  {
    hide SlotOk, DirOk, Clear, Safe, Mount.Logged;
    ClearUpdate(bm, c - 1, true);
    assert bm[c - 1 := true][c - 1 := false] == bm;
    done := WriteInodeBitmap(m, bm[c - 1 := true], c);
    if done { done := CountInodeOut(m, bm, c); }
  }

  method CountInodeOut(m: Mount, bm: seq<bool>, c: nat) returns (done: bool)
    requires m.Valid() && 1 <= c <= m.g.inodes && c !in m.live
    requires m.disk.ibm[c - 1] && bm == m.disk.ibm[c - 1 := false]
    requires m.sb.freeInodes > 0 && m.gd.freeInodes > 0
    modifies m`nreads, m`nwrites, m`faults, m`disk, m`history, m`sb, m`gd
    ensures old(m.history) <= m.history
    ensures m.Valid()
    ensures done ==>
              && m.disk == old(m.disk).(sb := m.sb, gd := m.gd) && m.faults == old(m.faults)
              && m.sb == old(m.sb).(freeInodes := old(m.sb).freeInodes - 1)
              && m.gd == old(m.gd).(freeInodes := old(m.gd).freeInodes - 1)
    ensures !done ==> m.faults > old(m.faults) && m.sb == old(m.sb) && m.gd == old(m.gd)
    ensures !done ==> m.disk == old(m.disk).(sb := m.disk.sb, gd := m.disk.gd, ibm := m.disk.ibm)
    ensures !done ==> m.disk.ibm == bm || m.disk.ibm == old(m.disk).ibm
    ensures !done && m.faults == old(m.faults) + 1 ==> m.disk.ibm == bm && m.Synced()
    ensures done <==> Passes(m.readFails, old(m.nreads), 2, m.writeFails, old(m.nwrites), 2)
    ensures done ==> m.nreads == old(m.nreads) + 2 && m.nwrites == old(m.nwrites) + 2
  {
    done := MoveCounts(m, m.sb.(freeInodes := m.sb.freeInodes - 1), m.gd.(freeInodes := m.gd.freeInodes - 1));
    if !done {
      var _ := WriteInodeBitmap(m, bm, c);
    }
  }

  method FreeInode(m: Mount, ino: nat)
    requires m.Valid() && ino !in m.live
    modifies m`nreads, m`nwrites, m`faults, m`disk, m`history, m`sb, m`gd
    ensures old(m.history) <= m.history
    ensures m.Valid() && m.faults >= old(m.faults)
    ensures m.disk == old(m.disk).(ibm := m.disk.ibm, sb := m.disk.sb, gd := m.disk.gd)
    ensures 1 <= ino <= m.g.inodes ==>
              m.disk.ibm == old(m.disk).ibm || m.disk.ibm == old(m.disk).ibm[ino - 1 := false]
    ensures m.faults == old(m.faults) && 1 <= ino <= m.g.inodes && old(m.disk).ibm[ino - 1] ==>
              && m.disk == old(m.disk).(ibm := old(m.disk).ibm[ino - 1 := false], sb := m.sb, gd := m.gd)
              && m.sb == old(m.sb).(freeInodes := old(m.sb).freeInodes + 1)
              && m.gd == old(m.gd).(freeInodes := old(m.gd).freeInodes + 1)
    ensures m.faults == old(m.faults) && (1 <= ino <= m.g.inodes ==> !old(m.disk).ibm[ino - 1]) ==>
              m.disk == old(m.disk) && m.sb == old(m.sb) && m.gd == old(m.gd)
    ensures m.faults <= old(m.faults) + 1 && old(m.Synced()) ==> m.Synced()
    ensures m.faults == old(m.faults) ==> m.Books() == old(m.Books()) && (old(m.Agreed()) ==> m.Agreed())
    ensures m.Books().0 == old(m.Books().0) && m.Books().1 >= old(m.Books().1)
    ensures m.sb == old(m.sb).(freeInodes := m.sb.freeInodes)
    // After a fault a marked inode is not given back: its mark or the counts stay.
    ensures m.faults > old(m.faults) && 1 <= ino <= m.g.inodes && old(m.disk).ibm[ino - 1] ==>
              m.sb == old(m.sb) && m.gd == old(m.gd)
    ensures 1 <= ino <= m.g.inodes && old(m.disk).ibm[ino - 1]
            && (m.readFails(old(m.nreads)) || m.writeFails(old(m.nwrites))) ==>
              m.faults > old(m.faults) && m.disk == old(m.disk)
  {
    hide SlotOk, DirOk, Clear, Safe, Mount.Logged;
    if ino < 1 || ino > m.g.inodes { return; }
    var ok, bm := m.ReadInodeBits();
    if !ok { return; }
    ClearUpdate(bm, ino - 1, false);
    if bm[ino - 1] {
      ok := WriteInodeBitmap(m, bm[ino - 1 := false], ino);
      if !ok { return; }
      var _ := MoveCounts(m, m.sb.(freeInodes := m.sb.freeInodes + 1), m.gd.(freeInodes := m.gd.freeInodes + 1));
    }
  }
}
