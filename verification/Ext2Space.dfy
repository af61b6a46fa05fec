/** How many blocks a volume has to give and how many a write needs: together they say how far a
    write gets (kernel/ext2.c:290-352, 533-611). */
module Ext2Space {
  import opened Machine
  import opened Ext2Blocks
  import opened Ext2Disk
  import opened Ext2Content
  import opened Ext2Alloc
  import opened Ext2Pending

  /** Data blocks whose bit is clear. */
  ghost function ClearData(g: Geo, d: Disk): nat
  {
    if 1 <= g.firstData <= g.blocks <= |d.bbm| + 1 then Clear(d.bbm[g.firstData - 1..g.blocks - 1]) else 0
  }

  /** Blocks that can be taken one after the other before one is refused. */
  ghost function Avail(g: Geo, d: Disk, sb: Super, gd: Group): nat
  {
    Min(Min(sb.freeBlocks, gd.freeBlocks), ClearData(g, d))
  }

  lemma {:induction false} NoneClear(bits: seq<bool>)
    ensures Clear(bits) == 0 <==> forall i :: 0 <= i < |bits| ==> bits[i]
  {
    if bits != [] {
      var last := |bits| - 1;
      NoneClear(bits[..last]);
      assert forall i :: 0 <= i < last ==> bits[..last][i] == bits[i];
    }
  }

  /** None can be taken exactly if the next request is refused. */
  lemma AvailNone(g: Geo, d: Disk, sb: Super, gd: Group)
    requires GeoOk(g) && Shape(g, d)
    ensures Avail(g, d, sb, gd) == 0 <==> NoBlock(g, d, sb, gd)
  {
    hide Clear;
    var bits := d.bbm[g.firstData - 1..g.blocks - 1];
    NoneClear(bits);
    if forall i :: 0 <= i < |bits| ==> bits[i] {
      forall b | g.firstData <= b < g.blocks
        ensures Marked(g, d, b)
      {
        assert bits[b - g.firstData];
      }
    }
    if forall b :: g.firstData <= b < g.blocks ==> Marked(g, d, b) {
      forall i | 0 <= i < |bits|
        ensures bits[i]
      {
        assert Marked(g, d, i + g.firstData);
      }
    }
  }

  /** Taking a block leaves one fewer. */
  lemma AvailTaken(g: Geo, d: Disk, sb: Super, gd: Group, d': Disk, sb': Super, gd': Group, b: nat)
    requires GeoOk(g) && Allocated(g, d, d', b)
    requires sb.freeBlocks == sb'.freeBlocks + 1 && gd.freeBlocks == gd'.freeBlocks + 1
    ensures Avail(g, d, sb, gd) == Avail(g, d', sb', gd') + 1
  {
    hide Clear;
    var lo, hi := g.firstData - 1, g.blocks - 1;
    assert d'.bbm[lo..hi] == d.bbm[lo..hi][b - 1 - lo := true];
    ClearUpdate(d.bbm[lo..hi], b - 1 - lo, true);
  }

  /** Only the marks and the counts of free blocks matter. */
  lemma AvailSame(g: Geo, d: Disk, sb: Super, gd: Group, d': Disk, sb': Super, gd': Group)
    requires d'.bbm == d.bbm && sb'.freeBlocks == sb.freeBlocks && gd'.freeBlocks == gd.freeBlocks
    ensures Avail(g, d', sb', gd') == Avail(g, d, sb, gd)
  {}

  // ----------------------------------------------------------------- what a write needs

  /** Blocks that a write which began at file block a needs for block bi: the block if the file does
      not have it, and the pointer table if it has none and bi is the first block behind it. */
  function LacksAt(g: Geo, d: Disk, i: nat, a: nat, bi: nat): nat
    requires HasInode(g, d, i) && bi < FILE_BLOCKS
  {
    (if Ptr(g, d, i, SlotOf(bi)) == 0 then 1 else 0)
    + if bi == Max(a, 12) && Ptr(g, d, i, 12) == 0 then 1 else 0
  }

  /** Blocks it needs for the file blocks from a up to b. */
  function Lacking(g: Geo, d: Disk, i: nat, a: nat, b: nat): nat
    requires HasInode(g, d, i) && b <= FILE_BLOCKS
  {
    if b <= a then 0 else Lacking(g, d, i, a, b - 1) + LacksAt(g, d, i, a, b - 1)
  }

  /** The file block behind n bytes written at off. */
  function Behind(off: nat, n: nat): nat
  {
    if n == 0 then off / 1024 else (off + n - 1) / 1024 + 1
  }

  /** The volume has what it takes to write n bytes to file i at off. */
  ghost predicate Fits(g: Geo, d: Disk, sb: Super, gd: Group, i: nat, off: nat, n: nat)
  {
    && HasInode(g, d, i) && off + n <= MAX_BYTES
    && Lacking(g, d, i, off / 1024, Behind(off, n)) <= Avail(g, d, sb, gd)
  }

  /** n is the largest number of leading bytes, of `len` in all, that can be written. */
  ghost predicate FitsMost(g: Geo, d: Disk, sb: Super, gd: Group, i: nat, off: nat, len: nat, n: nat)
  {
    n <= len && Fits(g, d, sb, gd, i, off, n) && (n < len ==> !Fits(g, d, sb, gd, i, off, n + 1))
  }

  lemma {:induction false} LackingMore(g: Geo, d: Disk, i: nat, a: nat, b: nat, c: nat)
    requires HasInode(g, d, i) && b <= c <= FILE_BLOCKS
    ensures Lacking(g, d, i, a, b) <= Lacking(g, d, i, a, c)
  {
    if b < c { LackingMore(g, d, i, a, b, c - 1); }
  }

  lemma FitsLess(g: Geo, d: Disk, sb: Super, gd: Group, i: nat, off: nat, n: nat, m: nat)
    requires Fits(g, d, sb, gd, i, off, n) && m <= n
    ensures Fits(g, d, sb, gd, i, off, m)
  {
    hide Avail, Lacking;
    BehindMore(off, m, n);
    LackingMore(g, d, i, off / 1024, Behind(off, m), Behind(off, n));
  }

  lemma BehindMore(off: nat, m: nat, n: nat)
    requires m <= n && off + n <= MAX_BYTES
    ensures Behind(off, m) <= Behind(off, n) <= FILE_BLOCKS
  {}

  /** So there is only one such number. */
  lemma FitsMostOnce(g: Geo, d: Disk, sb: Super, gd: Group, i: nat, off: nat, len: nat, n: nat, m: nat)
    requires FitsMost(g, d, sb, gd, i, off, len, n) && FitsMost(g, d, sb, gd, i, off, len, m)
    ensures n == m
  {
    hide Fits;
    if n < m { FitsLess(g, d, sb, gd, i, off, m, n + 1); }
    if m < n { FitsLess(g, d, sb, gd, i, off, n, m + 1); }
  }

  /** Where not even one byte fits there is no block, or one where two are needed: a table and its first block. */
  lemma StuckNeeds(g: Geo, d: Disk, sb: Super, gd: Group, i: nat, off: nat)
    requires HasInode(g, d, i) && off < MAX_BYTES
    ensures !Fits(g, d, sb, gd, i, off, 1) <==>
              Avail(g, d, sb, gd) < LacksAt(g, d, i, off / 1024, off / 1024)
    ensures LacksAt(g, d, i, off / 1024, off / 1024) == 2 <==> off / 1024 >= 12 && d.itab[i - 1].block[12] == 0
    ensures LacksAt(g, d, i, off / 1024, off / 1024) <= 2
  {
    hide Avail;
    BehindNext(off, 0, 1);
    assert Lacking(g, d, i, off / 1024, off / 1024) == 0;
  }

  /** A chunk that ends at a block boundary or at the end of the request lies in the block next to be written. */
  lemma BehindNext(off: nat, n: nat, c: nat)
    requires c > 0 && (n > 0 ==> (off + n) % 1024 == 0) && (off + n) % 1024 + c <= 1024
    ensures Behind(off, n) == (off + n) / 1024 && Behind(off, n + c) == Behind(off, n) + 1
  {}

  // ------------------------------------------------------------- a write under way

  /** Slot k of the file as the write in progress has it; d0 is the volume it began on. */
  function Slot(g: Geo, d0: Disk, i: nat, w: Wip, k: nat): nat
    requires HasInode(g, d0, i) && k < SLOTS
  {
    if k <= 12 then w.n.block[k] else if w.loaded && |w.ents| == 256 then w.ents[k - 13] else Ptr(g, d0, i, k)
  }

  /** Blocks that file block bi needs now. */
  function Cost(g: Geo, d0: Disk, i: nat, w: Wip, bi: nat): nat
    requires HasInode(g, d0, i) && bi < FILE_BLOCKS
  {
    (if Slot(g, d0, i, w, SlotOf(bi)) == 0 then 1 else 0) + if bi >= 12 && w.n.block[12] == 0 then 1 else 0
  }

  /** From w to w' at most slot k0 and the table changed. */
  ghost predicate Kept(g: Geo, d0: Disk, i: nat, w: Wip, w': Wip, k0: nat)
  {
    HasInode(g, d0, i) &&
    forall k: nat :: k < SLOTS && k != k0 && k != 12 ==> Slot(g, d0, i, w', k) == Slot(g, d0, i, w, k)
  }

  /** A write that began at file block a and comes to block b next has changed nothing from there on,
      and has a table if the file had one or if it has been behind it. */
  ghost predicate Ahead(g: Geo, d0: Disk, i: nat, w: Wip, a: nat, b: nat)
  {
    && HasInode(g, d0, i)
    && (forall bi: nat :: b <= bi < FILE_BLOCKS ==>
          Slot(g, d0, i, w, SlotOf(bi)) == Ptr(g, d0, i, SlotOf(bi)))
    && (w.n.block[12] == 0 <==> Ptr(g, d0, i, 12) == 0 && b <= Max(a, 12))
  }

  lemma AheadStart(g: Geo, d0: Disk, i: nat, a: nat)
    requires HasInode(g, d0, i)
    ensures Ahead(g, d0, i, Wip(d0.itab[i - 1], [], false, false), a, a)
  {}

  lemma AheadCost(g: Geo, d0: Disk, i: nat, w: Wip, a: nat, b: nat)
    requires Ahead(g, d0, i, w, a, b) && a <= b < FILE_BLOCKS
    ensures Cost(g, d0, i, w, b) == LacksAt(g, d0, i, a, b)
    ensures Lacking(g, d0, i, a, b + 1) == Lacking(g, d0, i, a, b) + LacksAt(g, d0, i, a, b)
  {}

  lemma AheadNext(g: Geo, d0: Disk, i: nat, w: Wip, w': Wip, a: nat, b: nat)
    requires Ahead(g, d0, i, w, a, b) && a <= b < FILE_BLOCKS && Kept(g, d0, i, w, w', SlotOf(b))
    requires if b < 12 then w'.n.block[12] == w.n.block[12] else w'.n.block[12] != 0
    ensures Ahead(g, d0, i, w', a, b + 1)
  {}

  /** The write has taken the blocks it needed so far. */
  ghost predicate Paid(g: Geo, d0: Disk, i: nat, w: Wip, off: nat, n: nat, had: nat, has: nat)
  {
    && Ahead(g, d0, i, w, off / 1024, Behind(off, n)) && off + n <= MAX_BYTES
    && has + Lacking(g, d0, i, off / 1024, Behind(off, n)) == had
  }

  lemma PaidStart(g: Geo, d0: Disk, i: nat, off: nat, had: nat)
    requires HasInode(g, d0, i) && off <= MAX_BYTES
    ensures Paid(g, d0, i, Wip(d0.itab[i - 1], [], false, false), off, 0, had, had)
  {
    AheadStart(g, d0, i, off / 1024);
  }

  /** The next chunk is paid for too if its block could be had, */
  lemma PaidNext(g: Geo, d0: Disk, i: nat, w: Wip, w': Wip, off: nat, n: nat, c: nat, had: nat, has: nat)
    requires Paid(g, d0, i, w, off, n, had, has) && c > 0 && off + n + c <= MAX_BYTES
    requires (n > 0 ==> (off + n) % 1024 == 0) && (off + n) % 1024 + c <= 1024
    requires Kept(g, d0, i, w, w', SlotOf((off + n) / 1024)) && Cost(g, d0, i, w, (off + n) / 1024) <= has
    requires if (off + n) / 1024 < 12 then w'.n.block[12] == w.n.block[12] else w'.n.block[12] != 0
    ensures Paid(g, d0, i, w', off, n + c, had, has - Cost(g, d0, i, w, (off + n) / 1024))
  {
    hide Kept, Ahead, Cost, Slot, LacksAt, Lacking;
    var a, b := off / 1024, (off + n) / 1024;
    BehindNext(off, n, c);
    AheadCost(g, d0, i, w, a, b);
    AheadNext(g, d0, i, w, w', a, b);
  }

  /** and does not fit if it could not. */
  lemma PaidNoMore(g: Geo, d0: Disk, sb0: Super, gd0: Group, i: nat, w: Wip, off: nat, n: nat, len: nat, has: nat)
    requires Paid(g, d0, i, w, off, n, Avail(g, d0, sb0, gd0), has) && n < len && off + len <= MAX_BYTES
    requires (n > 0 ==> (off + n) % 1024 == 0) && Cost(g, d0, i, w, (off + n) / 1024) > has
    ensures FitsMost(g, d0, sb0, gd0, i, off, len, n)
  {
    hide Cost, Slot, LacksAt, Lacking, Avail;
    var a, b := off / 1024, (off + n) / 1024;
    BehindNext(off, n, 1);
    AheadCost(g, d0, i, w, a, b);
  }

  lemma PaidAll(g: Geo, d0: Disk, sb0: Super, gd0: Group, i: nat, w: Wip, off: nat, n: nat, has: nat)
    requires Paid(g, d0, i, w, off, n, Avail(g, d0, sb0, gd0), has)
    ensures FitsMost(g, d0, sb0, gd0, i, off, n, n)
    ensures has == Avail(g, d0, sb0, gd0) - Lacking(g, d0, i, off / 1024, Behind(off, n))
  {
    hide Avail, Lacking;
  }

  lemma KeptTrans(g: Geo, d0: Disk, i: nat, w: Wip, w1: Wip, w2: Wip, k0: nat)
    requires Kept(g, d0, i, w, w1, 12) && Kept(g, d0, i, w1, w2, k0)
    ensures Kept(g, d0, i, w, w2, k0)
  {}
}
