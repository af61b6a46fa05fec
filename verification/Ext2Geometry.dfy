/** Mount-time validation in 32-bit arithmetic (kernel/ext2.c:1267-1410), the
    layout it lets through, and the device range check (kernel/block.c:28-51). */
module Ext2Geometry {
  import opened Machine
  import opened Ext2Blocks
  import opened Ext2Disk

  /** Superblock fields mounting looks at, each as read from the device. */
  datatype RawSuper = RawSuper(
    magic: nat, rev: nat, logBlock: nat, logFrag: nat, compat: nat, incompat: nat, roCompat: nat,
    blocks: nat, inodes: nat, first: nat, perGroup: nat, fragsPerGroup: nat, inodesPerGroup: nat,
    freeBlocks: nat, freeInodes: nat)
  {
    ghost predicate Fits()
    {
      && magic < 0x10000 && rev < TWO32 && logBlock < TWO32 && logFrag < TWO32
      && compat < TWO32 && incompat < TWO32 && roCompat < TWO32
      && blocks < TWO32 && inodes < TWO32 && first < TWO32 && perGroup < TWO32 && fragsPerGroup < TWO32
      && inodesPerGroup < TWO32 && freeBlocks < TWO32 && freeInodes < TWO32
    }
  }

  /** Group descriptor fields. */
  datatype RawGroup = RawGroup(blockBitmap: nat, inodeBitmap: nat, inodeTable: nat,
                               freeBlocks: nat, freeInodes: nat, usedDirs: nat)
  {
    ghost predicate Fits()
    {
      && blockBitmap < TWO32 && inodeBitmap < TWO32 && inodeTable < TWO32
      && freeBlocks < 0x10000 && freeInodes < 0x10000 && usedDirs < 0x10000
    }
  }

  /** What mounting derives. */
  datatype Layout = Layout(sb: nat, gd: nat, bb: nat, ib: nat, it: nat, itBlocks: nat, firstData: nat, blocks: nat,
                           inodes: nat, startBit: nat)

  predicate RawInRange(s: RawSuper, b: nat) { s.first <= b < s.blocks }

  /** The overlap test of the mount code, wrap-around included. */
  predicate Overlap(a: nat, na: nat, b: nat, nb: nat) { a < W(b + nb) && b < W(a + na) }

  predicate SuperOk(s: RawSuper, sectors: nat)
  {
    && s.magic == 0xEF53 && s.rev == 0 && s.logBlock == 0
    && s.compat == 0 && s.incompat == 0 && s.roCompat == 0
    && s.blocks != 0 && s.inodes >= FIRST_INO && s.perGroup != 0 && s.inodesPerGroup != 0 && s.first == 1
    && s.logFrag == s.logBlock && s.fragsPerGroup == s.perGroup
    && s.inodes <= s.inodesPerGroup && s.inodes <= 0xFFFFFFFF / 128
    && s.blocks <= 0xFFFFFFFF / 2 && W(s.blocks * 2) <= sectors
    && s.blocks <= W(s.first + s.perGroup)
    && s.perGroup <= 8192 && s.inodesPerGroup <= 8192
    && s.freeBlocks <= s.blocks && s.freeInodes <= s.inodes
  }

  predicate GroupOk(s: RawSuper, d: RawGroup)
  {
    && d.blockBitmap != 0 && d.inodeBitmap != 0 && d.inodeTable != 0
    && RawInRange(s, d.blockBitmap) && RawInRange(s, d.inodeBitmap) && RawInRange(s, d.inodeTable)
    && d.freeBlocks <= s.perGroup && d.freeInodes <= s.inodesPerGroup && d.usedDirs <= s.inodes
    && s.freeBlocks == d.freeBlocks && s.freeInodes == d.freeInodes
  }

  function TableBlocks(s: RawSuper): nat { W(W(W(s.inodes * 128) + 1024) - 1) / 1024 }

  predicate NoOverlap(s: RawSuper, d: RawGroup)
  {
    var gd, n := W(s.first + 1), TableBlocks(s);
    var bb, ib, it := d.blockBitmap, d.inodeBitmap, d.inodeTable;
    && !Overlap(s.first, 1, gd, 1) && !Overlap(s.first, 1, bb, 1) && !Overlap(s.first, 1, ib, 1)
    && !Overlap(s.first, 1, it, n) && !Overlap(gd, 1, bb, 1) && !Overlap(gd, 1, ib, 1) && !Overlap(gd, 1, it, n)
    && !Overlap(bb, 1, ib, 1) && !Overlap(bb, 1, it, n) && !Overlap(ib, 1, it, n)
  }

  /** The mount decision: the layout, or refusal. */
  method Accept(s: RawSuper, d: RawGroup, sectors: nat) returns (r: Option<Layout>)
    requires s.Fits() && d.Fits() && sectors < TWO32
    // Wrap-around never lets a bad volume in nor keeps a good one out.
    ensures r.Some? <==> Mountable(s, d, sectors)
    ensures r.Some? ==> var l := r.value;
              && l.sb == 1 && l.gd == 2 && l.bb == d.blockBitmap && l.ib == d.inodeBitmap && l.it == d.inodeTable
              && l.blocks == s.blocks && l.inodes == s.inodes && l.startBit == l.firstData - 1
              && Sound(l) && GeoOk(Geo(l.blocks, l.inodes, l.firstData)) && 2 * l.blocks <= sectors
  {
    hide W, Overlap, TableBlocks, SuperOk, NoOverlap, Sound;
    r := None;
    SuperPlain(s, sectors);
    if !SuperOk(s, sectors) { return; }
    Small(s.first + 1);
    TablePlain(s);
    if !GroupOk(s, d) { return; }
    var gd, n := W(s.first + 1), TableBlocks(s);
    Small(d.inodeTable + n);
    var end := W(d.inodeTable + n);
    if end > s.blocks { return; }
    OverlapPlain(s, d);
    if !NoOverlap(s, d) { return; }
    var firstData := W(d.inodeTable + n);
    var pastBb, pastIb, pastGd := W(d.blockBitmap + 1), W(d.inodeBitmap + 1), W(gd + 1);
    Small(d.blockBitmap + 1);
    Small(d.inodeBitmap + 1);
    Small(gd + 1);
    if pastBb > firstData { firstData := pastBb; }
    if pastIb > firstData { firstData := pastIb; }
    if pastGd > firstData { firstData := pastGd; }
    if firstData > s.blocks { return; }
    Small(firstData - s.first);
    r := Some(Layout(s.first, gd, d.blockBitmap, d.inodeBitmap, d.inodeTable, n, firstData, s.blocks, s.inodes,
                     W(firstData - s.first)));
    Spans(r.value);
  }

  /** Five pieces apart and below the first data block make a sound layout. */
  lemma Spans(l: Layout)
    requires FIRST_INO <= l.inodes <= 8192 && l.itBlocks == (l.inodes + 7) / 8 && l.sb == 1 && l.gd == 2
    requires Apart(1, 1, l.bb, 1) && Apart(1, 1, l.ib, 1) && Apart(1, 1, l.it, l.itBlocks)
    requires Apart(2, 1, l.bb, 1) && Apart(2, 1, l.ib, 1) && Apart(2, 1, l.it, l.itBlocks)
    requires Apart(l.bb, 1, l.ib, 1) && Apart(l.bb, 1, l.it, l.itBlocks) && Apart(l.ib, 1, l.it, l.itBlocks)
    requires 1 <= l.bb < l.firstData && 1 <= l.ib < l.firstData && 1 <= l.it && l.it + l.itBlocks <= l.firstData
    requires 3 <= l.firstData <= l.blocks <= 8193
    ensures Sound(l)
  {}

  lemma SuperPlain(s: RawSuper, sectors: nat)
    requires s.Fits()
    ensures SuperOk(s, sectors) <==> PlainSuper(s, sectors)
  {
    if s.blocks < TWO32 / 2 { Small(s.blocks * 2); }
    if s.first == 1 && s.perGroup + 1 < TWO32 { Small(s.first + s.perGroup); }
  }

  lemma TablePlain(s: RawSuper)
    requires s.inodes <= 8192
    ensures TableBlocks(s) == (s.inodes + 7) / 8
  {
    Small(s.inodes * 128);
    Small(s.inodes * 128 + 1024);
    Small(s.inodes * 128 + 1023);
    assert s.inodes * 128 + 1023 == (s.inodes + 7) / 8 * 1024 + (s.inodes + 7) % 8 * 128 + 127;
  }

  lemma OverlapPlain(s: RawSuper, d: RawGroup)
    requires s.first == 1 && s.inodes <= 8192 && s.blocks <= 8193
    requires RawInRange(s, d.blockBitmap) && RawInRange(s, d.inodeBitmap) && RawInRange(s, d.inodeTable)
    ensures NoOverlap(s, d) <==>
              var n := (s.inodes + 7) / 8; var (bb, ib, it) := (d.blockBitmap, d.inodeBitmap, d.inodeTable);
              && Apart(1, 1, bb, 1) && Apart(1, 1, ib, 1) && Apart(1, 1, it, n)
              && Apart(2, 1, bb, 1) && Apart(2, 1, ib, 1) && Apart(2, 1, it, n)
              && Apart(bb, 1, ib, 1) && Apart(bb, 1, it, n) && Apart(ib, 1, it, n)
  {
    hide W;
    TablePlain(s);
    Small(2); Small(3);
    Small(d.blockBitmap + 1); Small(d.inodeBitmap + 1); Small(d.inodeTable + (s.inodes + 7) / 8);
  }

  // ------------------------------------------------- the same, without a machine word

  /** A layout is legal: the five pieces of metadata lie apart, below all data. */
  ghost predicate Sound(l: Layout)
  {
    && FIRST_INO <= l.inodes <= 8192 && l.itBlocks == (l.inodes + 7) / 8
    && (forall j, k :: 0 <= j < k < 5 ==> Apart(Start(l, j), Length(l, j), Start(l, k), Length(l, k)))
    && (forall k :: 0 <= k < 5 ==> 1 <= Start(l, k) && Start(l, k) + Length(l, k) <= l.firstData)
    && l.firstData <= l.blocks <= 8193 && l.sb == 1
  }

  /** First block of each piece: superblock, group descriptor, the bitmaps, the inode table. */
  ghost function Start(l: Layout, k: nat): nat
  {
    if k == 0 then l.sb else if k == 1 then l.gd else if k == 2 then l.bb else if k == 3 then l.ib else l.it
  }

  ghost function Length(l: Layout, k: nat): nat { if k < 4 then 1 else l.itBlocks }

  ghost predicate Apart(a: nat, na: nat, b: nat, nb: nat) { a + na <= b || b + nb <= a }

  ghost predicate PlainSuper(s: RawSuper, sectors: nat)
  {
    && s.magic == 0xEF53 && s.rev == 0 && s.logBlock == 0 && s.logFrag == 0
    && s.compat == 0 && s.incompat == 0 && s.roCompat == 0
    && s.first == 1 && FIRST_INO <= s.inodes <= s.inodesPerGroup <= 8192
    && 0 < s.perGroup <= 8192 && s.fragsPerGroup == s.perGroup
    && 0 < s.blocks <= 1 + s.perGroup && 2 * s.blocks <= sectors
    && s.freeBlocks <= s.blocks && s.freeInodes <= s.inodes
  }

  /** Mountable, stated with unbounded integers. */
  ghost predicate Mountable(s: RawSuper, d: RawGroup, sectors: nat)
  {
    var n := (s.inodes + 7) / 8;
    && PlainSuper(s, sectors)
    && s.freeBlocks == d.freeBlocks <= s.perGroup && s.freeInodes == d.freeInodes && d.usedDirs <= s.inodes
    && 3 <= d.blockBitmap < s.blocks && 3 <= d.inodeBitmap < s.blocks
    && 3 <= d.inodeTable && d.inodeTable + n <= s.blocks
    && d.blockBitmap != d.inodeBitmap
    && Apart(d.blockBitmap, 1, d.inodeTable, n) && Apart(d.inodeBitmap, 1, d.inodeTable, n)
  }

  // -------------------------------------------------------------- every later access

  /** The range check under every device access. */
  predicate RangeOk(sectors: nat, lba: nat, count: nat) { count != 0 && lba < sectors && count <= sectors - lba }

  /** Parts of the device the file system reads or writes on their own. */
  datatype Part = SuperPart | GroupPart | BlockBits | InodeBits | InodeSlot(ino: nat) | DataBlock(b: nat)

  ghost predicate PartOf(l: Layout, p: Part)
  {
    match p
    case InodeSlot(i) => 1 <= i <= l.inodes
    case DataBlock(b) => l.firstData <= b < l.blocks
    case _ => true
  }

  /** Block and byte offset in it, as the code computes them. */
  function Place(l: Layout, p: Part): (nat, nat)
  {
    match p
    case SuperPart => (l.sb, 0)
    case GroupPart => (l.gd, 0)
    case BlockBits => (l.bb, 0)
    case InodeBits => (l.ib, 0)
    case InodeSlot(i) => var off := W(W(i - 1) * 128); (W(l.it + off / 1024), off % 1024)
    case DataBlock(b) => (b, 0)
  }

  function Extent(p: Part): nat { if p.InodeSlot? then 128 else 1024 }

  lemma SlotPlace(l: Layout, i: nat)
    requires Sound(l) && 1 <= i <= l.inodes
    ensures Place(l, InodeSlot(i)) == (l.it + (i - 1) / 8, (i - 1) % 8 * 128)
    ensures (i - 1) / 8 < l.itBlocks
  {
    hide W;
    assert Start(l, 4) == l.it && Length(l, 4) == l.itBlocks;
    TableEntry(i - 1, l.inodes);
    Small(i - 1);
    Small((i - 1) * 128);
    Small(l.it + (i - 1) / 8);
  }

  lemma TableEntry(x: nat, n: nat)
    requires x < n <= 8192
    ensures x * 128 / 1024 == x / 8 && x * 128 % 1024 == x % 8 * 128 && x / 8 < (n + 7) / 8
  {
    var q, r := x / 8, x % 8;
    assert x == 8 * q + r && x * 128 == 1024 * q + 128 * r;
  }

  /** Which piece of metadata a part lies in; 5 for data. */
  ghost function PieceOf(p: Part): nat
  {
    match p
    case SuperPart => 0
    case GroupPart => 1
    case BlockBits => 2
    case InodeBits => 3
    case InodeSlot(_) => 4
    case DataBlock(_) => 5
  }

  lemma InPiece(l: Layout, p: Part)
    requires Sound(l) && PartOf(l, p)
    ensures var k, b := PieceOf(p), Place(l, p).0;
      if k < 5 then Start(l, k) <= b < Start(l, k) + Length(l, k) <= l.firstData else l.firstData <= b
  {
    if p.InodeSlot? { SlotPlace(l, p.ino); }
  }

  /** Every part lies within one block of the volume, and its access passes the
      device's range check with a sector number that did not wrap. */
  lemma AccessInRange(l: Layout, p: Part, sectors: nat)
    requires Sound(l) && PartOf(l, p) && 2 * l.blocks <= sectors
    ensures var (b, off) := Place(l, p);
      && 1 <= b < l.blocks && off + Extent(p) <= 1024
      && W(b * 2) == b * 2 && RangeOk(sectors, W(b * 2), 2)
  {
    hide W;
    InPiece(l, p);
    assert Start(l, 0) == 1;
    if p.InodeSlot? { SlotPlace(l, p.ino); }
    Small(Place(l, p).0 * 2);
  }

  /** Different parts share no byte: writing one leaves all others as they were. */
  lemma PartsApart(l: Layout, p: Part, q: Part)
    requires Sound(l) && PartOf(l, p) && PartOf(l, q) && p != q
    ensures var (b, off) := Place(l, p); var (b', off') := Place(l, q);
      b != b' || off + Extent(p) <= off' || off' + Extent(q) <= off
  {
    hide W;
    InPiece(l, p);
    InPiece(l, q);
    var j, k := PieceOf(p), PieceOf(q);
    if j < k < 5 {
      assert Apart(Start(l, j), Length(l, j), Start(l, k), Length(l, k));
    } else if k < j < 5 {
      assert Apart(Start(l, k), Length(l, k), Start(l, j), Length(l, j));
    } else if p.InodeSlot? && q.InodeSlot? {
      SlotPlace(l, p.ino);
      SlotPlace(l, q.ino);
    }
  }

  /** Bitmap bytes touched for any data block or inode lie in the one bitmap block. */
  lemma BitInBitmap(l: Layout, b: nat, i: nat)
    requires Sound(l) && l.firstData <= b < l.blocks && 1 <= i <= l.inodes
    ensures W(b - l.sb) == b - l.sb && W(b - l.sb) / 8 < 1024 && W(i - 1) / 8 < 1024
  {
    assert Start(l, 0) == l.sb;
    Small(b - l.sb);
    Small(i - 1);
  }
}
