/** The volume as bytes: every write the driver makes to a block of the device
    is one change to the volume as `Ext2Disk.Disk` describes it
    (kernel/ext2.c:38-106, 211-282, 302-342). */
module Ext2Bytes {
  import opened Machine
  import opened Ext2Blocks
  import opened Ext2Disk
  import opened Ext2Geometry

  // ------------------------------------------------------------------- bits in bytes

  /** The low n bits of v, lowest first. */
  function Bits(v: nat, n: nat): (s: seq<bool>)
    ensures |s| == n
    decreases n
  {
    if n == 0 then [] else [v % 2 == 1] + Bits(v / 2, n - 1)
  }

  /** v with bit k set or cleared. */
  function WithBit(v: nat, k: nat, on: bool): nat
    decreases k
  {
    if k == 0 then v / 2 * 2 + (if on then 1 else 0) else WithBit(v / 2, k - 1, on) * 2 + v % 2
  }

  function Pow2(k: nat): nat { if k == 0 then 1 else 2 * Pow2(k - 1) }

  /** This is what or-ing in, or masking out, 1 << k does. */
  lemma {:induction false} WithBitIs(v: nat, n: nat, k: nat, on: bool)
    requires k < n
    ensures WithBit(v, k, on) == v + (if on then Pow2(k) else 0) - (if Bits(v, n)[k] then Pow2(k) else 0)
    decreases k
  {
    if k > 0 { WithBitIs(v / 2, n - 1, k - 1, on); }
  }

  lemma Halves(q: nat, r: nat)
    requires r < 2
    ensures (q * 2 + r) / 2 == q && (q * 2 + r) % 2 == r
  {}

  lemma {:induction false} BitsWith(v: nat, n: nat, k: nat, on: bool)
    requires k < n
    ensures Bits(WithBit(v, k, on), n) == Bits(v, n)[k := on]
    decreases n
  {
    var w := WithBit(v, k, on);
    if k == 0 {
      Halves(v / 2, if on then 1 else 0);
    } else {
      BitsWith(v / 2, n - 1, k - 1, on);
      Halves(WithBit(v / 2, k - 1, on), v % 2);
    }
  }

  lemma Doubled(q: nat, r: nat, p: nat)
    requires q < p && r < 2
    ensures q * 2 + r < 2 * p
  {}

  lemma {:induction false} WithBitFits(v: nat, n: nat, k: nat, on: bool)
    requires k < n && v < Pow2(n)
    ensures WithBit(v, k, on) < Pow2(n)
    decreases n
  {
    if k > 0 {
      WithBitFits(v / 2, n - 1, k - 1, on);
      Doubled(WithBit(v / 2, k - 1, on), v % 2, Pow2(n - 1));
    } else {
      Doubled(v / 2, if on then 1 else 0, Pow2(n - 1));
    }
  }

  lemma Byte8()
    ensures Pow2(8) == 256
  {
    assert Pow2(4) == 16;
  }

  /** Bit i of a bitmap block. */
  function BitAt(b: Block, i: nat): bool
    requires i < 8192
  {
    Bits(b[i / 8], 8)[i % 8]
  }

  function PutBit(b: Block, i: nat, on: bool): Block
    requires i < 8192
  {
    Byte8();
    WithBitFits(b[i / 8], 8, i % 8, on);
    b[i / 8 := WithBit(b[i / 8], i % 8, on)]
  }

  function BitMap(b: Block): (s: seq<bool>)
    ensures |s| == 8192 && forall i :: 0 <= i < 8192 ==> s[i] == BitAt(b, i)
  {
    seq(8192, i requires 0 <= i < 8192 => BitAt(b, i))
  }

  /** Changing one bit of the block changes one bit of the map. */
  lemma BitMapPut(b: Block, i: nat, on: bool)
    requires i < 8192
    ensures BitMap(PutBit(b, i, on)) == BitMap(b)[i := on]
  {
    hide Bits, WithBit;
    BitsWith(b[i / 8], 8, i % 8, on);
    var c := PutBit(b, i, on);
    forall j | 0 <= j < 8192
      ensures BitAt(c, j) == if j == i then on else BitAt(b, j)
    {
      if j / 8 == i / 8 && j != i { SameByte(i, j); }
    }
  }

  lemma SameByte(i: nat, j: nat)
    requires i / 8 == j / 8 && i != j
    ensures i % 8 != j % 8
  {}

  // ------------------------------------------------------------------- the counts

  function ReadSuper(b: Block): Super { Super(U32(b, 12), U32(b, 16)) }

  function PutSuper(b: Block, s: Super): Block
    requires s.freeBlocks < TWO32 && s.freeInodes < TWO32
  {
    Splice(b, 12, Bytes4(s.freeBlocks) + Bytes4(s.freeInodes))
  }

  function ReadGroup(b: Block): Group { Group(U16(b, 12), U16(b, 14), U16(b, 16)) }

  function PutGroup(b: Block, g: Group): Block
    requires g.freeBlocks < 0x10000 && g.freeInodes < 0x10000 && g.usedDirs < 0x10000
  {
    Splice(b, 12, Bytes2(g.freeBlocks) + Bytes2(g.freeInodes) + Bytes2(g.usedDirs))
  }

  /** What a splice puts in reads back from where it was put. */
  lemma ReadBack4(b: Block, off: nat, s: seq<Byte>, j: nat)
    requires off + |s| <= 1024 && j + 4 <= |s|
    ensures U32(Splice(b, off, s), off + j) == Le(s[j..j + 4])
  {
    hide Le;
    assert Splice(b, off, s)[off + j..off + j + 4] == s[j..j + 4];
  }

  lemma ReadBack2(b: Block, off: nat, s: seq<Byte>, j: nat)
    requires off + |s| <= 1024 && j + 2 <= |s|
    ensures U16(Splice(b, off, s), off + j) == Le(s[j..j + 2])
  {
    hide Le;
    assert Splice(b, off, s)[off + j..off + j + 2] == s[j..j + 2];
  }

  lemma SuperReadsBack(b: Block, s: Super)
    requires s.freeBlocks < TWO32 && s.freeInodes < TWO32
    ensures ReadSuper(PutSuper(b, s)) == s
  {
    hide Le, Bytes4, Splice;
    var t := Bytes4(s.freeBlocks) + Bytes4(s.freeInodes);
    ReadBack4(b, 12, t, 0);
    ReadBack4(b, 12, t, 4);
    assert t[0..4] == Bytes4(s.freeBlocks) && t[4..8] == Bytes4(s.freeInodes);
    LeBytes4(s.freeBlocks);
    LeBytes4(s.freeInodes);
  }

  lemma GroupReadsBack(b: Block, g: Group)
    requires g.freeBlocks < 0x10000 && g.freeInodes < 0x10000 && g.usedDirs < 0x10000
    ensures ReadGroup(PutGroup(b, g)) == g
  {
    hide Le, Bytes2, Splice;
    var t := Bytes2(g.freeBlocks) + Bytes2(g.freeInodes) + Bytes2(g.usedDirs);
    ReadBack2(b, 12, t, 0);
    ReadBack2(b, 12, t, 2);
    ReadBack2(b, 12, t, 4);
    assert t[0..2] == Bytes2(g.freeBlocks) && t[2..4] == Bytes2(g.freeInodes) && t[4..6] == Bytes2(g.usedDirs);
    LeBytes2(g.freeBlocks);
    LeBytes2(g.freeInodes);
    LeBytes2(g.usedDirs);
  }

  // ------------------------------------------------------------------------- inodes

  /** i_mode: the file type in the top four bits. */
  function ReadMode(v: nat): Mode
  {
    if v / 0x1000 == 8 then Mode(Regular, v % 0x1000)
    else if v / 0x1000 == 4 then Mode(Directory, v % 0x1000)
    else Mode(Other, v)
  }

  function ModeBits(m: Mode): nat
  {
    match m.kind
    case Regular => 0x8000 + m.perm
    case Directory => 0x4000 + m.perm
    case Other => m.perm
  }

  predicate ModeFits(m: Mode)
  {
    match m.kind
    case Regular => m.perm < 0x1000
    case Directory => m.perm < 0x1000
    case Other => m.perm < 0x10000 && m.perm / 0x1000 != 8 && m.perm / 0x1000 != 4
  }

  predicate InodeFits(n: Inode)
  {
    && ModeFits(n.mode) && n.links < 0x10000 && n.size < TWO32 && n.sectors < TWO32
    && forall k :: 0 <= k < 15 ==> n.block[k] < TWO32
  }

  function PtrBytes(p: Ptrs): (s: seq<Byte>)
    requires forall k :: 0 <= k < 15 ==> p[k] < TWO32
    ensures |s| == 60
  {
    seq(60, j requires 0 <= j < 60 => Bytes4(p[j / 4])[j % 4])
  }

  lemma PtrBytesAt(p: Ptrs, k: nat)
    requires k < 15 && forall j :: 0 <= j < 15 ==> p[j] < TWO32
    ensures PtrBytes(p)[4 * k..4 * k + 4] == Bytes4(p[k])
  {
    hide Bytes4;
    var s := PtrBytes(p);
    forall i | 0 <= i < 4
      ensures s[4 * k..4 * k + 4][i] == Bytes4(p[k])[i]
    {
      assert (4 * k + i) / 4 == k && (4 * k + i) % 4 == i;
    }
  }

  /** The 128 bytes of an inode: the modelled fields, the others from `rest`. */
  function InodeBytes(n: Inode, rest: seq<Byte>): (s: seq<Byte>)
    requires InodeFits(n) && |rest| == 128
    ensures |s| == 128
  {
    Bytes2(ModeBits(n.mode)) + rest[2..4] + Bytes4(n.size) + rest[8..26] + Bytes2(n.links) + Bytes4(n.sectors)
    + rest[32..40] + PtrBytes(n.block) + rest[100..]
  }

  function ReadPtrs(b: Block, off: nat): (p: Ptrs)
    requires off + 128 <= 1024
    ensures forall k :: 0 <= k < 15 ==> p[k] == U32(b, off + 40 + 4 * k)
  {
    seq(15, k requires 0 <= k < 15 => U32(b, off + 40 + 4 * k))
  }

  function InodeAt(b: Block, off: nat): Inode
    requires off + 128 <= 1024
  {
    Inode(ReadMode(U16(b, off)), U16(b, off + 26), U32(b, off + 4), U32(b, off + 28), ReadPtrs(b, off))
  }

  lemma Pieces(n: Inode, rest: seq<Byte>)
    requires InodeFits(n) && |rest| == 128
    ensures var s := InodeBytes(n, rest);
      && s[0..2] == Bytes2(ModeBits(n.mode)) && s[4..8] == Bytes4(n.size) && s[26..28] == Bytes2(n.links)
      && s[28..32] == Bytes4(n.sectors) && s[40..100] == PtrBytes(n.block)
  {
    hide Bytes2, Bytes4, PtrBytes;
  }

  lemma Slice(s: seq<Byte>, a: nat, b: nat, j: nat)
    requires a + j + 4 <= b <= |s|
    ensures s[a + j..a + j + 4] == s[a..b][j..j + 4]
  {
    var t := s[a..b];
    assert s[a + j..a + j + 4] == [t[j], t[j + 1], t[j + 2], t[j + 3]] == t[j..j + 4];
  }

  lemma PointerReadsBack(b: Block, off: nat, n: Inode, rest: seq<Byte>, k: nat)
    requires off + 128 <= 1024 && InodeFits(n) && |rest| == 128 && k < 15
    ensures U32(Splice(b, off, InodeBytes(n, rest)), off + 40 + 4 * k) == n.block[k]
  {
    hide Le, Bytes4, Splice, PtrBytes, InodeBytes;
    var s := InodeBytes(n, rest);
    Pieces(n, rest);
    ReadBack4(b, off, s, 40 + 4 * k);
    Slice(s, 40, 100, 4 * k);
    PtrBytesAt(n.block, k);
    LeBytes4(n.block[k]);
  }

  /** An inode stored in its slot reads back as that inode. */
  lemma InodeReadsBack(b: Block, off: nat, n: Inode, rest: seq<Byte>)
    requires off + 128 <= 1024 && InodeFits(n) && |rest| == 128
    ensures InodeAt(Splice(b, off, InodeBytes(n, rest)), off) == n
  {
    hide Le, Bytes4, Bytes2, Splice, PtrBytes, InodeBytes, U16, U32;
    var s, c := InodeBytes(n, rest), Splice(b, off, InodeBytes(n, rest));
    Pieces(n, rest);
    ReadBack2(b, off, s, 0);
    ReadBack4(b, off, s, 4);
    ReadBack2(b, off, s, 26);
    ReadBack4(b, off, s, 28);
    LeBytes2(ModeBits(n.mode));
    LeBytes4(n.size);
    LeBytes2(n.links);
    LeBytes4(n.sectors);
    forall k | 0 <= k < 15
      ensures ReadPtrs(c, off)[k] == n.block[k]
    {
      PointerReadsBack(b, off, n, rest, k);
    }
    assert ReadPtrs(c, off) == n.block;
  }

  /** Storing in one slot leaves an inode elsewhere in the block as it was. */
  lemma InodeElsewhere(b: Block, off: nat, s: seq<Byte>, at: nat)
    requires off + |s| <= 1024 && at + 128 <= 1024 && (at + 128 <= off || off + |s| <= at)
    ensures InodeAt(Splice(b, off, s), at) == InodeAt(b, at)
  {
    hide Le;
    var c := Splice(b, off, s);
    assert forall i, j :: at <= i <= j <= at + 128 ==> c[i..j] == b[i..j];
    assert c[at..at + 2] == b[at..at + 2] && c[at + 26..at + 28] == b[at + 26..at + 28];
    assert c[at + 4..at + 8] == b[at + 4..at + 8] && c[at + 28..at + 32] == b[at + 28..at + 32];
    forall k | 0 <= k < 15
      ensures ReadPtrs(c, at)[k] == ReadPtrs(b, at)[k]
    {
      assert c[at + 40 + 4 * k..at + 44 + 4 * k] == b[at + 40 + 4 * k..at + 44 + 4 * k];
    }
    assert ReadPtrs(c, at) == ReadPtrs(b, at);
  }

  // --------------------------------------------------------------- the whole device

  /** All blocks of the volume. */
  ghost predicate DeviceOk(l: Layout, dev: seq<Block>) { Sound(l) && |dev| == l.blocks }

  lemma MetaInside(l: Layout)
    requires Sound(l)
    ensures l.sb < l.blocks && l.gd < l.blocks && l.bb < l.blocks && l.ib < l.blocks && l.it + l.itBlocks <= l.blocks
  {
    assert Start(l, 0) == l.sb && Start(l, 1) == l.gd && Start(l, 2) == l.bb && Start(l, 3) == l.ib;
    assert Start(l, 4) == l.it;
  }

  /** Where entry x of the inode table lies: its block and its offset there. */
  ghost function SlotBlock(l: Layout, x: nat): (b: nat)
    requires Sound(l) && x < l.inodes
    ensures l.it <= b < l.it + l.itBlocks && b < l.blocks
  {
    MetaInside(l);
    SlotPlace(l, x + 1);
    Place(l, InodeSlot(x + 1)).0
  }

  ghost function SlotOffset(l: Layout, x: nat): (off: nat)
    requires Sound(l) && x < l.inodes
    ensures off + 128 <= 1024
  {
    SlotPlace(l, x + 1);
    Place(l, InodeSlot(x + 1)).1
  }

  ghost function InodeTable(l: Layout, dev: seq<Block>): (t: seq<Inode>)
    requires DeviceOk(l, dev)
    ensures |t| == l.inodes
    ensures forall x :: 0 <= x < l.inodes ==> t[x] == InodeAt(dev[SlotBlock(l, x)], SlotOffset(l, x))
  {
    seq(l.inodes, x requires 0 <= x < l.inodes => InodeAt(dev[SlotBlock(l, x)], SlotOffset(l, x)))
  }

  ghost function DataAt(l: Layout, dev: seq<Block>, b: nat): Block
    requires b < |dev|
  {
    if b < l.firstData then Zero() else dev[b]
  }

  ghost function DataBlocks(l: Layout, dev: seq<Block>): (t: seq<Block>)
    requires DeviceOk(l, dev)
    ensures |t| == l.blocks && forall b :: 0 <= b < l.blocks ==> t[b] == DataAt(l, dev, b)
  {
    seq<Block>(l.blocks, b requires 0 <= b < l.blocks => DataAt(l, dev, b))
  }

  /** The volume the bytes describe. */
  ghost function Decode(l: Layout, dev: seq<Block>): Disk
    requires DeviceOk(l, dev)
  {
    MetaInside(l);
    Disk(ReadSuper(dev[l.sb]), ReadGroup(dev[l.gd]), BitMap(dev[l.bb]), BitMap(dev[l.ib]),
         InodeTable(l, dev), DataBlocks(l, dev))
  }

  /** A change to one block shows only in the parts that lie in it. */
  lemma OtherParts(l: Layout, dev: seq<Block>, b: nat, blk: Block)
    requires DeviceOk(l, dev) && b < l.blocks
    ensures var d, d' := Decode(l, dev), Decode(l, dev[b := blk]);
      && (b != l.sb ==> d'.sb == d.sb) && (b != l.gd ==> d'.gd == d.gd)
      && (b != l.bb ==> d'.bbm == d.bbm) && (b != l.ib ==> d'.ibm == d.ibm)
      && (!(l.it <= b < l.it + l.itBlocks) ==> d'.itab == d.itab)
      && (b < l.firstData ==> d'.data == d.data)
  {
    hide Sound, ReadSuper, ReadGroup, BitMap, InodeAt, SlotBlock, SlotOffset, InodeTable, DataBlocks;
    MetaInside(l);
    var after := dev[b := blk];
    if !(l.it <= b < l.it + l.itBlocks) {
      assert forall x :: 0 <= x < l.inodes ==> InodeTable(l, after)[x] == InodeTable(l, dev)[x];
      assert InodeTable(l, after) == InodeTable(l, dev);
    }
    if b < l.firstData { assert DataBlocks(l, after) == DataBlocks(l, dev); }
  }

  /** The five pieces of metadata are different blocks, none of them a data block. */
  lemma PiecesDiffer(l: Layout)
    requires Sound(l)
    ensures l.sb != l.gd && l.sb != l.bb && l.sb != l.ib && l.gd != l.bb && l.gd != l.ib && l.bb != l.ib
    ensures l.sb < l.firstData && l.gd < l.firstData && l.bb < l.firstData && l.ib < l.firstData
    ensures !(l.it <= l.sb < l.it + l.itBlocks) && !(l.it <= l.gd < l.it + l.itBlocks)
    ensures !(l.it <= l.bb < l.it + l.itBlocks) && !(l.it <= l.ib < l.it + l.itBlocks)
    ensures l.it + l.itBlocks <= l.firstData
  {
    assert Apart(Start(l, 0), Length(l, 0), Start(l, 1), Length(l, 1));
    assert Apart(Start(l, 0), Length(l, 0), Start(l, 2), Length(l, 2));
    assert Apart(Start(l, 0), Length(l, 0), Start(l, 3), Length(l, 3));
    assert Apart(Start(l, 0), Length(l, 0), Start(l, 4), Length(l, 4));
    assert Apart(Start(l, 1), Length(l, 1), Start(l, 2), Length(l, 2));
    assert Apart(Start(l, 1), Length(l, 1), Start(l, 3), Length(l, 3));
    assert Apart(Start(l, 1), Length(l, 1), Start(l, 4), Length(l, 4));
    assert Apart(Start(l, 2), Length(l, 2), Start(l, 3), Length(l, 3));
    assert Apart(Start(l, 2), Length(l, 2), Start(l, 4), Length(l, 4));
    assert Apart(Start(l, 3), Length(l, 3), Start(l, 4), Length(l, 4));
  }

  /** Writing the counts back changes the counts and nothing else. */
  lemma WriteSuperBytes(l: Layout, dev: seq<Block>, s: Super)
    requires DeviceOk(l, dev) && s.freeBlocks < TWO32 && s.freeInodes < TWO32
    ensures l.sb < |dev| && Decode(l, dev[l.sb := PutSuper(dev[l.sb], s)]) == Decode(l, dev).(sb := s)
  {
    hide Sound, PutSuper, ReadSuper, ReadGroup, BitMap, InodeTable, DataBlocks;
    MetaInside(l);
    PiecesDiffer(l);
    SuperReadsBack(dev[l.sb], s);
    OtherParts(l, dev, l.sb, PutSuper(dev[l.sb], s));
  }

  lemma WriteGroupBytes(l: Layout, dev: seq<Block>, g: Group)
    requires DeviceOk(l, dev) && g.freeBlocks < 0x10000 && g.freeInodes < 0x10000 && g.usedDirs < 0x10000
    ensures l.gd < |dev| && Decode(l, dev[l.gd := PutGroup(dev[l.gd], g)]) == Decode(l, dev).(gd := g)
  {
    hide Sound, PutGroup, ReadSuper, ReadGroup, BitMap, InodeTable, DataBlocks;
    MetaInside(l);
    PiecesDiffer(l);
    GroupReadsBack(dev[l.gd], g);
    OtherParts(l, dev, l.gd, PutGroup(dev[l.gd], g));
  }

  /** Marking a block or an inode changes that one bit of that one bitmap. */
  lemma WriteBlockBit(l: Layout, dev: seq<Block>, i: nat, on: bool)
    requires DeviceOk(l, dev) && i < 8192
    ensures l.bb < |dev|
      && Decode(l, dev[l.bb := PutBit(dev[l.bb], i, on)]) == Decode(l, dev).(bbm := Decode(l, dev).bbm[i := on])
  {
    hide Sound, PutBit, ReadSuper, ReadGroup, BitMap, InodeTable, DataBlocks;
    MetaInside(l);
    PiecesDiffer(l);
    BitMapPut(dev[l.bb], i, on);
    OtherParts(l, dev, l.bb, PutBit(dev[l.bb], i, on));
  }

  lemma WriteInodeBit(l: Layout, dev: seq<Block>, i: nat, on: bool)
    requires DeviceOk(l, dev) && i < 8192
    ensures l.ib < |dev|
      && Decode(l, dev[l.ib := PutBit(dev[l.ib], i, on)]) == Decode(l, dev).(ibm := Decode(l, dev).ibm[i := on])
  {
    hide Sound, PutBit, ReadSuper, ReadGroup, BitMap, InodeTable, DataBlocks;
    MetaInside(l);
    PiecesDiffer(l);
    BitMapPut(dev[l.ib], i, on);
    OtherParts(l, dev, l.ib, PutBit(dev[l.ib], i, on));
  }

  /** Writing an inode back into its slot changes that inode and no other. */
  lemma WriteInodeBytes(l: Layout, dev: seq<Block>, x: nat, n: Inode, rest: seq<Byte>)
    requires DeviceOk(l, dev) && x < l.inodes && InodeFits(n) && |rest| == 128
    ensures var b, off := SlotBlock(l, x), SlotOffset(l, x);
      Decode(l, dev[b := Splice(dev[b], off, InodeBytes(n, rest))]) ==
        Decode(l, dev).(itab := Decode(l, dev).itab[x := n])
  {
    hide Sound, ReadSuper, ReadGroup, BitMap, InodeTable, DataBlocks, InodeAt, InodeBytes, Splice, SlotBlock,
         SlotOffset;
    var b, off := SlotBlock(l, x), SlotOffset(l, x);
    var s := InodeBytes(n, rest);
    var after := dev[b := Splice(dev[b], off, s)];
    PiecesDiffer(l);
    OtherParts(l, dev, b, Splice(dev[b], off, s));
    InodeReadsBack(dev[b], off, n, rest);
    var t, t' := InodeTable(l, dev), InodeTable(l, after);
    forall y | 0 <= y < l.inodes
      ensures t'[y] == t[x := n][y]
    {
      if y != x && SlotBlock(l, y) == b {
        SlotsApart(l, x, y);
        InodeElsewhere(dev[b], off, s, SlotOffset(l, y));
      }
    }
    assert t' == t[x := n];
  }

  lemma SlotsApart(l: Layout, x: nat, y: nat)
    requires Sound(l) && x < l.inodes && y < l.inodes && x != y && SlotBlock(l, x) == SlotBlock(l, y)
    ensures SlotOffset(l, y) + 128 <= SlotOffset(l, x) || SlotOffset(l, x) + 128 <= SlotOffset(l, y)
  {
    PartsApart(l, InodeSlot(x + 1), InodeSlot(y + 1));
  }

  /** Writing a data block changes that block and nothing else. */
  lemma WriteDataBytes(l: Layout, dev: seq<Block>, b: nat, blk: Block)
    requires DeviceOk(l, dev) && l.firstData <= b < l.blocks
    ensures Decode(l, dev[b := blk]) == Decode(l, dev).(data := Decode(l, dev).data[b := blk])
  {
    hide Sound, ReadSuper, ReadGroup, BitMap, InodeTable;
    PiecesDiffer(l);
    MetaInside(l);
    OtherParts(l, dev, b, blk);
    assert DataBlocks(l, dev[b := blk]) == DataBlocks(l, dev)[b := blk];
  }
}
