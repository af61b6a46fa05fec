/** What create, mkdir and write do not promise, shown on volumes: under device faults a name
    can come twice, and a roll-back can lose an inode or leave a link count off; and without any
    a write can lose the last block (kernel/ext2.c:573-591, 657-661, 1072-1078, 1239-1254). */
module Ext2Faults {
  import opened Machine
  import opened Ext2Blocks
  import opened Ext2Dirents
  import opened Ext2Disk
  import opened Ext2Content
  import opened Ext2Alloc
  import opened Ext2Space
  import opened Ext2Files
  import opened Ext2Dirs
  import opened Ext2DirAdd
  import opened Ext2FileOps
  import opened Ext2Create
  import opened Ext2Mkdir
  import opened Ext2Run

  lemma {:induction false} FailsOnce(fails: nat -> bool, k: nat, n: nat)
    requires forall j: nat :: fails(j) <==> j == k
    ensures Fails(fails, n) == if n > k then 1 else 0
  {
    if n > 0 { FailsOnce(fails, k, n - 1); }
  }

  lemma {:induction false} FailsNever(fails: nat -> bool, n: nat)
    requires forall j: nat :: !fails(j)
    ensures Fails(fails, n) == 0
  {
    if n > 0 { FailsNever(fails, n - 1); }
  }

  /** On every volume with room, if just the read of the directory's first block during
      the lookup fails, create adds any name already there once more. */
  method AddTwice(g: Geo, d: Disk, ghost live: set<nat>, ghost owner: Owner, dir: nat, name: Name)
    returns (m: Mount, ino: nat)
    requires Inv(g, d, live, owner) && d.gd.usedDirs <= g.inodes && dir in live && d.itab[dir - 1].IsDir()
    requires InodeOk(g, d, dir) && DirOk(g, d, live, dir) && Find(Listing(g, d, live, dir), name) != 0
    requires !NoInode(g, d, d.sb, d.gd) && !NoPlace(g, d, d.sb, d.gd, d.itab[dir - 1], name)
    ensures m.Valid() && m.g == g && m.faults == 1 && m.refusals == 0
    ensures ino != 0 && m.live == live + {ino} && m.disk.itab[ino - 1] == NEW_FILE
    ensures InodeOk(g, m.disk, dir) && DirOk(g, m.disk, m.live, dir) && !DistinctNames(Listing(g, m.disk, m.live, dir))
    ensures Inserted(Listing(g, d, live, dir), Listing(g, m.disk, m.live, dir), Entry(name, ino))
  {
    hide Inv, NoInode, NoPlace, Listing, DirOk, Quiet, Clear, Safe, Clean, Find, DistinctNames;
    m := new Mount(g, d, k => k == 1, k => false, live, owner);
    FirstBlockHidden(g, d, live, dir, name, m.readFails);
    ino := Create(m, dir, name);
    FailsOnce(m.readFails, 1, m.nreads);
    FailsNever(m.writeFails, m.nwrites);
  }

  lemma FirstBlockHidden(g: Geo, d: Disk, live: set<nat>, dir: nat, name: Name, fails: nat -> bool)
    requires InodeOk(g, d, dir) && DirOk(g, d, live, dir) && Find(Listing(g, d, live, dir), name) != 0 && fails(1)
    ensures Hidden(g, d, dir, name, fails, 0)
  {
    var n := d.itab[dir - 1];
    DirReadable(g, d, live, dir);
    assert BlindAt(g, n, d.data, name, fails, 1, 0);
  }

  /** On every volume where an inode is free but the name has no place, if just the write
      fails that should clear the inode's mark again, the mark stays although no inode was made. */
  method LoseInode(g: Geo, d: Disk, ghost live: set<nat>, ghost owner: Owner, dir: nat, name: Name) returns (m: Mount)
    requires Inv(g, d, live, owner) && d.gd.usedDirs <= g.inodes && dir in live && d.itab[dir - 1].IsDir()
    requires InodeOk(g, d, dir) && DirOk(g, d, live, dir) && Find(Listing(g, d, live, dir), name) == 0
    requires !NoInode(g, d, d.sb, d.gd) && NoPlace(g, d, d.sb, d.gd, d.itab[dir - 1], name)
    ensures m.Valid() && m.g == g && m.live == live && m.faults == m.refusals == 1
    ensures !EqualInUse(g, d, m.disk)
  {
    hide Inv, NoInode, NoPlace, Listing, DirOk, Quiet, Clear, Safe, Find;
    m := new Mount(g, d, k => false, k => k == 4, live, owner);
    var ino := Create(m, dir, name);
    FailsOnce(m.writeFails, 4, m.nwrites);
    FailsNever(m.readFails, m.nreads);
  }

  /** On every volume where an inode and a block are free but the name has no place once they
      are taken, if just the write fails that should take back the parent's link, the parent
      keeps counting a directory that was not made. */
  method LoseLink(g: Geo, d: Disk, ghost live: set<nat>, ghost owner: Owner, dir: nat, name: Name)
    returns (m: Mount, ok: bool)
    requires Inv(g, d, live, owner) && d.gd.usedDirs < g.inodes && dir in live && d.itab[dir - 1].IsDir()
    requires d.itab[dir - 1].links != 0xFFFF
    requires InodeOk(g, d, dir) && DirOk(g, d, live, dir) && Legal(name) && Find(Listing(g, d, live, dir), name) == 0
    requires !NoInode(g, d, d.sb, d.gd) && !NoBlock(g, d, d.sb, d.gd)
    requires NoPlaceNext(g, d, d.sb, d.gd, d.itab[dir - 1], name)
    ensures m.Valid() && m.g == g && m.live == live && m.faults == m.refusals == 1 && !ok
    ensures LinkTooMany(m.disk, dir, d.itab[dir - 1]) && !EqualInUse(g, d, m.disk)
  {
    hide Inv, NoInode, NoBlock, NoPlaceNext, Listing, DirOk, Backed, Clear, Safe, Find, Legal;
    m := new Mount(g, d, k => false, k => k == 12, live, owner);
    LiveFacts(g, d, live, owner, dir);
    var ino;
    ok, ino := Mkdir(m, dir, name);
    FailsOnce(m.writeFails, 12, m.nwrites);
    FailsNever(m.readFails, m.nreads);
  }

  /** A write without a fault that reports nothing written has taken a block for good exactly if one was
      left, the file needs a pointer table, and the table got it. */
  method WriteNothing(m: Mount, ino: nat, off: nat, buf: seq<Byte>) returns (wrote: nat)
    requires m.Valid() && ino in m.live && !m.disk.itab[ino - 1].IsDir() && buf != [] && off + |buf| <= MAX_BYTES
    modifies m`nreads, m`nwrites, m`faults, m`disk, m`history, m`sb, m`gd, m`refusals, m`owner
    ensures m.Valid() && HasInode(m.g, old(m.disk), ino)
    ensures m.faults == old(m.faults) && wrote == 0 ==>
              && m.disk.itab[ino - 1] == old(m.disk).itab[ino - 1] && Avail(m.g, m.disk, m.sb, m.gd) == 0
              && (old(Avail(m.g, m.disk, m.sb, m.gd)) > 0 <==>
                    old(Avail(m.g, m.disk, m.sb, m.gd)) == 1 && off / 1024 >= 12
                    && old(m.disk).itab[ino - 1].block[12] == 0)
    ensures m.faults == old(m.faults) ==>
              (wrote == 0 <==>
                 old(Avail(m.g, m.disk, m.sb, m.gd)) < LacksAt(m.g, old(m.disk), ino, off / 1024, off / 1024))
  {
    hide Inv, Overlaid, Clear, Safe, Avail, Fits, LacksAt, Lacking, Mount.Logged, Mount.Books, Mount.Agreed;
    assert InodeOk(m.g, m.disk, ino) by { LiveFacts(m.g, m.disk, m.live, m.owner, ino); }
    StuckNeeds(m.g, m.disk, m.sb, m.gd, ino, off);
    ghost var d0, sb0, gd0 := m.disk, m.sb, m.gd;
    wrote := WriteFile(m, ino, off, buf);
    if m.faults == old(m.faults) && wrote > 0 { FitsLess(m.g, d0, sb0, gd0, ino, off, wrote, 1); }
  }

  /** So on every volume with one block left: a write to a file without a table, past its direct blocks,
      takes that block and writes nothing, no access failing. */
  method LoseTable(g: Geo, d: Disk, ghost live: set<nat>, ghost owner: Owner, ino: nat, off: nat, buf: seq<Byte>)
    returns (m: Mount, wrote: nat)
    requires Inv(g, d, live, owner) && d.gd.usedDirs <= g.inodes && Avail(g, d, d.sb, d.gd) == 1
    requires ino in live && !d.itab[ino - 1].IsDir() && d.itab[ino - 1].block[12] == 0
    requires buf != [] && off / 1024 >= 12 && off + |buf| <= MAX_BYTES
    ensures m.Valid() && m.g == g && m.live == live && m.faults == 0 && wrote == 0
    ensures |m.disk.itab| == |d.itab| && m.disk.itab[ino - 1] == d.itab[ino - 1]
    ensures Avail(g, m.disk, m.sb, m.gd) == 0
  {
    hide Inv, Clear, Safe, Avail, LacksAt;
    m := new Mount(g, d, k => false, k => false, live, owner);
    LiveFacts(g, d, live, owner, ino);
    StuckNeeds(g, d, d.sb, d.gd, ino, off);
    wrote := WriteNothing(m, ino, off, buf);
    FailsNever(m.readFails, m.nreads);
    FailsNever(m.writeFails, m.nwrites);
    LiveFacts(g, m.disk, m.live, m.owner, ino);
  }

  // ------------------------------------------------------------------- on one volume

  /** A volume of 64 blocks and 16 inodes as just made, its root directory in block 8. */
  const SMALL: Geo := Geo(64, 16, 8)

  function SmallBlock(i: nat): Block
  {
    if i == 8 then Dots(ROOT, ROOT) else Zero()
  }

  function SmallDisk(): Disk
  {
    Disk(Super(55, 6), Group(55, 6, 1), seq(8192, i => i < 8 || 63 <= i), seq(8192, i => i < 10 || 16 <= i),
         seq(16, i => if i == ROOT - 1 then NewDir(8) else Inode(Mode(Other, 0), 0, 0, 0, NoPtrs())),
         seq<Block>(64, i requires i >= 0 => SmallBlock(i)))
  }

  lemma SmallIsMade()
    ensures SmallDisk().gd.usedDirs == 1 && SmallDisk().itab[ROOT - 1].IsDir() && JustMade(SMALL, SmallDisk())
    ensures !NoInode(SMALL, SmallDisk(), SmallDisk().sb, SmallDisk().gd)
  {
    assert SmallDisk().itab[ROOT - 1] == NewDir(8) && NewDir(8).IsDir();
    assert !SmallDisk().ibm[FIRST_INO - 1];
    assert SmallDisk().data[8] == SmallBlock(8);
  }

  /** The first block of a directory has room for any legal name. */
  lemma DotsRoom(ino: nat, parent: nat, n: nat)
    requires ino < TWO32 && parent < TWO32 && n <= 255
    ensures Room(Dots(ino, parent), 0, 1024, RecSize(n))
  {
    hide Header;
    var mid := Splice(Zero(), 0, Header(ino, 12, DOT));
    var b := Dots(ino, parent);
    WrittenRecord(Zero(), 0, 1024, ino, 12, DOT);
    SameRecord(mid, b, 0, 1024, 12, Entry(DOT, ino));
    WrittenRecord(mid, 12, 1024, parent, 1012, DOTDOT);
    assert NameLen(b, 12) == 2;
  }

  lemma MadeRoom(g: Geo, d: Disk, name: Name)
    requires JustMade(g, d)
    ensures NoPlace(g, d, d.sb, d.gd, d.itab[ROOT - 1], name) <==> |name| > 255
  {
    hide Room, Dots;
    if |name| <= 255 {
      DotsRoom(ROOT, ROOT, |name|);
      assert !Crammed(d, d.itab[ROOT - 1], 0, name);
    }
  }

  /** The names of a volume just made. */
  lemma MadeNames(g: Geo, d: Disk, name: Name)
    requires JustMade(g, d) && InodeOk(g, d, ROOT) && DirOk(g, d, {ROOT}, ROOT)
    ensures DistinctNames(Listing(g, d, {ROOT}, ROOT))
    ensures Find(Listing(g, d, {ROOT}, ROOT), name) != 0 <==> name == DOT || name == DOTDOT
  {
    hide Dots;
    NewDirListing(g, d, {ROOT}, ROOT, ROOT);
    FindHead(Entry(DOT, ROOT), [Entry(DOTDOT, ROOT)], name);
    FindHead(Entry(DOTDOT, ROOT), [], name);
    assert [Entry(DOT, ROOT), Entry(DOTDOT, ROOT)] == [Entry(DOT, ROOT)] + [Entry(DOTDOT, ROOT)];
    assert [Entry(DOTDOT, ROOT)] == [Entry(DOTDOT, ROOT)] + [];
  }

  /** 255 times the same letter. */
  function Letters(c: Byte): (s: Name)
    ensures |s| == 255 && forall i :: 0 <= i < 255 ==> s[i] == c
  {
    seq(255, i => c)
  }

  /** A directory block of two records that leaves no room for a third of that size. */
  function TightBlock(): Block
  {
    Splice(Splice(Zero(), 0, Header(ROOT, 500, Letters(97))), 500, Header(ROOT, 524, Letters(98)))
  }

  lemma TightRecords()
    ensures Record(TightBlock(), 0, 1024, 500, Entry(Letters(97), ROOT))
    ensures Record(TightBlock(), 500, 1024, 1024, Entry(Letters(98), ROOT))
  {
    hide Header, Letters, Record;
    var mid := Splice(Zero(), 0, Header(ROOT, 500, Letters(97)));
    WrittenRecord(Zero(), 0, 1024, ROOT, 500, Letters(97));
    SameRecord(mid, TightBlock(), 0, 1024, 500, Entry(Letters(97), ROOT));
    WrittenRecord(mid, 500, 1024, ROOT, 524, Letters(98));
  }

  lemma TightEntries()
    ensures BlockClosed(TightBlock(), {ROOT})
    ensures Entries(TightBlock(), 0, 1024) == [Entry(Letters(97), ROOT), Entry(Letters(98), ROOT)]
  {
    hide Chain, Entries, Letters, Record, TightBlock;
    var b := TightBlock();
    TightRecords();
    EntriesCons(b, 0, 1024, 500, Entry(Letters(97), ROOT));
    EntriesCons(b, 500, 1024, 1024, Entry(Letters(98), ROOT));
    ChainCons(b, 0, 1024, 500, Entry(Letters(97), ROOT));
    ChainCons(b, 500, 1024, 1024, Entry(Letters(98), ROOT));
    EntriesEnd(b, 1024);
  }

  lemma TightFull()
    ensures !Room(TightBlock(), 0, 1024, RecSize(255))
  {
    hide Letters, TightBlock;
    var b := TightBlock();
    TightRecords();
    assert |EntryAt(b, 500, 1024).name| == NameLen(b, 500);
  }

  /** The small volume with that block for its root directory and one block to be had. */
  function TightDisk(): Disk
  {
    SmallDisk().(sb := Super(1, 6), gd := Group(1, 6, 1), data := SmallDisk().data[8 := TightBlock()])
  }

  lemma TightFields()
    ensures var d := TightDisk();
            && Shape(SMALL, d) && d.sb == Super(1, 6) && d.gd == Group(1, 6, 1)
            && d.ibm[ROOT - 1] && !d.ibm[FIRST_INO - 1] && d.bbm[7] && !d.bbm[8]
            && d.itab[ROOT - 1] == NewDir(8) && d.data[8] == TightBlock()
  {
    hide TightBlock, Dots, NewDir;
  }

  lemma TightRoot()
    ensures RootOnly(SMALL, TightDisk()) && TightDisk().gd.usedDirs == 1
    ensures TightDisk().itab[ROOT - 1] == NewDir(8) && TightDisk().itab[ROOT - 1].IsDir()
  {
    hide TightBlock, TightDisk, Room, Entries, Chain;
    TightFields();
    TightEntries();
  }

  lemma TightRoom(d: Disk)
    requires d == TightDisk()
    ensures !NoInode(SMALL, d, d.sb, d.gd) && !NoBlock(SMALL, d, d.sb, d.gd)
    ensures NoPlaceNext(SMALL, d, d.sb, d.gd, NewDir(8), Letters(99))
  {
    hide TightBlock, TightDisk, Letters, Room, BlockClosed;
    TightFields();
    TightFull();
    assert !Marked(SMALL, d, 9);
    assert Crammed(d, NewDir(8), 0, Letters(99));
  }

  lemma TightNames(d: Disk)
    requires d == TightDisk() && InodeOk(SMALL, d, ROOT) && DirOk(SMALL, d, {ROOT}, ROOT)
    ensures Legal(Letters(99)) && Find(Listing(SMALL, d, {ROOT}, ROOT), Letters(99)) == 0
  {
    hide TightBlock, TightDisk, Letters, BlockClosed, Entries;
    TightFields();
    TightEntries();
    var a, b, c := Entry(Letters(97), ROOT), Entry(Letters(98), ROOT), Letters(99);
    assert EntriesUpTo(SMALL, NewDir(8), d.data, 0) == [];
    assert Listing(SMALL, d, {ROOT}, ROOT) == [a, b];
    assert c[0] != a.name[0] && c[0] != b.name[0];
    FindHead(a, [b], c);
    FindHead(b, [], c);
    assert [a, b] == [a] + [b] && [b] == [b] + [];
  }

  /** The third run on such a volume. */
  method OnTightVolume() returns (m: Mount, ok: bool)
    ensures m.Valid() && m.g == SMALL && m.faults == m.refusals == 1 && m.live == {ROOT} && !ok
    ensures LinkTooMany(m.disk, ROOT, NewDir(8)) && !EqualInUse(SMALL, TightDisk(), m.disk)
  {
    hide Inv, NoInode, NoBlock, NoPlaceNext, RootOnly, TightDisk, Letters, Legal, Safe, Find, Listing, EqualInUse;
    var d := TightDisk();
    TightRoot();
    TightRoom(d);
    RootInv(SMALL, d);
    ghost var owner: Owner := map[SMALL.firstData := (ROOT, 0)];
    DirPointer(SMALL, d, {ROOT}, owner, ROOT, 0);
    TightNames(d);
    m, ok := LoseLink(SMALL, d, {ROOT}, owner, ROOT, Letters(99));
  }

  /** The small volume with an empty file and one block to be had. */
  function LastDisk(): Disk
  {
    var d := SmallDisk();
    d.(sb := Super(1, 5), gd := Group(1, 5, 1), ibm := d.ibm[FIRST_INO - 1 := true],
       itab := d.itab[FIRST_INO - 1 := NEW_FILE])
  }

  lemma LastIsSafe(owner: Owner)
    requires owner == map[SMALL.firstData := (ROOT, 0)]
    ensures Inv(SMALL, LastDisk(), {ROOT, FIRST_INO}, owner) && LastDisk().gd.usedDirs == 1
    ensures LastDisk().itab[FIRST_INO - 1] == NEW_FILE && NEW_FILE.block[12] == 0 && !NEW_FILE.IsDir()
    ensures Avail(SMALL, LastDisk(), LastDisk().sb, LastDisk().gd) == 1
  {
    hide Dots, Clear, Inv, ClearData;
    var d := LastDisk();
    SmallIsMade();
    DotsEntries(ROOT, ROOT);
    assert d.itab[ROOT - 1] == SmallDisk().itab[ROOT - 1];
    assert RootOnly(SMALL, d);
    RootInv(SMALL, d);
    assert InodeOk(SMALL, d, FIRST_INO);
    InvAdoptFile(SMALL, d, {ROOT}, owner, FIRST_INO);
    assert {ROOT} + {FIRST_INO} == {ROOT, FIRST_INO};
    assert !Marked(SMALL, d, 9);
    AvailNone(SMALL, d, d.sb, d.gd);
  }

  /** The write that loses it. */
  method OnLastBlock() returns (m: Mount, wrote: nat)
    ensures m.Valid() && m.g == SMALL && m.faults == 0 && wrote == 0 && m.live == {ROOT, FIRST_INO}
    ensures Avail(SMALL, LastDisk(), LastDisk().sb, LastDisk().gd) == 1 && Avail(SMALL, m.disk, m.sb, m.gd) == 0
    ensures |m.disk.itab| >= FIRST_INO && m.disk.itab[FIRST_INO - 1] == NEW_FILE
  {
    hide Inv, Avail, LastDisk, NEW_FILE;
    var d := LastDisk();
    ghost var owner: Owner := map[SMALL.firstData := (ROOT, 0)];
    LastIsSafe(owner);
    LiveFacts(SMALL, d, {ROOT, FIRST_INO}, owner, FIRST_INO);
    m, wrote := LoseTable(SMALL, d, {ROOT, FIRST_INO}, owner, FIRST_INO, 12288, [1]);
  }

  /** The first two runs on one volume. */
  method OnSmallVolume() returns (a: Mount, ino: nat, b: Mount)
    ensures a.Valid() && a.g == SMALL && a.faults == 1 && ino != 0 && a.live == {ROOT, ino}
    ensures InodeOk(SMALL, a.disk, ROOT) && DirOk(SMALL, a.disk, a.live, ROOT)
    ensures !DistinctNames(Listing(SMALL, a.disk, a.live, ROOT))
    ensures b.Valid() && b.g == SMALL && b.faults == b.refusals == 1 && b.live == {ROOT}
    ensures !EqualInUse(SMALL, SmallDisk(), b.disk)
  {
    hide Inv, Healthy, Tree, NoInode, NoPlace, Dots, Safe, DistinctNames, SmallDisk, JustMade;
    var d := SmallDisk();
    SmallIsMade();
    FreshVolume(SMALL, d);
    ghost var owner: Owner := map[SMALL.firstData := (ROOT, 0)];
    DirPointer(SMALL, d, {ROOT}, owner, ROOT, 0);
    var long := seq(256, i => 97);
    MadeRoom(SMALL, d, DOT);
    MadeRoom(SMALL, d, long);
    MadeNames(SMALL, d, DOT);
    MadeNames(SMALL, d, long);
    a, ino := AddTwice(SMALL, d, {ROOT}, owner, ROOT, DOT);
    b := LoseInode(SMALL, d, {ROOT}, owner, ROOT, long);
  }
}
