/** The volume as its users see it: files as byte sequences, directories as
    lists of entries, over any sequence of operations and device faults. */
module Ext2Run {
  import opened Machine
  import opened Ext2Blocks
  import opened Ext2Dirents
  import opened Ext2Disk
  import opened Ext2Content
  import opened Ext2Alloc
  import opened Ext2Pending
  import opened Ext2Space
  import opened Ext2Files
  import opened Ext2Write
  import opened Ext2FileOps
  import opened Ext2Dirs
  import opened Ext2DirAdd
  import opened Ext2Create
  import opened Ext2Mkdir

  datatype Item = FileItem(bytes: seq<Byte>) | DirItem(entries: seq<Entry>)

  /** What inode i holds. */
  ghost function ItemOf(g: Geo, d: Disk, live: set<nat>, i: nat): Item
    requires InodeOk(g, d, i) && (d.itab[i - 1].IsDir() ==> DirOk(g, d, live, i))
  {
    if d.itab[i - 1].IsDir() then DirItem(Listing(g, d, live, i)) else FileItem(Contents(g, d, i))
  }

  ghost predicate TreeOk(g: Geo, d: Disk, live: set<nat>)
  {
    && LiveOk(g, d, live)
    && forall i :: i in live && d.itab[i - 1].IsDir() ==> DirOk(g, d, live, i)
  }

  /** The whole tree: what every live inode holds. */
  ghost function Tree(g: Geo, d: Disk, live: set<nat>): map<nat, Item>
    requires TreeOk(g, d, live)
  {
    map i | i in live :: ItemOf(g, d, live, i)
  }

  /** The sector count is exact, files read zero past their end, names in a directory are distinct. */
  ghost predicate Health(g: Geo, d: Disk, live: set<nat>, i: nat)
    requires InodeOk(g, d, i) && (d.itab[i - 1].IsDir() ==> DirOk(g, d, live, i))
  {
    && SectorsOk(g, d, i)
    && (if d.itab[i - 1].IsDir() then DistinctNames(Listing(g, d, live, i))
        else TailZero(g, d, i) && d.itab[i - 1].size <= MAX_BYTES)
  }

  ghost predicate Healthy(g: Geo, d: Disk, live: set<nat>)
  {
    TreeOk(g, d, live) && forall i :: i in live ==> Health(g, d, live, i)
  }

  lemma InvTree(g: Geo, d: Disk, live: set<nat>, owner: Owner)
    requires Inv(g, d, live, owner)
    ensures TreeOk(g, d, live)
  {}

  /** An untouched node holds what it held and stays healthy. */
  lemma SameNodeItem(g: Geo, d: Disk, d': Disk, live: set<nat>, live': set<nat>, i: nat)
    requires TreeOk(g, d, live) && TreeOk(g, d', live') && i in live && i in live' && SameNode(g, d, d', i)
    ensures d'.itab[i - 1].IsDir() == d.itab[i - 1].IsDir()
    ensures ItemOf(g, d', live', i) == ItemOf(g, d, live, i)
    ensures Health(g, d, live, i) ==> Health(g, d', live', i)
  {
    hide BlockClosed;
    assert InodeOk(g, d, i) && InodeOk(g, d', i);
    forall k | 0 <= k < SLOTS
      ensures Ptr(g, d', i, k) == Ptr(g, d, i, k)
    {
      SameNodePtr(g, d, d', i, k);
    }
    CountSame(g, d, d', i, SLOTS);
    if d.itab[i - 1].IsDir() {
      SameListing(g, d, d', live, live', i);
    } else {
      SameNodeContents(g, d, d', i);
    }
  }

  lemma SameListing(g: Geo, d: Disk, d': Disk, live: set<nat>, live': set<nat>, i: nat)
    requires InodeOk(g, d, i) && InodeOk(g, d', i) && DirOk(g, d, live, i) && DirOk(g, d', live', i)
    requires SameNode(g, d, d', i)
    ensures Listing(g, d', live', i) == Listing(g, d, live, i)
  {
    var n := d.itab[i - 1];
    forall c | 0 <= c < DirBlocks(n)
      ensures d'.data[n.block[c]] == d.data[n.block[c]]
    {
      assert Ptr(g, d, i, c) == n.block[c];
    }
    SameUpTo(g, n, n, d.data, d'.data, DirBlocks(n));
  }

  /** If only node i (and new nodes) changed, the tree changes only there. */
  lemma TreeBut(g: Geo, d: Disk, d': Disk, live: set<nat>, live': set<nat>, s: set<nat>)
    requires TreeOk(g, d, live) && TreeOk(g, d', live') && live <= live'
    requires Quiet(g, d, d', live - s)
    ensures forall j :: j in live - s ==> Tree(g, d', live')[j] == Tree(g, d, live)[j]
    ensures forall j :: j in live - s ==> d'.itab[j - 1].IsDir() == d.itab[j - 1].IsDir()
    ensures forall j :: j in live - s && Health(g, d, live, j) ==> Health(g, d', live', j)
  {
    forall j | j in live - s
      ensures Tree(g, d', live')[j] == Tree(g, d, live)[j]
      ensures d'.itab[j - 1].IsDir() == d.itab[j - 1].IsDir()
      ensures Health(g, d, live, j) ==> Health(g, d', live', j)
    {
      SameNodeItem(g, d, d', live, live', j);
    }
  }

  /** One changed node: the rest of the tree and its health carry over. */
  lemma TreeUpdate(g: Geo, d: Disk, d': Disk, live: set<nat>, i: nat)
    requires TreeOk(g, d, live) && TreeOk(g, d', live) && i in live && Quiet(g, d, d', live - {i})
    requires Health(g, d', live, i)
    ensures Tree(g, d', live) == Tree(g, d, live)[i := ItemOf(g, d', live, i)]
    ensures Healthy(g, d, live) ==> Healthy(g, d', live)
  {
    hide Health, Listing, Contents, DirOk, SameNode;
    TreeBut(g, d, d', live, live, {i});
    forall j | j in live && Healthy(g, d, live)
      ensures Health(g, d', live, j)
    {
      if j != i { assert j in live - {i} && Health(g, d, live, j); }
    }
  }

  /** No changed node: the tree is the same. */
  lemma TreeSame(g: Geo, d: Disk, d': Disk, live: set<nat>)
    requires TreeOk(g, d, live) && TreeOk(g, d', live) && Quiet(g, d, d', live)
    ensures Tree(g, d', live) == Tree(g, d, live)
    ensures Healthy(g, d, live) ==> Healthy(g, d', live)
  {
    hide Health, Listing, Contents, DirOk, SameNode;
    assert live - {} == live;
    TreeBut(g, d, d', live, live, {});
    forall j | j in live && Healthy(g, d, live)
      ensures Health(g, d', live, j)
    {
      assert Health(g, d, live, j);
    }
  }

  // ---------------------------------------------------------------------- write

  function Written(was: seq<Byte>, off: nat, s: seq<Byte>): seq<Byte>
  {
    if s == [] then was else Paste(was, off, s)
  }

  lemma WriteItem(g: Geo, d: Disk, d': Disk, live: set<nat>, i: nat, off: nat, s: seq<Byte>)
    requires TreeOk(g, d, live) && TreeOk(g, d', live) && i in live && !d.itab[i - 1].IsDir() && !d'.itab[i - 1].IsDir()
    requires Health(g, d, live, i) && SectorsOk(g, d', i) && off + |s| <= MAX_BYTES && s != []
    requires Overlaid(g, d, d', live, i, off, s) && d'.itab[i - 1].size == Max(d.itab[i - 1].size, off + |s|)
    ensures ItemOf(g, d', live, i) == FileItem(Written(ItemOf(g, d, live, i).bytes, off, s))
    ensures Health(g, d', live, i) && Quiet(g, d, d', live - {i})
  {
    WrittenContents(g, d, d', live, i, off, s);
  }

  lemma NothingItem(g: Geo, d: Disk, d': Disk, live: set<nat>, i: nat, off: nat)
    requires TreeOk(g, d, live) && TreeOk(g, d', live) && i in live && !d.itab[i - 1].IsDir()
    requires Mixed(g, d, d', live, i, off, []) && Anchored(g, d, d', i)
    ensures ItemOf(g, d', live, i) == ItemOf(g, d, live, i)
    ensures Health(g, d, live, i) ==> Health(g, d', live, i)
    ensures Quiet(g, d, d', live - {i})
  {
    hide Listing, DirOk, SameNode;
    assert forall x :: 0 <= x < MAX_BYTES ==> ByteAt(g, d', i, x) == ByteAt(g, d, i, x);
    forall k | 0 <= k < SLOTS
      ensures Ptr(g, d', i, k) == Ptr(g, d, i, k)
    {}
    CountSame(g, d, d', i, SLOTS);
    assert Contents(g, d', i) == Contents(g, d, i);
  }

  /** The file reads zero past its end and is no longer than files can be. */
  ghost predicate Tidy(g: Geo, d: Disk, i: nat)
  {
    HasInode(g, d, i) && TailZero(g, d, i) && d.itab[i - 1].size <= MAX_BYTES
  }

  /** Only item i differs, a file before and after. */
  ghost predicate FileChanged(t: map<nat, Item>, t': map<nat, Item>, i: nat)
  {
    i in t && t[i].FileItem? && i in t' && t'[i].FileItem? && t' == t[i := t'[i]]
  }

  /** File i holds s at off and elsewhere what it held; between its old end and off it may hold anything. */
  ghost predicate Laid(t: map<nat, Item>, t': map<nat, Item>, i: nat, off: nat, s: seq<Byte>)
  {
    && FileChanged(t, t', i)
    && var was, now := t[i].bytes, t'[i].bytes;
       && |now| == Max(|was|, off + |s|)
       && (forall x :: off <= x < off + |s| ==> now[x] == s[x - off])
       && (forall x :: 0 <= x < |was| && !(off <= x < off + |s|) ==> now[x] == was[x])
  }

  /** Each byte of file i is the one it was or the one asked for. */
  ghost predicate Blended(t: map<nat, Item>, t': map<nat, Item>, i: nat, off: nat, s: seq<Byte>)
  {
    && FileChanged(t, t', i)
    && var was, now := t[i].bytes, t'[i].bytes;
       && |now| == |was|
       && (forall x :: 0 <= x < |was| ==> now[x] == was[x] || (off <= x < off + |s| && now[x] == s[x - off]))
  }

  /** What a write does to the tree, whatever the device did. */
  lemma WriteTree(g: Geo, d: Disk, d': Disk, live: set<nat>, i: nat, off: nat, buf: seq<Byte>, n: nat)
    requires TreeOk(g, d, live) && TreeOk(g, d', live) && i in live && !d.itab[i - 1].IsDir() && !d'.itab[i - 1].IsDir()
    requires n <= |buf|
    requires if n > 0 then Overlaid(g, d, d', live, i, off, buf[..n]) && off + n <= MAX_BYTES
                           && d'.itab[i - 1].size == Max(d.itab[i - 1].size, off + n)
             else Mixed(g, d, d', live, i, off, buf)
    ensures n > 0 ==> Laid(Tree(g, d, live), Tree(g, d', live), i, off, buf[..n])
    ensures n == 0 ==> Blended(Tree(g, d, live), Tree(g, d', live), i, off, buf)
    ensures n > 0 && Tidy(g, d, i) ==>
              && Tidy(g, d', i) && Tree(g, d, live)[i].FileItem?
              && Tree(g, d', live) ==
                 Tree(g, d, live)[i := FileItem(Written(Tree(g, d, live)[i].bytes, off, buf[..n]))]
  {
    hide SameNode, DirOk, Listing, Health, Healthy;
    assert Quiet(g, d, d', live - {i});
    TreeBut(g, d, d', live, live, {i});
    var t, t' := Tree(g, d, live), Tree(g, d', live);
    assert t' == t[i := t'[i]];
    assert InodeOk(g, d, i) && InodeOk(g, d', i);
    assert t[i] == FileItem(Contents(g, d, i)) && t'[i] == FileItem(Contents(g, d', i));
    if n > 0 && Tidy(g, d, i) { WrittenContents(g, d, d', live, i, off, buf[..n]); }
  }

  /** A write: the file becomes its old bytes overlaid with the bytes reported
      written, even if the device failed in between; nothing else changes. */
  method DoWrite(m: Mount, ino: nat, off: nat, buf: seq<Byte>) returns (n: nat)
    requires m.Valid() && TreeOk(m.g, m.disk, m.live) && ino in m.live && !m.disk.itab[ino - 1].IsDir()
    modifies m`nreads, m`nwrites, m`faults, m`disk, m`history, m`sb, m`gd, m`refusals, m`owner
    ensures old(m.history) <= m.history
    ensures m.Valid() && n <= |buf| && m.faults >= old(m.faults) && m.refusals >= old(m.refusals)
    ensures TreeOk(m.g, m.disk, m.live)
    ensures old(Healthy(m.g, m.disk, m.live)) && (n > 0 || m.faults == old(m.faults)) ==>
              && Healthy(m.g, m.disk, m.live)
              && old(Tree(m.g, m.disk, m.live))[ino].FileItem?
              && Tree(m.g, m.disk, m.live) ==
                 old(Tree(m.g, m.disk, m.live))[
                   ino := FileItem(Written(old(Tree(m.g, m.disk, m.live))[ino].bytes, off, buf[..n]))]
    // Without a fault a request past the largest file writes nothing, and any other stops short only on a full volume.
    ensures off + |buf| > MAX_BYTES ==> n == 0
    ensures m.faults == old(m.faults) && n < |buf| && off + |buf| <= MAX_BYTES ==>
              NoBlock(m.g, m.disk, m.sb, m.gd) && m.refusals > old(m.refusals)
    ensures m.faults == old(m.faults) && off + |buf| <= MAX_BYTES ==>
              FitsMost(m.g, old(m.disk), old(m.sb), old(m.gd), ino, off, |buf|, n)
    // Whatever the device did: what is reported written is there, and if nothing is, no byte is a third one.
    ensures n > 0 ==> Laid(old(Tree(m.g, m.disk, m.live)), Tree(m.g, m.disk, m.live), ino, off, buf[..n])
    ensures n == 0 ==> Blended(old(Tree(m.g, m.disk, m.live)), Tree(m.g, m.disk, m.live), ino, off, buf)
    ensures n > 0 && old(Tidy(m.g, m.disk, ino)) ==>
              && Tidy(m.g, m.disk, ino) && old(Tree(m.g, m.disk, m.live))[ino].FileItem?
              && Tree(m.g, m.disk, m.live) ==
                 old(Tree(m.g, m.disk, m.live))[
                   ino := FileItem(Written(old(Tree(m.g, m.disk, m.live))[ino].bytes, off, buf[..n]))]
    ensures m.faults == old(m.faults) ==> m.Books() == old(m.Books()) && (old(m.Agreed()) ==> m.Agreed())
    ensures forall j :: j in m.live ==> m.disk.itab[j - 1].IsDir() == old(m.disk.itab[j - 1].IsDir())
  {
    hide Inv, Health, Overlaid, Mixed, Anchored, ItemOf, DirOk, Clear, Safe, SectorsOk, NoBlock, FitsMost, Laid,
         Blended, Tidy, Avail, Lacking;
    ghost var d0 := m.disk;
    n := WriteFile(m, ino, off, buf);
    InvTree(m.g, m.disk, m.live, m.owner);
    WriteTree(m.g, d0, m.disk, m.live, ino, off, buf, n);
    WriteKinds(m.g, d0, m.disk, m.live, ino, off, buf, n);
    if Healthy(m.g, d0, m.live) && (n > 0 || m.faults == old(m.faults)) {
      assert Health(m.g, d0, m.live, ino);
      HealthSectors(m.g, d0, m.live, ino);
      if n > 0 {
        WriteItem(m.g, d0, m.disk, m.live, ino, off, buf[..n]);
      } else {
        NothingItem(m.g, d0, m.disk, m.live, ino, off);
      }
      TreeUpdate(m.g, d0, m.disk, m.live, ino);
      FileHere(m.g, d0, m.live, ino);
    }
  }

  lemma HealthSectors(g: Geo, d: Disk, live: set<nat>, i: nat)
    requires TreeOk(g, d, live) && i in live && Health(g, d, live, i)
    ensures SectorsOk(g, d, i)
  {}

  lemma FileHere(g: Geo, d: Disk, live: set<nat>, i: nat)
    requires TreeOk(g, d, live) && i in live && !d.itab[i - 1].IsDir()
    ensures Tree(g, d, live)[i].FileItem?
  {}

  lemma WriteKinds(g: Geo, d: Disk, d': Disk, live: set<nat>, i: nat, off: nat, buf: seq<Byte>, n: nat)
    requires TreeOk(g, d, live) && TreeOk(g, d', live) && i in live && d'.itab[i - 1].mode == d.itab[i - 1].mode
    requires n <= |buf|
    requires if n > 0 then Overlaid(g, d, d', live, i, off, buf[..n]) else Mixed(g, d, d', live, i, off, buf)
    ensures forall j :: j in live ==> d'.itab[j - 1].IsDir() == d.itab[j - 1].IsDir()
  {
    forall j | j in live
      ensures d'.itab[j - 1].IsDir() == d.itab[j - 1].IsDir()
    {
      if j != i { assert SameNode(g, d, d', j); }
    }
  }

  // ------------------------------------------------------------------- truncate

  /** Truncation empties the file; when it fails nothing has happened. */
  method DoTruncate(m: Mount, ino: nat) returns (ok: bool)
    requires m.Valid() && TreeOk(m.g, m.disk, m.live) && ino in m.live && !m.disk.itab[ino - 1].IsDir()
    modifies m`nreads, m`nwrites, m`faults, m`disk, m`history, m`sb, m`gd
    ensures old(m.history) <= m.history
    ensures m.Valid() && m.faults >= old(m.faults) && TreeOk(m.g, m.disk, m.live)
    ensures m.faults == old(m.faults) ==> ok
    ensures Tree(m.g, m.disk, m.live) ==
              if ok then old(Tree(m.g, m.disk, m.live))[ino := FileItem([])] else old(Tree(m.g, m.disk, m.live))
    ensures old(Healthy(m.g, m.disk, m.live)) ==> Healthy(m.g, m.disk, m.live)
    ensures m.faults == old(m.faults) ==> m.Books() == old(m.Books()) && (old(m.Agreed()) ==> m.Agreed())
    ensures forall j :: j in m.live ==> m.disk.itab[j - 1].IsDir() == old(m.disk.itab[j - 1].IsDir())
  {
    hide Inv, Health, ItemOf, DirOk, Clear, Safe, SectorsOk, TailZero, Contents, Marked, Holds, SameNode;
    ghost var d0 := m.disk;
    ok := Truncate(m, ino);
    InvTree(m.g, m.disk, m.live, m.owner);
    if ok {
      EmptyItem(m.g, m.disk, m.live, ino);
      TreeUpdate(m.g, d0, m.disk, m.live, ino);
    }
  }

  lemma EmptyItem(g: Geo, d: Disk, live: set<nat>, i: nat)
    requires TreeOk(g, d, live) && i in live && !d.itab[i - 1].IsDir()
    requires Contents(g, d, i) == [] && TailZero(g, d, i) && SectorsOk(g, d, i) && d.itab[i - 1].size == 0
    ensures ItemOf(g, d, live, i) == FileItem([]) && Health(g, d, live, i)
  {}

  // ------------------------------------------------------------ create and mkdir

  /** `t'` is `t` where directory `dir` gained an entry for the new node `c` holding `item`. */
  ghost predicate Grew(t: map<nat, Item>, t': map<nat, Item>, dir: nat, name: Name, c: nat, item: Item)
  {
    && dir in t && t[dir].DirItem? && c !in t && c != 0
    && exists l' :: Inserted(t[dir].entries, l', Entry(name, c))
                    && t' == t[dir := DirItem(l')][c := item]
  }

  /** The directory's view after it gained an entry. */
  lemma GainedItem(g: Geo, d: Disk, d': Disk, live: set<nat>, dir: nat, c: nat, e: Entry, dl: nat)
    requires TreeOk(g, d, live) && TreeOk(g, d', live + {c}) && dir in live && d.itab[dir - 1].IsDir()
    requires Gained(g, d, d', live, dir, c, e, dl)
    ensures d'.itab[dir - 1].IsDir()
    ensures ItemOf(g, d', live + {c}, dir).DirItem?
    ensures Inserted(ItemOf(g, d, live, dir).entries, ItemOf(g, d', live + {c}, dir).entries, e)
    ensures Health(g, d, live, dir) ==>
              (Health(g, d', live + {c}, dir) <==> Find(Listing(g, d, live, dir), e.name) == 0)
  {
    hide Inserted, SectorsOk, DistinctNames;
    var n := d.itab[dir - 1];
    UpToNonzero(g, n, d.data, DirBlocks(n));
    InsertedDistinctIff(Listing(g, d, live, dir), Listing(g, d', live + {c}, dir), e);
  }

  lemma GrewTree(g: Geo, d: Disk, d': Disk, live: set<nat>, dir: nat, c: nat, name: Name, dl: nat)
    requires TreeOk(g, d, live) && TreeOk(g, d', live + {c}) && dir in live && d.itab[dir - 1].IsDir()
    requires Gained(g, d, d', live, dir, c, Entry(name, c), dl) && c !in live && c != 0
    requires Health(g, d', live + {c}, c)
    ensures Grew(Tree(g, d, live), Tree(g, d', live + {c}), dir, name, c, ItemOf(g, d', live + {c}, c))
    ensures Healthy(g, d, live) ==> (Healthy(g, d', live + {c}) <==> Find(Listing(g, d, live, dir), name) == 0)
    ensures forall j :: j in live ==> d'.itab[j - 1].IsDir() == d.itab[j - 1].IsDir()
  {
    hide Inserted, Health, DirOk, SameNode, Listing;
    GainedItem(g, d, d', live, dir, c, Entry(name, c), dl);
    TreeBut(g, d, d', live, live + {c}, {dir});
    var t, t' := Tree(g, d, live), Tree(g, d', live + {c});
    forall j | j in live
      ensures d'.itab[j - 1].IsDir() == d.itab[j - 1].IsDir()
    {
      assert j == dir || j in live - {dir};
    }
    assert t' == t[dir := t'[dir]][c := t'[c]];
    if Healthy(g, d, live) { GrewHealthy(g, d, d', live, dir, c, name); }
  }

  lemma GrewHealthy(g: Geo, d: Disk, d': Disk, live: set<nat>, dir: nat, c: nat, name: Name)
    requires Healthy(g, d, live) && TreeOk(g, d', live + {c}) && dir in live && d.itab[dir - 1].IsDir()
    requires Quiet(g, d, d', live - {dir}) && Health(g, d', live + {c}, c)
    requires Health(g, d, live, dir) ==> (Health(g, d', live + {c}, dir) <==> Find(Listing(g, d, live, dir), name) == 0)
    ensures Healthy(g, d', live + {c}) <==> Find(Listing(g, d, live, dir), name) == 0
  {
    hide Health, DirOk, SameNode, Listing, Tree;
    TreeBut(g, d, d', live, live + {c}, {dir});
    assert Health(g, d, live, dir);
    forall j | j in live && j != dir
      ensures Health(g, d', live + {c}, j)
    {
      assert j in live - {dir} && Health(g, d, live, j);
    }
  }

  lemma NewFileItem(g: Geo, d: Disk, live: set<nat>, c: nat)
    requires TreeOk(g, d, live) && c in live && d.itab[c - 1] == NEW_FILE
    ensures ItemOf(g, d, live, c) == FileItem([]) && Health(g, d, live, c)
  {
    assert NEW_FILE == Inode(Mode(Regular, 0x1A4), 1, 0, 0, NoPtrs());
    assert forall k :: 0 <= k < SLOTS ==> Ptr(g, d, c, k) == 0;
    NoneCounted(g, d, c, SLOTS);
    assert forall x :: 0 <= x < MAX_BYTES ==> ByteAt(g, d, c, x) == 0;
  }

  lemma {:induction false} NoneCounted(g: Geo, d: Disk, i: nat, n: nat)
    requires HasInode(g, d, i) && n <= SLOTS
    requires forall k :: 0 <= k < n ==> Ptr(g, d, i, k) == 0
    ensures CountPtrs(g, d, i, n) == 0
  {
    if n > 0 { NoneCounted(g, d, i, n - 1); }
  }

  lemma {:induction false} OneCounted(g: Geo, d: Disk, i: nat, n: nat)
    requires HasInode(g, d, i) && 1 <= n <= SLOTS && Ptr(g, d, i, 0) != 0
    requires forall k :: 1 <= k < n ==> Ptr(g, d, i, k) == 0
    ensures CountPtrs(g, d, i, n) == 1
  {
    if n > 1 { OneCounted(g, d, i, n - 1); } else { assert CountPtrs(g, d, i, 0) == 0; }
  }

  lemma NewDirListing(g: Geo, d: Disk, live: set<nat>, c: nat, parent: nat)
    requires IsNewDir(g, d, c, parent) && 0 < parent && DirOk(g, d, live, c)
    ensures Listing(g, d, live, c) == [Entry(DOT, c), Entry(DOTDOT, parent)]
  {
    hide Dots, BlockClosed;
    var n := d.itab[c - 1];
    DotsEntries(c, parent);
    assert EntriesUpTo(g, n, d.data, 0) == [];
    assert EntriesUpTo(g, n, d.data, 1) == [Entry(DOT, c), Entry(DOTDOT, parent)];
  }

  lemma NewDirSectors(g: Geo, d: Disk, c: nat, parent: nat)
    requires IsNewDir(g, d, c, parent)
    ensures SectorsOk(g, d, c)
  {
    hide Dots;
    assert forall k :: 1 <= k < SLOTS ==> Ptr(g, d, c, k) == 0;
    OneCounted(g, d, c, SLOTS);
  }

  lemma NewDirItem(g: Geo, d: Disk, live: set<nat>, c: nat, parent: nat)
    requires TreeOk(g, d, live) && c in live && IsNewDir(g, d, c, parent) && 0 < parent
    ensures ItemOf(g, d, live, c) == DirItem([Entry(DOT, c), Entry(DOTDOT, parent)]) && Health(g, d, live, c)
  {
    hide Dots, Listing, SectorsOk, DirOk;
    NewDirListing(g, d, live, c, parent);
    NewDirSectors(g, d, c, parent);
  }

  /** Creating a file adds one empty file under a name that was free, or changes nothing. */
  method DoCreate(m: Mount, dir: nat, name: Name) returns (ino: nat)
    requires m.Valid() && TreeOk(m.g, m.disk, m.live) && dir in m.live && m.disk.itab[dir - 1].IsDir()
    modifies m`nreads, m`nwrites, m`faults, m`disk, m`history, m`sb, m`gd, m`refusals, m`live, m`owner
    ensures old(m.history) <= m.history
    ensures m.Valid() && m.faults >= old(m.faults) && TreeOk(m.g, m.disk, m.live) && old(m.live) <= m.live
    ensures old(Tree(m.g, m.disk, m.live))[dir].DirItem?
    ensures if ino == 0 then Tree(m.g, m.disk, m.live) == old(Tree(m.g, m.disk, m.live))
            else Grew(old(Tree(m.g, m.disk, m.live)), Tree(m.g, m.disk, m.live), dir, name, ino, FileItem([]))
                 && ino in m.live && !m.disk.itab[ino - 1].IsDir()
    ensures ino != 0 && m.faults == old(m.faults) ==> Find(old(Tree(m.g, m.disk, m.live))[dir].entries, name) == 0
    // Without a fault it succeeds exactly if the name is not taken and there is an inode and a place for the entry.
    ensures m.faults == old(m.faults) ==>
              (ino != 0 <==> Find(old(Tree(m.g, m.disk, m.live))[dir].entries, name) == 0
                             && old(!NoInode(m.g, m.disk, m.sb, m.gd))
                             && old(!NoPlace(m.g, m.disk, m.sb, m.gd, m.disk.itab[dir - 1], name)))
    ensures ino == 0 && m.faults == old(m.faults) && m.refusals == old(m.refusals) ==>
              Find(old(Tree(m.g, m.disk, m.live))[dir].entries, name) != 0
    ensures m.refusals >= old(m.refusals)
    // Names stay distinct exactly if the added one was not there.
    ensures old(Healthy(m.g, m.disk, m.live)) ==>
              (Healthy(m.g, m.disk, m.live) <==>
                 ino == 0 || Find(old(Tree(m.g, m.disk, m.live))[dir].entries, name) == 0)
    ensures m.faults == old(m.faults) ==> m.Books() == old(m.Books()) && (old(m.Agreed()) ==> m.Agreed())
    ensures forall j :: j in old(m.live) ==> m.disk.itab[j - 1].IsDir() == old(m.disk.itab[j - 1].IsDir())
  {
    hide Inv, Health, DirOk, Clear, Safe, SectorsOk, Contents, Listing, SameNode, Gained, NamesGained, EqualInUse,
         Healthy, Hidden, NoInode, NoPlace, Clean, LosesInode, Restored, Mount.Logged, Mount.Books, Mount.Agreed;
    ghost var d0, live0 := m.disk, m.live;
    ino := Create(m, dir, name);
    InvTree(m.g, m.disk, m.live, m.owner);
    if ino != 0 {
      NewFileItem(m.g, m.disk, m.live, ino);
      GrewTree(m.g, d0, m.disk, live0, dir, ino, name, 0);
    } else {
      TreeSame(m.g, d0, m.disk, m.live);
      QuietKinds(m.g, d0, m.disk, m.live);
    }
  }

  lemma QuietKinds(g: Geo, d: Disk, d': Disk, live: set<nat>)
    requires TreeOk(g, d, live) && TreeOk(g, d', live) && Quiet(g, d, d', live)
    ensures forall j :: j in live ==> d'.itab[j - 1].IsDir() == d.itab[j - 1].IsDir()
  {
    forall j | j in live
      ensures d'.itab[j - 1].IsDir() == d.itab[j - 1].IsDir()
    {
      assert SameNode(g, d, d', j);
    }
  }

  /** A failed mkdir at worst leaves the parent's link count off: the tree is as before. */
  lemma BackedTree(g: Geo, d: Disk, d': Disk, live: set<nat>, owner: Owner, dir: nat)
    requires Inv(g, d, live, owner) && dir in live && d.itab[dir - 1].IsDir()
    requires TreeOk(g, d, live) && TreeOk(g, d', live) && Backed(g, d, d', live, dir)
    ensures Tree(g, d', live) == Tree(g, d, live)
    ensures Healthy(g, d, live) ==> Healthy(g, d', live)
    ensures forall j :: j in live ==> d'.itab[j - 1].IsDir() == d.itab[j - 1].IsDir()
  {
    hide Inv, Health, SameNode, DirOk, Listing, SectorsOk, DistinctNames;
    SameButLinksView(g, d, d', live, owner, dir);
    TreeBut(g, d, d', live, live, {dir});
    BackedHealth(g, d, d', live, dir);
    forall j | j in live
      ensures d'.itab[j - 1].IsDir() == d.itab[j - 1].IsDir()
      ensures Tree(g, d', live)[j] == Tree(g, d, live)[j]
      ensures Healthy(g, d, live) ==> Health(g, d', live, j)
    {
      assert j == dir || j in live - {dir};
      if Healthy(g, d, live) { assert Health(g, d, live, j); }
    }
  }

  lemma BackedHealth(g: Geo, d: Disk, d': Disk, live: set<nat>, dir: nat)
    requires TreeOk(g, d, live) && TreeOk(g, d', live) && dir in live && d.itab[dir - 1].IsDir()
    requires d'.itab[dir - 1].IsDir() && Listing(g, d', live, dir) == Listing(g, d, live, dir)
    requires SectorsOk(g, d, dir) ==> SectorsOk(g, d', dir)
    ensures Health(g, d, live, dir) ==> Health(g, d', live, dir)
  {}

  /** Making a directory adds one directory holding its two dot entries, or changes nothing. */
  method DoMkdir(m: Mount, dir: nat, name: Name) returns (ok: bool, ino: nat)
    requires m.Valid() && TreeOk(m.g, m.disk, m.live) && dir in m.live && m.disk.itab[dir - 1].IsDir()
    modifies m`nreads, m`nwrites, m`faults, m`disk, m`history, m`sb, m`gd, m`refusals, m`live, m`owner
    ensures old(m.history) <= m.history
    ensures m.Valid() && m.faults >= old(m.faults) && TreeOk(m.g, m.disk, m.live) && old(m.live) <= m.live
    ensures old(Tree(m.g, m.disk, m.live))[dir].DirItem?
    ensures if !ok then Tree(m.g, m.disk, m.live) == old(Tree(m.g, m.disk, m.live))
            else Grew(old(Tree(m.g, m.disk, m.live)), Tree(m.g, m.disk, m.live), dir, name, ino,
                      DirItem([Entry(DOT, ino), Entry(DOTDOT, dir)]))
                 && ino in m.live && m.disk.itab[ino - 1].IsDir()
    ensures ok ==> Legal(name)
    ensures ok && m.faults == old(m.faults) ==> Find(old(Tree(m.g, m.disk, m.live))[dir].entries, name) == 0
    // Without a fault it succeeds exactly if the name is acceptable and not taken, the parent and the
    // group can count one more, and there is an inode, a block and a place for the entry.
    ensures m.faults == old(m.faults) ==>
              (ok <==> Legal(name) && Find(old(Tree(m.g, m.disk, m.live))[dir].entries, name) == 0
                       && old(Welcome(m.g, m.disk, m.sb, m.gd, m.disk.itab[dir - 1], name)))
    ensures !ok && m.faults == old(m.faults) && m.refusals == old(m.refusals) ==>
              || !Legal(name) || Find(old(Tree(m.g, m.disk, m.live))[dir].entries, name) != 0
              || old(m.disk).itab[dir - 1].links == 0xFFFF || old(m.gd).usedDirs >= m.g.inodes
    ensures m.refusals >= old(m.refusals)
    ensures old(Healthy(m.g, m.disk, m.live)) ==>
              (Healthy(m.g, m.disk, m.live) <==> !ok || Find(old(Tree(m.g, m.disk, m.live))[dir].entries, name) == 0)
    ensures m.faults == old(m.faults) ==> m.Books() == old(m.Books()) && (old(m.Agreed()) ==> m.Agreed())
    ensures forall j :: j in old(m.live) ==> m.disk.itab[j - 1].IsDir() == old(m.disk.itab[j - 1].IsDir())
  {
    hide Inv, Health, DirOk, Clear, Safe, SectorsOk, Contents, Listing, SameNode, Gained, NamesGained, EqualInUse,
         Healthy, IsNewDir, Backed, Missed, Restored, Welcome, LosesLink, LookupReads, Spare, Legal,
         Mount.Logged, Mount.Books, Mount.Agreed;
    ghost var d0, live0, owner0 := m.disk, m.live, m.owner;
    RangeOfLive(m.g, m.disk, m.live, m.owner, dir);
    ok, ino := Mkdir(m, dir, name);
    InvTree(m.g, m.disk, m.live, m.owner);
    if ok {
      RangeOfLive(m.g, m.disk, m.live, m.owner, ino);
      NewDirItem(m.g, m.disk, m.live, ino, dir);
      GrewTree(m.g, d0, m.disk, live0, dir, ino, name, 1);
    } else {
      BackedTree(m.g, d0, m.disk, m.live, owner0, dir);
    }
  }

  lemma RangeOfLive(g: Geo, d: Disk, live: set<nat>, owner: Owner, i: nat)
    requires Inv(g, d, live, owner) && i in live
    ensures 0 < i
  {}

  // ------------------------------------------------------------------- whole runs

  /** A node handed out to the rest of the kernel. Which operations it offers
      depends on `isDir`, fixed when the node is first made. */
  datatype Node = Node(ino: nat, isDir: bool)

  /** A mounted volume with its cache of nodes, one per inode. */
  class Volume {
    const m: Mount
    var cache: map<nat, Node>

    constructor (m: Mount)
      requires m.Valid()
      ensures this.m == m && Valid()
    {
      this.m := m;
      cache := map[ROOT := Node(ROOT, true)];
    }

    ghost predicate Valid()
      reads this, m
    {
      && m.Valid() && TreeOk(m.g, m.disk, m.live)
      && forall i :: i in cache ==>
           i in m.live && cache[i] == Node(i, m.disk.itab[i - 1].IsDir())
    }
  }

  /** Cached node of a live inode; made on first use. */
  method GetNode(v: Volume, ino: nat, isDir: bool) returns (node: Node)
    requires v.Valid() && ino in v.m.live && isDir == v.m.disk.itab[ino - 1].IsDir()
    modifies v`cache
    ensures v.Valid() && node == Node(ino, isDir) && v.cache == old(v.cache)[ino := node]
  {
    if ino in v.cache { return v.cache[ino]; }
    node := Node(ino, isDir);
    v.cache := v.cache[ino := node];
  }

  lemma ListedLive(g: Geo, n: Inode, data: seq<Block>, live: set<nat>, b: nat, e: Entry)
    requires b <= 12 && |data| == g.blocks
    requires forall c :: 0 <= c < b ==> n.block[c] < g.blocks && BlockClosed(data[n.block[c]], live)
    requires e in EntriesUpTo(g, n, data, b)
    ensures e.ino in live
  {
    hide Entries;
    if b > 0 && e in EntriesUpTo(g, n, data, b - 1) { ListedLive(g, n, data, live, b - 1, e); }
  }

  lemma FoundLive(g: Geo, d: Disk, live: set<nat>, dir: nat, name: Name)
    requires InodeOk(g, d, dir) && DirOk(g, d, live, dir) && Find(Listing(g, d, live, dir), name) != 0
    ensures Find(Listing(g, d, live, dir), name) in live
  {
    hide BlockClosed;
    var l := Listing(g, d, live, dir);
    FoundIsListed(l, name);
    ListedLive(g, d.itab[dir - 1], d.data, live, DirBlocks(d.itab[dir - 1]), Entry(name, Find(l, name)));
  }

  lemma FoundThere(g: Geo, d: Disk, live: set<nat>, dir: nat, name: Name)
    requires TreeOk(g, d, live) && dir in live && d.itab[dir - 1].IsDir()
    ensures Tree(g, d, live)[dir] == DirItem(Listing(g, d, live, dir))
    ensures Find(Listing(g, d, live, dir), name) != 0 ==> Find(Listing(g, d, live, dir), name) in live
  {
    if Find(Listing(g, d, live, dir), name) != 0 { FoundLive(g, d, live, dir, name); }
  }

  /** Look a name up in a directory node and hand out the node it names. */
  method FindDir(v: Volume, dir: nat, name: Name) returns (found: bool, node: Node)
    requires v.Valid() && dir in v.m.live && v.m.disk.itab[dir - 1].IsDir()
    modifies v`cache, v.m`nreads, v.m`faults
    ensures v.Valid() && v.m.faults >= old(v.m.faults)
    ensures Tree(v.m.g, v.m.disk, v.m.live)[dir].DirItem?
    ensures found ==> node.ino == Find(Tree(v.m.g, v.m.disk, v.m.live)[dir].entries, name)
                      && node.ino != 0 && node.ino in v.m.live
                      && node.isDir == Tree(v.m.g, v.m.disk, v.m.live)[node.ino].DirItem?
                      && v.cache == old(v.cache)[node.ino := node]
    ensures !found ==> v.cache == old(v.cache)
    // Without a fault it succeeds exactly if the name is there and stands for a file or a directory.
    ensures var i := Find(Tree(v.m.g, v.m.disk, v.m.live)[dir].entries, name);
            && (i != 0 ==> i in v.m.live)
            && (found ==> i != 0 && v.m.disk.itab[i - 1].mode.kind != Other)
            && (v.m.faults == old(v.m.faults) && !found ==> i == 0 || v.m.disk.itab[i - 1].mode.kind == Other)
  {
    hide Inv, DirOk, Listing, Safe, Mount.Logged, Mount.Books, Mount.Agreed;
    var m := v.m;
    found, node := false, Node(0, false);
    FoundThere(m.g, m.disk, m.live, dir, name);
    var ok, din := ReadInode(m, dir);
    if !ok { return; }
    if !PointersOk(m.g, din) { LivePointersOk(m.g, m.disk, m.live, m.owner, dir); return; }
    var ino := DirLookup(m, dir, din, name);
    if ino == 0 { return; }
    var n;
    ok, n := ReadInode(m, ino);
    if !ok || n.mode.kind == Other { return; }
    node := GetNode(v, ino, n.IsDir());
    found := true;
  }

  /** What the rest of the kernel may ask of the volume, on nodes it was handed. */
  datatype Op =
    | Read(ino: nat, off: nat, size: nat)
    | Write(ino: nat, off: nat, buf: seq<Byte>)
    | Cut(ino: nat)
    | Make(dir: nat, name: Name)
    | MakeDir(dir: nat, name: Name)
    | Look(dir: nat, name: Name)
    | List(dir: nat, index: nat)

  /** What it answers. `Absent` stands for a node that was not handed out or does not offer the operation. */
  datatype Reply =
    | Absent
    | Failed
    | Done
    | Bytes(bytes: seq<Byte>)
    | Count(n: nat)
    | Handed(node: Node)
    | Shows(name: Name, ino: nat)

  /** The volume: the tree its users see and the nodes they were handed, over the
      device and the counts kept in memory. */
  datatype State = State(tree: map<nat, Item>, nodes: map<nat, Node>, disk: Disk, sb: Super, gd: Group) {
    predicate File(i: nat) { i in nodes && !nodes[i].isDir }
    predicate Dir(i: nat) { i in nodes && nodes[i].isDir }

    /** The record of inode i. */
    function Record(i: nat): Inode { if 1 <= i <= |disk.itab| then disk.itab[i - 1] else NEW_FILE }

    /** The two are the same to their users. */
    predicate Alike(b: State) { b.tree == tree && b.nodes == nodes }
  }

  /** One operation as a step on the tree of files and directories, exact in its
      result: which requests are carried out, and how far a write gets, follows from
      the volume before. */
  ghost predicate Step(g: Geo, a: State, op: Op, r: Reply, b: State)
  {
    match op
    case Read(i, off, size) => b == a && if a.File(i) then Reads(a, i, off, size, r) else r == Absent
    case Write(i, off, buf) =>
      if a.File(i) then
        && r.Count? && Writes(a, i, off, buf, r.n, b)
        && (if off + |buf| > MAX_BYTES then r.n == 0 else FitsMost(g, a.disk, a.sb, a.gd, i, off, |buf|, r.n))
      else b == a && r == Absent
    case Cut(i) =>
      if a.File(i) then r == Done && a.(tree := a.tree[i := FileItem([])]).Alike(b) else b == a && r == Absent
    case Make(dir, name) =>
      if !a.Dir(dir) then b == a && r == Absent
      else if Taken(a, dir, name) || NoInode(g, a.disk, a.sb, a.gd)
              || NoPlace(g, a.disk, a.sb, a.gd, a.Record(dir), name)
      then a.Alike(b) && r == Failed
      else r.Handed? && !r.node.isDir && Makes(a, dir, name, r.node, FileItem([]), b)
    case MakeDir(dir, name) =>
      if !a.Dir(dir) then b == a && r == Absent
      else if !Legal(name) || Taken(a, dir, name) || !Welcome(g, a.disk, a.sb, a.gd, a.Record(dir), name)
      then a.Alike(b) && r == Failed
      else r == Done && exists c :: Makes(a, dir, name, Node(c, true), DirItem([Entry(DOT, c), Entry(DOTDOT, dir)]), b)
    case Look(dir, name) =>
      if !a.Dir(dir) then b == a && r == Absent
      else if Taken(a, dir, name) && a.Record(Find(a.tree[dir].entries, name)).mode.kind != Other
      then r.Handed? && Finds(a, dir, name, r.node, b)
      else b == a && r == Failed
    case List(dir, index) => b == a && if a.Dir(dir) then Lists(a, dir, index, r) else r == Absent
  }

  /** One operation under any faults: what it reports done is done, and what it does not is not
      begun, except that a write that reports nothing may have changed bytes it was to write. */
  ghost predicate Effect(g: Geo, a: State, op: Op, r: Reply, b: State)
  {
    match op
    case Read(i, off, size) =>
      b == a && if a.File(i) then r.Bytes? && ReadsPart(a, i, off, size, r.bytes) else r == Absent
    case Write(i, off, buf) =>
      if a.File(i) then
        && r.Count? && r.n <= |buf| && b.nodes == a.nodes
        && (if r.n > 0 then Laid(a.tree, b.tree, i, off, buf[..r.n]) else Blended(a.tree, b.tree, i, off, buf))
        && (r.n > 0 && Tidy(g, a.disk, i) ==> Tidy(g, b.disk, i) && Writes(a, i, off, buf, r.n, b))
      else b == a && r == Absent
    case Cut(i) =>
      if a.File(i)
      then (r == Done && a.(tree := a.tree[i := FileItem([])]).Alike(b)) || (r == Failed && a.Alike(b))
      else b == a && r == Absent
    case Make(dir, name) =>
      if !a.Dir(dir) then b == a && r == Absent
      else || (r == Failed && a.Alike(b))
           || (r.Handed? && !r.node.isDir && Makes(a, dir, name, r.node, FileItem([]), b))
    case MakeDir(dir, name) =>
      if !a.Dir(dir) then b == a && r == Absent
      else || (r == Failed && a.Alike(b))
           || (r == Done && Legal(name) &&
               exists c :: Makes(a, dir, name, Node(c, true), DirItem([Entry(DOT, c), Entry(DOTDOT, dir)]), b))
    case Look(dir, name) =>
      if !a.Dir(dir) then b == a && r == Absent
      else || (r == Failed && b == a)
           || (r.Handed? && Taken(a, dir, name) && Finds(a, dir, name, r.node, b))
    case List(dir, index) => b == a && if a.Dir(dir) then r == Failed || Lists(a, dir, index, r) else r == Absent
  }

  /** The bytes of the file from `off` on, at most `size` of them. */
  function Asked(s: seq<Byte>, off: nat, size: nat): seq<Byte>
  {
    if off >= |s| then [] else if size >= |s| - off then s[off..] else s[off..off + size]
  }

  ghost predicate Reads(a: State, i: nat, off: nat, size: nat, r: Reply)
  {
    i in a.tree && a.tree[i].FileItem? && r == Bytes(Asked(a.tree[i].bytes, off, size))
  }

  /** A leading part of what was asked for. */
  ghost predicate ReadsPart(a: State, i: nat, off: nat, size: nat, s: seq<Byte>)
  {
    i in a.tree && a.tree[i].FileItem? && s <= Asked(a.tree[i].bytes, off, size)
  }

  /** The first n bytes of `buf` are laid over the file at `off`. */
  ghost predicate Writes(a: State, i: nat, off: nat, buf: seq<Byte>, n: nat, b: State)
  {
    && i in a.tree && a.tree[i].FileItem? && n <= |buf|
    && a.(tree := a.tree[i := FileItem(Written(a.tree[i].bytes, off, buf[..n]))]).Alike(b)
  }

  ghost predicate Taken(a: State, dir: nat, name: Name)
  {
    dir in a.tree && a.tree[dir].DirItem? && Find(a.tree[dir].entries, name) != 0
  }

  ghost predicate Makes(a: State, dir: nat, name: Name, node: Node, item: Item, b: State)
  {
    && Grew(a.tree, b.tree, dir, name, node.ino, item)
    && b.nodes == a.nodes[node.ino := node]
  }

  /** The node the name stands for is handed out. */
  ghost predicate Finds(a: State, dir: nat, name: Name, node: Node, b: State)
    requires Taken(a, dir, name)
  {
    var i := Find(a.tree[dir].entries, name);
    i in a.tree && node == Node(i, a.tree[i].DirItem?) && b == a.(nodes := a.nodes[i := node])
  }

  /** Entry number `index`, its name as it is shown. */
  ghost predicate Lists(a: State, dir: nat, index: nat, r: Reply)
  {
    && dir in a.tree && a.tree[dir].DirItem?
    && var l := a.tree[dir].entries;
       r == if index < |l| then Shows(Shown(l[index].name), l[index].ino) else Failed
  }

  ghost function View(v: Volume): State
    requires TreeOk(v.m.g, v.m.disk, v.m.live)
    reads v, v.m
  {
    State(Tree(v.m.g, v.m.disk, v.m.live), v.cache, v.m.disk, v.m.sb, v.m.gd)
  }

  /** A read through a node handed out before. */
  method OnBytes(v: Volume, op: Op) returns (r: Reply)
    requires v.Valid() && op.Read?
    modifies v.m`nreads, v.m`faults
    ensures v.Valid() && v.m.faults >= old(v.m.faults)
    ensures Effect(v.m.g, old(View(v)), op, r, View(v))
    ensures v.m.faults == old(v.m.faults) ==> Step(v.m.g, old(View(v)), op, r, View(v))
  {
    hide Inv, DirOk, Clear, Safe, InodeOk, Contents, Mount.Logged;
    if op.ino !in v.cache || v.cache[op.ino].isDir { return Absent; }
    FileIs(v.m.g, v.m.disk, v.m.live, op.ino);
    var s := ReadFile(v.m, op.ino, op.off, op.size);
    AskedPart(Contents(v.m.g, v.m.disk, op.ino), op.off, op.size, s);
    r := Bytes(s);
  }

  lemma AskedPart(s: seq<Byte>, off: nat, size: nat, out: seq<Byte>)
    requires |out| <= size && (out != [] ==> off + |out| <= |s| && out == s[off..off + |out|])
    ensures out <= Asked(s, off, size)
  {}

  lemma FileIs(g: Geo, d: Disk, live: set<nat>, i: nat)
    requires TreeOk(g, d, live) && i in live && !d.itab[i - 1].IsDir()
    ensures HasInode(g, d, i) && Tree(g, d, live)[i] == FileItem(Contents(g, d, i))
  {}

  /** A write or a truncation through a node handed out before. */
  method OnFile(v: Volume, op: Op) returns (r: Reply)
    requires v.Valid() && (op.Write? || op.Cut?)
    modifies v.m`nreads, v.m`nwrites, v.m`faults, v.m`disk, v.m`history, v.m`sb, v.m`gd, v.m`refusals, v.m`owner
    ensures old(v.m.history) <= v.m.history
    ensures v.Valid() && v.m.faults >= old(v.m.faults) && v.m.refusals >= old(v.m.refusals)
    ensures Effect(v.m.g, old(View(v)), op, r, View(v))
    ensures v.m.faults == old(v.m.faults) && old(Healthy(v.m.g, v.m.disk, v.m.live)) ==>
              && Step(v.m.g, old(View(v)), op, r, View(v))
              && Healthy(v.m.g, v.m.disk, v.m.live)
              && v.m.Books() == old(v.m.Books()) && (old(v.m.Agreed()) ==> v.m.Agreed())
  {
    hide Inv, Healthy, ItemOf, DirOk, Clear, Safe, Written, InodeOk, NoBlock, FitsMost,
         Laid, Blended, Tidy, Mount.Logged, Mount.Books, Mount.Agreed;
    var m := v.m;
    if op.ino !in v.cache || v.cache[op.ino].isDir { return Absent; }
    match op
    case Write(i, off, buf) =>
      var n := DoWrite(m, i, off, buf);
      r := Count(n);
    case Cut(i) =>
      var ok := DoTruncate(m, i);
      r := if ok then Done else Failed;
  }

  /** A new file through a directory node handed out before. */
  method OnDir(v: Volume, op: Op) returns (r: Reply)
    requires v.Valid() && op.Make?
    modifies v`cache, v.m`nreads, v.m`nwrites, v.m`faults, v.m`disk, v.m`history, v.m`sb, v.m`gd, v.m`refusals,
             v.m`live, v.m`owner
    ensures old(v.m.history) <= v.m.history
    ensures v.Valid() && v.m.faults >= old(v.m.faults) && v.m.refusals >= old(v.m.refusals)
    ensures v.cache.Keys >= old(v.cache).Keys
    ensures Effect(v.m.g, old(View(v)), op, r, View(v))
    ensures v.m.faults == old(v.m.faults) && old(Healthy(v.m.g, v.m.disk, v.m.live)) ==>
              && Step(v.m.g, old(View(v)), op, r, View(v))
              && Healthy(v.m.g, v.m.disk, v.m.live)
              && v.m.Books() == old(v.m.Books()) && (old(v.m.Agreed()) ==> v.m.Agreed())
  {
    hide Inv, Healthy, ItemOf, DirOk, Clear, Safe, Grew, Find, InodeOk, NoInode, NoPlace, Mount.Logged, Mount.Books,
         Mount.Agreed;
    if op.dir !in v.cache || !v.cache[op.dir].isDir { return Absent; }
    ghost var a := View(v);
    RecordHere(v, op.dir);
    var c := DoCreate(v.m, op.dir, op.name);
    if c == 0 { return Failed; }
    var node := GetNode(v, c, false);
    r := Handed(node);
  }

  lemma RecordHere(v: Volume, i: nat)
    requires v.Valid() && i in v.m.live
    ensures 1 <= i <= |v.m.disk.itab| && View(v).Record(i) == v.m.disk.itab[i - 1]
  {
    assert InodeOk(v.m.g, v.m.disk, i);
  }

  /** A new directory through a directory node handed out before. */
  method OnParent(v: Volume, op: Op) returns (r: Reply)
    requires v.Valid() && op.MakeDir?
    modifies v`cache, v.m`nreads, v.m`nwrites, v.m`faults, v.m`disk, v.m`history, v.m`sb, v.m`gd, v.m`refusals,
             v.m`live, v.m`owner
    ensures old(v.m.history) <= v.m.history
    ensures v.Valid() && v.m.faults >= old(v.m.faults) && v.m.refusals >= old(v.m.refusals)
    ensures v.cache.Keys >= old(v.cache).Keys
    ensures Effect(v.m.g, old(View(v)), op, r, View(v))
    ensures v.m.faults == old(v.m.faults) && old(Healthy(v.m.g, v.m.disk, v.m.live)) ==>
              && Step(v.m.g, old(View(v)), op, r, View(v))
              && Healthy(v.m.g, v.m.disk, v.m.live)
              && v.m.Books() == old(v.m.Books()) && (old(v.m.Agreed()) ==> v.m.Agreed())
  {
    hide Inv, Healthy, ItemOf, DirOk, Clear, Safe, Grew, Find, InodeOk, Legal, Welcome, Mount.Logged, Mount.Books,
         Mount.Agreed;
    if op.dir !in v.cache || !v.cache[op.dir].isDir { return Absent; }
    ghost var a := View(v);
    RecordHere(v, op.dir);
    var ok, c := DoMkdir(v.m, op.dir, op.name);
    if !ok { return Failed; }
    var node := GetNode(v, c, true);
    r := Done;
    assert Makes(a, op.dir, op.name, Node(c, true), DirItem([Entry(DOT, c), Entry(DOTDOT, op.dir)]), View(v));
  }

  /** A listing through a directory node handed out before. */
  method OnEntry(v: Volume, op: Op) returns (r: Reply)
    requires v.Valid() && op.List?
    modifies v.m`nreads, v.m`faults
    ensures v.Valid() && v.m.faults >= old(v.m.faults)
    ensures Effect(v.m.g, old(View(v)), op, r, View(v))
    ensures v.m.faults == old(v.m.faults) ==> Step(v.m.g, old(View(v)), op, r, View(v))
  {
    hide Inv, Healthy, DirOk, Clear, Safe, Find, InodeOk, Listing, Mount.Logged;
    if op.dir !in v.cache || !v.cache[op.dir].isDir { return Absent; }
    var found, name, ino := ReadDir(v.m, op.dir, op.index);
    r := if found then Shows(name, ino) else Failed;
  }

  /** A lookup through a directory node handed out before. */
  method OnName(v: Volume, op: Op) returns (r: Reply)
    requires v.Valid() && op.Look?
    modifies v`cache, v.m`nreads, v.m`faults
    ensures v.Valid() && v.m.faults >= old(v.m.faults)
    ensures v.cache.Keys >= old(v.cache).Keys
    ensures Effect(v.m.g, old(View(v)), op, r, View(v))
    ensures v.m.faults == old(v.m.faults) ==> Step(v.m.g, old(View(v)), op, r, View(v))
  {
    hide Inv, Healthy, DirOk, Clear, Safe, Find, InodeOk, Listing, Mount.Logged;
    if op.dir !in v.cache || !v.cache[op.dir].isDir { return Absent; }
    ghost var i := Find(View(v).tree[op.dir].entries, op.name);
    if i != 0 { FoundThere(v.m.g, v.m.disk, v.m.live, op.dir, op.name); RecordHere(v, i); }
    var found, node := FindDir(v, op.dir, op.name);
    r := if found then Handed(node) else Failed;
  }

  /** One operation on nodes handed out before. */
  method Perform(v: Volume, op: Op) returns (r: Reply)
    requires v.Valid()
    modifies v`cache, v.m`nreads, v.m`nwrites, v.m`faults, v.m`disk, v.m`history, v.m`sb, v.m`gd, v.m`refusals,
             v.m`live, v.m`owner
    ensures old(v.m.history) <= v.m.history
    ensures v.Valid() && v.m.faults >= old(v.m.faults) && v.m.refusals >= old(v.m.refusals)
    ensures v.cache.Keys >= old(v.cache).Keys
    ensures Effect(v.m.g, old(View(v)), op, r, View(v))
    ensures v.m.faults == old(v.m.faults) && old(Healthy(v.m.g, v.m.disk, v.m.live)) ==>
              && Step(v.m.g, old(View(v)), op, r, View(v))
              && Healthy(v.m.g, v.m.disk, v.m.live)
              && v.m.Books() == old(v.m.Books()) && (old(v.m.Agreed()) ==> v.m.Agreed())
  {
    hide Inv, Healthy, Step, Effect, Tree, Clear, Safe, Mount.Logged, Mount.Books, Mount.Agreed;
    match op
    case Read(_, _, _) => r := OnBytes(v, op);
    case Write(_, _, _) => r := OnFile(v, op);
    case Cut(_) => r := OnFile(v, op);
    case Make(_, _) => r := OnDir(v, op);
    case MakeDir(_, _) => r := OnParent(v, op);
    case Look(_, _) => r := OnName(v, op);
    case List(_, _) => r := OnEntry(v, op);
  }

  /** The counts fit their fields of 32 and 16 bits on the device. */
  ghost predicate CountsFit(d: Disk)
  {
    && d.sb.freeBlocks < TWO32 && d.sb.freeInodes < TWO32
    && d.gd.freeBlocks < 0x10000 && d.gd.freeInodes < 0x10000 && d.gd.usedDirs < 0x10000
  }

  lemma {:induction false} ClearBound(bits: seq<bool>)
    ensures Clear(bits) <= |bits|
  {
    if bits != [] { ClearBound(bits[..|bits| - 1]); }
  }

  /** Counts no larger than the number of clear bits fit. */
  lemma BooksFit(m: Mount)
    requires m.Valid() && m.Agreed() && m.Books().0 >= 0 && m.Books().1 >= 0
    ensures CountsFit(m.disk)
  {
    hide Clear, SlotOk, DirOk, Safe, Mount.Logged;
    ClearBound(m.disk.bbm);
    ClearBound(m.disk.ibm);
  }

  /** Any sequence of operations under any fault schedule. The volume is safe
      after every device write (v.m.history), and each operation has its effect:
      what it reports done is done. An operation none of whose accesses fails,
      on a healthy volume, is a step of the plain tree of byte sequences and
      entry lists, its reply and its result following from the volume before,
      out of space or not, and the volume stays healthy. Over a run without
      faults the accounts never drift. */
  method Run(v: Volume, ops: seq<Op>) returns (replies: seq<Reply>, ghost states: seq<State>, ghost faults: seq<nat>)
    requires v.Valid()
    modifies v`cache, v.m`nreads, v.m`nwrites, v.m`faults, v.m`disk, v.m`history, v.m`sb, v.m`gd, v.m`refusals,
             v.m`live, v.m`owner
    ensures old(v.m.history) <= v.m.history
    ensures v.Valid() && v.m.faults >= old(v.m.faults) && v.m.refusals >= old(v.m.refusals)
    ensures |replies| == |ops| && |states| == |ops| + 1 && states[0] == old(View(v)) && states[|ops|] == View(v)
    ensures |faults| == |ops| + 1 && faults[0] == old(v.m.faults) && faults[|ops|] == v.m.faults
    ensures forall i :: 0 <= i < |ops| ==> Effect(v.m.g, states[i], ops[i], replies[i], states[i + 1])
    ensures forall i :: 0 <= i < |ops| && faults[i + 1] == faults[i] && Sound(v.m.g, states[i]) ==>
              Step(v.m.g, states[i], ops[i], replies[i], states[i + 1]) && Sound(v.m.g, states[i + 1])
    ensures v.m.faults == old(v.m.faults) && old(Healthy(v.m.g, v.m.disk, v.m.live)) ==>
              && Healthy(v.m.g, v.m.disk, v.m.live)
              && v.m.Books() == old(v.m.Books()) && (old(v.m.Agreed()) ==> v.m.Agreed())
              && (old(v.m.Agreed()) && old(v.m.Books()).0 >= 0 && old(v.m.Books()).1 >= 0 ==> CountsFit(v.m.disk))
              && forall i :: 0 <= i < |ops| ==> Step(v.m.g, states[i], ops[i], replies[i], states[i + 1])
  {
    hide Healthy, Sound, Step, Effect, Tree, Clear, Inv, Safe, Mount.Logged, Mount.Books, Mount.Agreed, CountsFit;
    replies, states, faults := [], [View(v)], [v.m.faults];
    for k := 0 to |ops|
      invariant v.Valid() && v.m.faults >= old(v.m.faults) && v.m.refusals >= old(v.m.refusals)
      invariant old(v.m.history) <= v.m.history
      invariant |replies| == k && |states| == k + 1 && states[0] == old(View(v)) && states[k] == View(v)
      invariant |faults| == k + 1 && faults[0] == old(v.m.faults) && faults[k] == v.m.faults
      invariant forall i :: 0 <= i < k ==> Effect(v.m.g, states[i], ops[i], replies[i], states[i + 1])
      invariant forall i :: 0 <= i < k && faults[i + 1] == faults[i] && Sound(v.m.g, states[i]) ==>
                  Step(v.m.g, states[i], ops[i], replies[i], states[i + 1]) && Sound(v.m.g, states[i + 1])
      invariant v.m.faults == old(v.m.faults) && old(Healthy(v.m.g, v.m.disk, v.m.live)) ==>
                  && Healthy(v.m.g, v.m.disk, v.m.live)
                  && v.m.Books() == old(v.m.Books()) && (old(v.m.Agreed()) ==> v.m.Agreed())
                  && forall i :: 0 <= i < k ==> Step(v.m.g, states[i], ops[i], replies[i], states[i + 1])
    {
      SoundIs(v);
      var r := Perform(v, ops[k]);
      SoundIs(v);
      replies, states, faults := replies + [r], states + [View(v)], faults + [v.m.faults];
    }
    if v.m.Agreed() && v.m.Books().0 >= 0 && v.m.Books().1 >= 0 { BooksFit(v.m); }
  }

  /** The volume in this state is healthy. */
  ghost predicate Sound(g: Geo, a: State)
  {
    Healthy(g, a.disk, a.tree.Keys)
  }

  lemma SoundIs(v: Volume)
    requires v.Valid()
    ensures Sound(v.m.g, View(v)) == Healthy(v.m.g, v.m.disk, v.m.live)
  {
    hide Healthy, ItemOf;
    assert View(v).tree.Keys == v.m.live;
  }

  // ------------------------------------------------------------------ where runs start

  /** A volume as just made: the root directory with its two dot entries and nothing else in use. */
  ghost predicate JustMade(g: Geo, d: Disk)
  {
    && GeoOk(g) && Shape(g, d) && g.firstData < g.blocks
    && d.ibm[ROOT - 1] && d.bbm[g.firstData - 1]
    && d.itab[ROOT - 1] == NewDir(g.firstData) && d.data[g.firstData] == Dots(ROOT, ROOT)
  }

  /** Such a volume is a valid start of a run: safe, healthy, its tree one directory. */
  lemma FreshVolume(g: Geo, d: Disk)
    requires JustMade(g, d)
    ensures Inv(g, d, {ROOT}, map[g.firstData := (ROOT, 0)]) && Healthy(g, d, {ROOT})
    ensures Tree(g, d, {ROOT}) == map[ROOT := DirItem([Entry(DOT, ROOT), Entry(DOTDOT, ROOT)])]
  {
    hide Dots;
    DotsEntries(ROOT, ROOT);
    RootInv(g, d);
    FreshTree(g, d);
  }

  /** Only the root directory is in use, with one block, whose entries name the root alone. */
  ghost predicate RootOnly(g: Geo, d: Disk)
  {
    && GeoOk(g) && Shape(g, d) && g.firstData < g.blocks
    && d.ibm[ROOT - 1] && d.bbm[g.firstData - 1]
    && d.itab[ROOT - 1] == NewDir(g.firstData) && BlockClosed(d.data[g.firstData], {ROOT})
  }

  lemma RootInv(g: Geo, d: Disk)
    requires RootOnly(g, d)
    ensures Inv(g, d, {ROOT}, map[g.firstData := (ROOT, 0)])
  {
    hide BlockClosed;
    var owner: Owner := map[g.firstData := (ROOT, 0)];
    assert InodeOk(g, d, ROOT);
    forall k | 0 <= k < SLOTS
      ensures SlotOk(g, d, owner, ROOT, k)
    {
      assert Ptr(g, d, ROOT, k) == if k == 0 then g.firstData else 0;
    }
    assert DirOk(g, d, {ROOT}, ROOT);
  }

  lemma FreshTree(g: Geo, d: Disk)
    requires JustMade(g, d) && Inv(g, d, {ROOT}, map[g.firstData := (ROOT, 0)])
    ensures Healthy(g, d, {ROOT})
    ensures Tree(g, d, {ROOT}) == map[ROOT := DirItem([Entry(DOT, ROOT), Entry(DOTDOT, ROOT)])]
  {
    hide Dots, Health, ItemOf, DirOk;
    InvTree(g, d, {ROOT}, map[g.firstData := (ROOT, 0)]);
    NewDirItem(g, d, {ROOT}, ROOT, ROOT);
  }
}
