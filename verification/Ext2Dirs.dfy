/** Looking up, listing and extending directories (kernel/ext2.c:647-769, 815-874). */
module Ext2Dirs {
  import opened Machine
  import opened Ext2Blocks
  import opened Ext2Dirents
  import opened Ext2Disk
  import opened Ext2Content
  import opened Ext2Alloc
  import opened Ext2Files

  /** Entries of the first n blocks of directory record `dir`. */
  function EntriesUpTo(g: Geo, dir: Inode, data: seq<Block>, n: nat): seq<Entry>
    requires n <= 12 && |data| == g.blocks
    requires forall b :: 0 <= b < n ==> dir.block[b] < g.blocks
  {
    if n == 0 then [] else EntriesUpTo(g, dir, data, n - 1) + Entries(data[dir.block[n - 1]], 0, 1024)
  }

  /** The listing of directory i, in on-disk order. */
  ghost function Listing(g: Geo, d: Disk, live: set<nat>, i: nat): seq<Entry>
    requires InodeOk(g, d, i) && DirOk(g, d, live, i)
  {
    EntriesUpTo(g, d.itab[i - 1], d.data, DirBlocks(d.itab[i - 1]))
  }

  lemma {:induction false} EntriesNonzero(b: Block, off: nat, limit: nat, e: Entry)
    requires e in Entries(b, off, limit)
    ensures e.ino != 0
    decreases 1024 - off
  {
    var rest := Entries(b, off + RecLen(b, off), limit);
    if e in rest {
      EntriesNonzero(b, off + RecLen(b, off), limit, e);
    }
  }

  lemma {:induction false} UpToNonzero(g: Geo, dir: Inode, data: seq<Block>, n: nat)
    requires n <= 12 && |data| == g.blocks
    requires forall b :: 0 <= b < n ==> dir.block[b] < g.blocks
    ensures forall e :: e in EntriesUpTo(g, dir, data, n) ==> e.ino != 0
  {
    if n > 0 {
      UpToNonzero(g, dir, data, n - 1);
      forall e | e in Entries(data[dir.block[n - 1]], 0, 1024)
        ensures e.ino != 0
      {
        EntriesNonzero(data[dir.block[n - 1]], 0, 1024, e);
      }
    }
  }

  lemma {:induction false} FindConcat(a: seq<Entry>, b: seq<Entry>, name: Name)
    requires forall e :: e in a ==> e.ino != 0
    ensures Find(a + b, name) == if Find(a, name) != 0 then Find(a, name) else Find(b, name)
  {
    if a == [] {
      assert a + b == b;
    } else {
      assert (a + b)[0] == a[0] && (a + b)[1..] == a[1..] + b;
      assert a[0] in a;
      FindConcat(a[1..], b, name);
    }
  }

  /** Valid bytes of block b in a directory of `size` bytes; 0 past the end. */
  function Limit(size: nat, b: nat): (l: nat)
    ensures l <= 1024
  {
    if (b + 1) * 1024 <= size then 1024 else if size <= b * 1024 then 0 else size - b * 1024
  }

  // -------------------------------------------------------------------- lookup

  /** Scan one block for a name. */
  method ScanBlock(b: Block, limit: nat, name: Name) returns (ino: nat)
    requires limit <= 1024
    ensures ino == Find(Entries(b, 0, limit), name)
  {
    hide Entries, RecOk, RecLen, EntryAt, Find;
    var off := 0;
    while RecOk(b, off, limit)
      invariant Find(Entries(b, 0, limit), name) == Find(Entries(b, off, limit), name)
      decreases 1024 - off
    {
      RecordRuns(b, off, limit);
      var e, next := EntryAt(b, off, limit), off + RecLen(b, off);
      EntriesCons(b, off, limit, next, e);
      if e.ino != 0 {
        FindHead(e, Entries(b, next, limit), name);
        if e.name == name { return e.ino; }
      } else {
        assert [] + Entries(b, next, limit) == Entries(b, next, limit);
      }
      off := next;
    }
    EntriesStop(b, off, limit);
    FindNone(name);
    return 0;
  }

  lemma FindHead(e: Entry, rest: seq<Entry>, name: Name)
    ensures Find([e] + rest, name) == if e.name == name then e.ino else Find(rest, name)
  {
    assert ([e] + rest)[1..] == rest;
  }

  lemma DirPointer(g: Geo, d: Disk, live: set<nat>, owner: Owner, i: nat, b: nat)
    requires Inv(g, d, live, owner) && i in live && d.itab[i - 1].IsDir() && b < 12
    ensures InodeOk(g, d, i) && DirOk(g, d, live, i)
    ensures d.itab[i - 1].block[b] != 0 <==> b < DirBlocks(d.itab[i - 1])
    ensures d.itab[i - 1].block[b] != 0 ==>
              InRange(g, d.itab[i - 1].block[b]) && Limit(d.itab[i - 1].size, b) == 1024
              && Marked(g, d, d.itab[i - 1].block[b])
  {
    assert InodeOk(g, d, i) && DirOk(g, d, live, i);
    assert SlotOk(g, d, owner, i, b) && Ptr(g, d, i, b) == d.itab[i - 1].block[b];
  }

  /** Read the b-th block of the directory; nothing to read past its end. */
  method FetchBlock(m: Mount, dir: nat, n: Inode, b: nat) returns (ok: bool, blk: Block, limit: nat)
    requires m.Valid() && dir in m.live && n == m.disk.itab[dir - 1] && n.IsDir() && b < 12
    modifies m`nreads, m`faults
    ensures m.Valid() && m.faults == old(m.faults) + if ok then 0 else 1
    ensures n.block[b] != 0 <==> b < DirBlocks(n)
    ensures ok ==> limit == if n.block[b] != 0 then 1024 else 0
    ensures ok && n.block[b] != 0 ==> n.block[b] < m.g.blocks && blk == m.disk.data[n.block[b]]
    ensures ok && n.block[b] == 0 ==> Entries(blk, 0, limit) == []
    ensures if b < DirBlocks(n) then ok == !m.readFails(old(m.nreads)) && m.nreads == old(m.nreads) + 1
            else ok && m.nreads == old(m.nreads)
  {
    DirPointer(m.g, m.disk, m.live, m.owner, dir, b);
    ok, blk, limit := true, Zero(), 0;
    if n.block[b] != 0 {
      ok, blk := m.ReadBlock(n.block[b]);
      if ok { limit := Limit(n.size, b); }
    }
  }

  ghost predicate DirIn(g: Geo, n: Inode, data: seq<Block>)
  {
    && |data| == g.blocks && DirBlocks(n) <= 12
    && forall b :: 0 <= b < DirBlocks(n) ==> n.block[b] < g.blocks
  }

  /** Entries of the blocks before b. */
  ghost function Before(g: Geo, n: Inode, data: seq<Block>, b: nat): seq<Entry>
    requires DirIn(g, n, data)
  {
    EntriesUpTo(g, n, data, if b < DirBlocks(n) then b else DirBlocks(n))
  }

  /** Reading the blocks in turn, the first being read number `from`, fails
      before the name has come up. */
  ghost predicate Blinded(g: Geo, n: Inode, data: seq<Block>, name: Name, fails: nat -> bool, from: nat)
  {
    DirIn(g, n, data) && exists b: nat :: BlindAt(g, n, data, name, fails, from, b)
  }

  ghost predicate BlindAt(g: Geo, n: Inode, data: seq<Block>, name: Name, fails: nat -> bool, from: nat, b: nat)
    requires DirIn(g, n, data)
  {
    b < DirBlocks(n) && fails(from + b) && Find(Before(g, n, data, b), name) == 0
  }

  /** ext2_dir_lookup. A block that cannot be read ends the search as if the name
      were absent: it is found exactly if it is listed and no read before it fails. */
  method DirLookup(m: Mount, dir: nat, n: Inode, name: Name) returns (ino: nat)
    requires m.Valid() && dir in m.live && n == m.disk.itab[dir - 1] && n.IsDir()
    modifies m`nreads, m`faults
    ensures m.Valid() && InodeOk(m.g, m.disk, dir) && DirOk(m.g, m.disk, m.live, dir)
    ensures ino == if Blinded(m.g, n, m.disk.data, name, m.readFails, old(m.nreads)) then 0
                   else Find(Listing(m.g, m.disk, m.live, dir), name)
    ensures m.faults == old(m.faults) + if Blinded(m.g, n, m.disk.data, name, m.readFails, old(m.nreads)) then 1 else 0
    ensures ino == 0 ==> m.nreads == old(m.nreads) + Attempts(m.readFails, old(m.nreads), DirBlocks(n))
    ensures ino == 0 && m.faults == old(m.faults) ==> m.nreads == old(m.nreads) + DirBlocks(n)
    ensures m.nreads >= old(m.nreads)
  {
    hide Inv, Entries, Find, Mount.Logged, Safe, Before, Blinded, BlindAt, Clean, DirOk, Attempts;
    ghost var from := m.nreads;
    LookupStart(m.g, m.disk, m.live, m.owner, dir, name, m.readFails, from);
    ghost var data := m.disk.data;
    var b := 0;
    while b < 12
      invariant b <= 12 && m.Valid() && m.faults == old(m.faults)
      invariant m.nreads == from + if b < DirBlocks(n) then b else DirBlocks(n)
      invariant Unseen(m.g, n, data, name, m.readFails, from, b)
    {
      var ok, blk, limit := FetchBlock(m, dir, n, b);
      if !ok {
        BlindHere(m.g, n, data, name, m.readFails, from, b);
        AttemptsStop(m.readFails, from, DirBlocks(n), b);
        return 0;
      }
      ino := ScanBlock(blk, limit, name);
      FindNone(name);
      NextUnseen(m.g, n, data, name, m.readFails, from, b);
      if ino != 0 { return; }
      b := b + 1;
    }
    UnseenAll(m.g, n, data, name, m.readFails, from, b);
    AttemptsStop(m.readFails, from, DirBlocks(n), DirBlocks(n));
    ino := 0;
  }

  /** How many of n accesses from number `from` on are made if the first failure ends them. */
  ghost function Attempts(fails: nat -> bool, from: nat, n: nat): (k: nat)
    ensures k <= n
    decreases n
  {
    if n == 0 then 0 else if fails(from) then 1 else 1 + Attempts(fails, from + 1, n - 1)
  }

  lemma {:induction false} AttemptsStop(fails: nat -> bool, from: nat, n: nat, k: nat)
    requires k <= n && Clean(fails, from, k)
    ensures k < n && fails(from + k) ==> Attempts(fails, from, n) == k + 1
    ensures k == n ==> Attempts(fails, from, n) == n
    decreases k
  {
    if k > 0 { AttemptsStop(fails, from + 1, n - 1, k - 1); }
  }

  /** The blocks before b were read and do not hold the name. */
  ghost predicate Unseen(g: Geo, n: Inode, data: seq<Block>, name: Name, fails: nat -> bool, from: nat, b: nat)
  {
    && DirIn(g, n, data) && Find(Before(g, n, data, b), name) == 0
    && Clean(fails, from, if b < DirBlocks(n) then b else DirBlocks(n))
  }

  lemma LookupStart(g: Geo, d: Disk, live: set<nat>, owner: Owner, dir: nat, name: Name, fails: nat -> bool, from: nat)
    requires Inv(g, d, live, owner) && dir in live && d.itab[dir - 1].IsDir()
    ensures InodeOk(g, d, dir) && DirOk(g, d, live, dir)
    ensures Listing(g, d, live, dir) == EntriesUpTo(g, d.itab[dir - 1], d.data, DirBlocks(d.itab[dir - 1]))
    ensures Unseen(g, d.itab[dir - 1], d.data, name, fails, from, 0)
  {
    DirPointer(g, d, live, owner, dir, 0);
  }

  lemma FindNone(name: Name)
    ensures Find([], name) == 0
  {}

  lemma BlindHere(g: Geo, n: Inode, data: seq<Block>, name: Name, fails: nat -> bool, from: nat, b: nat)
    requires Unseen(g, n, data, name, fails, from, b) && b < DirBlocks(n) && fails(from + b)
    ensures Blinded(g, n, data, name, fails, from)
  {
    assert BlindAt(g, n, data, name, fails, from, b);
  }

  lemma UnseenAll(g: Geo, n: Inode, data: seq<Block>, name: Name, fails: nat -> bool, from: nat, b: nat)
    requires Unseen(g, n, data, name, fails, from, b) && b >= DirBlocks(n)
    ensures !Blinded(g, n, data, name, fails, from) && Find(EntriesUpTo(g, n, data, DirBlocks(n)), name) == 0
  {
    hide EntriesUpTo;
  }

  lemma NextUnseen(g: Geo, n: Inode, data: seq<Block>, name: Name, fails: nat -> bool, from: nat, b: nat)
    requires Unseen(g, n, data, name, fails, from, b) && b < 12 && (b < DirBlocks(n) ==> !fails(from + b))
    ensures var here := if b < DirBlocks(n) then Find(Entries(data[n.block[b]], 0, 1024), name) else 0;
      if here == 0 then Unseen(g, n, data, name, fails, from, b + 1)
      else !Blinded(g, n, data, name, fails, from) && Find(EntriesUpTo(g, n, data, DirBlocks(n)), name) == here
  {
    hide EntriesUpTo, Entries, Find;
    LookupStep(g, n, data, b, name);
    if b < DirBlocks(n) && Find(Before(g, n, data, b + 1), name) != 0 {
      FoundEarly(g, n, data, b + 1, DirBlocks(n), name);
      NotBlinded(g, n, data, name, fails, from, b);
    }
  }

  /** Reads after the name has come up do not matter. */
  lemma NotBlinded(g: Geo, n: Inode, data: seq<Block>, name: Name, fails: nat -> bool, from: nat, b: nat)
    requires DirIn(g, n, data) && b < DirBlocks(n) && Find(EntriesUpTo(g, n, data, b + 1), name) != 0
    requires Clean(fails, from, b + 1)
    ensures !Blinded(g, n, data, name, fails, from)
  {
    hide EntriesUpTo, Find;
    forall x: nat
      ensures !BlindAt(g, n, data, name, fails, from, x)
    {
      if x <= b {
        assert !fails(from + x);
      } else if x < DirBlocks(n) {
        FoundEarly(g, n, data, b + 1, x, name);
      }
    }
  }

  lemma LookupStep(g: Geo, n: Inode, data: seq<Block>, b: nat, name: Name)
    requires b < 12 && DirIn(g, n, data) && Find(Before(g, n, data, b), name) == 0
    ensures b < DirBlocks(n) ==>
              Find(Before(g, n, data, b + 1), name) == Find(Entries(data[n.block[b]], 0, 1024), name)
    ensures b >= DirBlocks(n) ==> Find(Before(g, n, data, b + 1), name) == 0
  {
    hide Entries, Find;
    if b < DirBlocks(n) {
      UpToNonzero(g, n, data, b);
      FindConcat(EntriesUpTo(g, n, data, b), Entries(data[n.block[b]], 0, 1024), name);
    }
  }

  lemma {:induction false} FoundEarly(g: Geo, n: Inode, data: seq<Block>, a: nat, b: nat, name: Name)
    requires a <= b <= 12 && |data| == g.blocks && forall c :: 0 <= c < b ==> n.block[c] < g.blocks
    requires Find(EntriesUpTo(g, n, data, a), name) != 0
    ensures Find(EntriesUpTo(g, n, data, b), name) == Find(EntriesUpTo(g, n, data, a), name)
  {
    if a < b {
      FoundEarly(g, n, data, a, b - 1, name);
      UpToNonzero(g, n, data, b - 1);
      FindConcat(EntriesUpTo(g, n, data, b - 1), Entries(data[n.block[b - 1]], 0, 1024), name);
    }
  }

  // ------------------------------------------------------------------- readdir

  /** Walk one block counting entries in use from `cur`; stop at number `index`. */
  method ScanIndex(b: Block, limit: nat, index: nat, cur0: nat) returns (found: bool, e: Entry, cur: nat)
    requires limit <= 1024 && cur0 <= index
    ensures found <==> index - cur0 < |Entries(b, 0, limit)|
    ensures found ==> e == Entries(b, 0, limit)[index - cur0]
    ensures !found ==> cur == cur0 + |Entries(b, 0, limit)| && cur <= index
  {
    hide Entries, RecOk, RecLen, EntryAt;
    var off := 0;
    found, e, cur := false, Entry([], 0), cur0;
    ghost var all := Entries(b, 0, limit);
    while RecOk(b, off, limit)
      invariant cur0 <= cur <= index && cur - cur0 <= |all|
      invariant Entries(b, off, limit) == all[cur - cur0..]
      decreases 1024 - off
    {
      RecordRuns(b, off, limit);
      e := EntryAt(b, off, limit);
      var next := off + RecLen(b, off);
      EntriesCons(b, off, limit, next, e);
      if e.ino != 0 {
        Uncons(all, cur - cur0, e, Entries(b, next, limit));
        if cur == index { return true, e, cur; }
        cur := cur + 1;
      } else {
        assert [] + Entries(b, next, limit) == Entries(b, next, limit);
      }
      off := next;
    }
    EntriesStop(b, off, limit);
  }

  lemma Uncons(all: seq<Entry>, k: nat, e: Entry, rest: seq<Entry>)
    requires k <= |all| && all[k..] == [e] + rest
    ensures k < |all| && all[k] == e && all[k + 1..] == rest
  {
    assert all[k..][0] == e && all[k..][1..] == rest;
  }

  /** The name as readdir hands it out: at most 127 bytes. */
  function Shown(name: Name): Name
  {
    if |name| > 127 then name[..127] else name
  }

  /** ext2_readdir: the index-th entry of the directory. */
  method ReadDir(m: Mount, dir: nat, index: nat) returns (found: bool, name: Name, ino: nat)
    requires m.Valid() && dir in m.live && m.disk.itab[dir - 1].IsDir()
    modifies m`nreads, m`faults
    ensures m.Valid() && InodeOk(m.g, m.disk, dir) && DirOk(m.g, m.disk, m.live, dir)
    ensures found ==> index < |Listing(m.g, m.disk, m.live, dir)|
                      && name == Shown(Listing(m.g, m.disk, m.live, dir)[index].name)
                      && ino == Listing(m.g, m.disk, m.live, dir)[index].ino
    ensures m.faults == old(m.faults) ==> (found <==> index < |Listing(m.g, m.disk, m.live, dir)|)
    ensures m.faults >= old(m.faults)
  {
    found, name, ino := false, [], 0;
    DirPointer(m.g, m.disk, m.live, m.owner, dir, 0);
    var ok, n := ReadInode(m, dir);
    if ok {
      LivePointersOk(m.g, m.disk, m.live, m.owner, dir);
      var e;
      found, e := ReadDirBlocks(m, dir, n, index);
      if found { name, ino := Shown(e.name), e.ino; }
    }
  }

  method ReadDirBlocks(m: Mount, dir: nat, n: Inode, index: nat) returns (found: bool, e: Entry)
    requires m.Valid() && dir in m.live && n == m.disk.itab[dir - 1] && n.IsDir()
    requires DirIn(m.g, n, m.disk.data)
    modifies m`nreads, m`faults
    ensures m.Valid() && m.faults >= old(m.faults)
    ensures found ==> index < |Before(m.g, n, m.disk.data, 12)| && e == Before(m.g, n, m.disk.data, 12)[index]
    ensures m.faults == old(m.faults) ==> (found <==> index < |Before(m.g, n, m.disk.data, 12)|)
  {
    hide *;
    var b, cur := 0, 0;
    found, e := false, Entry([], 0);
    BeforeNone(m.g, n, m.disk.data);
    while b < 12
      invariant b <= 12 && m.Valid() && m.faults == old(m.faults) && !found
      invariant cur == |Before(m.g, n, m.disk.data, b)| <= index
    {
      var ok, blk, limit := FetchBlock(m, dir, n, b);
      if !ok { return; }
      BeforeStep(m.g, n, m.disk.data, b, 12);
      ghost var here := Entries(blk, 0, limit);
      found, e, cur := ScanIndex(blk, limit, index, cur);
      if found {
        InPrefix(Before(m.g, n, m.disk.data, b), here, Before(m.g, n, m.disk.data, 12), index);
        return;
      }
      b := b + 1;
    }
  }

  lemma BeforeNone(g: Geo, n: Inode, data: seq<Block>)
    requires DirIn(g, n, data)
    ensures Before(g, n, data, 0) == []
  {}

  lemma InPrefix(a: seq<Entry>, b: seq<Entry>, all: seq<Entry>, index: nat)
    requires a + b <= all && |a| <= index < |a| + |b|
    ensures index < |all| && all[index] == b[index - |a|]
  {
    assert (a + b)[index] == b[index - |a|];
  }

  lemma BeforeStep(g: Geo, n: Inode, data: seq<Block>, b: nat, upto: nat)
    requires DirIn(g, n, data) && b < upto
    ensures b >= DirBlocks(n) ==> Before(g, n, data, b + 1) == Before(g, n, data, b)
    ensures b < DirBlocks(n) ==>
              Before(g, n, data, b + 1) == Before(g, n, data, b) + Entries(data[n.block[b]], 0, 1024)
    ensures Before(g, n, data, b + 1) <= Before(g, n, data, upto)
  {
    var x := if b + 1 < DirBlocks(n) then b + 1 else DirBlocks(n);
    var y := if upto < DirBlocks(n) then upto else DirBlocks(n);
    PrefixOf(g, n, data, x, y);
  }

  lemma {:induction false} PrefixOf(g: Geo, n: Inode, data: seq<Block>, a: nat, b: nat)
    requires a <= b <= 12 && |data| == g.blocks && forall c :: 0 <= c < b ==> n.block[c] < g.blocks
    ensures EntriesUpTo(g, n, data, a) <= EntriesUpTo(g, n, data, b)
  {
    if a < b { PrefixOf(g, n, data, a, b - 1); }
  }
}
