/** The arena of the user allocator (user/libc/stdlib.c:14-105) as a value, and
    the four edits the allocator makes to it. Addresses and sizes count
    header-sized units of 8 bytes, so alignment is built in. */
module HeapArena {
  import opened Sequences

  const START: nat := 0x0C000000  // USER_HEAP_BASE
  const LIMIT: nat := 0x0E000000  // USER_HEAP_MAX

  /** Eight bytes of memory, read as a header. */
  datatype Cell = Cell(next: nat, units: nat)

  /** `blocks` are all blocks, free or not, with their sizes; `ring` is the
      free list in link order from its head `base`. */
  datatype Arena = Arena(base: nat, mem: map<nat, Cell>, brk: nat, blocks: map<nat, nat>, ring: seq<nat>)

  /** The blocks tile [START, brk) exactly. */
  ghost predicate Tiled(blocks: map<nat, nat>, brk: nat)
  {
    && (forall x :: x in blocks ==> START <= x && 0 < blocks[x] && x + blocks[x] <= brk)
    && (forall x, y :: x in blocks && y in blocks && x < y ==> x + blocks[x] <= y)
    && (START < brk ==> START in blocks)
    && (forall x {:trigger Joins(blocks, brk, x)} :: x in blocks ==> Joins(blocks, brk, x))
  }

  /** The block at x ends at the break or where another block starts. */
  ghost predicate Joins(blocks: map<nat, nat>, brk: nat, x: nat)
  {
    x in blocks && (x + blocks[x] == brk || x + blocks[x] in blocks)
  }

  ghost function Succ(s: seq<nat>, i: nat): nat
    requires i < |s|
  {
    if i + 1 < |s| then s[i + 1] else s[0]
  }

  /** The free list is one cycle through base, in address order, over blocks. */
  ghost predicate Linked(a: Arena)
  {
    && |a.ring| > 0 && a.ring[0] == a.base && 0 < a.base < START && Ascending(a.ring)
    && (forall i :: 1 <= i < |a.ring| ==> a.ring[i] in a.blocks)
    && (forall i :: 0 <= i < |a.ring| ==> a.ring[i] in a.mem)
    && (forall i {:trigger LinkAt(a, i)} :: 0 <= i < |a.ring| ==> LinkAt(a, i))
  }

  ghost predicate LinkAt(a: Arena, i: nat)
  {
    i < |a.ring| && a.ring[i] in a.mem && a.mem[a.ring[i]].next == Succ(a.ring, i)
  }

  /** Headers record the sizes. */
  ghost predicate Sized(a: Arena)
  {
    && (forall x :: x in a.blocks ==> x in a.mem && a.mem[x].units == a.blocks[x])
    && a.base in a.mem && a.mem[a.base].units == 0
    && (forall c :: START <= c < a.brk ==> c in a.mem)
    && START <= a.brk <= LIMIT
  }

  ghost predicate Loose(a: Arena)
  {
    Tiled(a.blocks, a.brk) && Sized(a) && Linked(a)
  }

  /** Free block k of the list does not touch the next one. */
  ghost predicate Gap(a: Arena, k: nat)
    requires Loose(a)
  {
    1 <= k && k + 1 < |a.ring| ==> a.ring[k] + a.blocks[a.ring[k]] < a.ring[k + 1]
  }

  ghost predicate Ok(a: Arena)
  {
    Loose(a) && forall k :: 0 <= k < |a.ring| ==> Gap(a, k)
  }

  /** Blocks in the program's hands. */
  ghost function Live(a: Arena): map<nat, nat>
  {
    map x | x in a.blocks && x !in a.ring :: a.blocks[x]
  }

  /** Cell c belongs to a live block, header included. */
  ghost predicate InLive(live: map<nat, nat>, c: nat)
  {
    exists x :: x in live && x <= c < x + live[x]
  }

  /** Nothing the program holds was touched. */
  ghost predicate Untouched(live: map<nat, nat>, mem: map<nat, Cell>, mem': map<nat, Cell>)
  {
    forall c :: InLive(live, c) && c in mem ==> c in mem' && mem'[c] == mem[c]
  }

  // ------------------------------------------------------------------- the edits

  /** Link block b in after list position t. */
  ghost function Insert(a: Arena, b: nat, t: nat): Arena
    requires t < |a.ring| && a.ring[t] in a.mem && b in a.mem
  {
    var p := a.ring[t];
    var mem := a.mem[b := Cell(a.mem[p].next, a.mem[b].units)];
    a.(mem := mem[p := Cell(b, mem[p].units)], ring := PutIn(a.ring, b, t))
  }

  /** Make one block of list positions k and k + 1. */
  ghost function Merge(a: Arena, k: nat): Arena
    requires k + 1 < |a.ring| && a.ring[k] in a.mem && a.ring[k + 1] in a.mem
  {
    var p, q := a.ring[k], a.ring[k + 1];
    var n := a.mem[p].units + a.mem[q].units;
    a.(mem := a.mem[p := Cell(a.mem[q].next, n)], ring := CutOut(a.ring, k + 1),
       blocks := (a.blocks - {q})[p := n])
  }

  /** Unlink list position k: its block is handed out. */
  ghost function TakeWhole(a: Arena, k: nat): Arena
    requires 1 <= k < |a.ring| && a.ring[k] in a.mem && a.ring[k - 1] in a.mem
  {
    var q, p := a.ring[k - 1], a.ring[k];
    a.(mem := a.mem[q := Cell(a.mem[p].next, a.mem[q].units)], ring := CutOut(a.ring, k))
  }

  /** Hand out the last n units of block k. */
  ghost function TakeTail(a: Arena, k: nat, n: nat): Arena
    requires k < |a.ring| && a.ring[k] in a.mem && a.mem[a.ring[k]].units > n
    requires a.ring[k] + (a.mem[a.ring[k]].units - n) in a.mem
  {
    var p := a.ring[k];
    var u := a.mem[p].units - n;
    var mem := a.mem[p := Cell(a.mem[p].next, u)];
    a.(mem := mem[p + u := Cell(mem[p + u].next, n)], blocks := a.blocks[p := u][p + u := n])
  }

  /** The break moved up by n units. */
  ghost function Grow(a: Arena, n: nat, pages: map<nat, Cell>): Arena
    requires a.brk in pages
  {
    var mem := a.mem + pages;
    a.(mem := mem[a.brk := Cell(mem[a.brk].next, n)], brk := a.brk + n, blocks := a.blocks[a.brk := n])
  }

  // --------------------------------------------------------------- what they keep

  /** `s` with b put in after position t. */
  ghost function PutIn(s: seq<nat>, b: nat, t: nat): seq<nat>
    requires t < |s|
  {
    s[..t + 1] + [b] + s[t + 1..]
  }

  lemma PutInOrder(s: seq<nat>, b: nat, t: nat)
    requires Ascending(s) && t < |s| && s[t] < b && (t + 1 < |s| ==> b < s[t + 1])
    ensures var r := PutIn(s, b, t);
      && Ascending(r) && |r| == |s| + 1 && r[t + 1] == b
      && (forall i :: 0 <= i <= t ==> r[i] == s[i]) && (forall i :: t + 2 <= i < |r| ==> r[i] == s[i - 1])
      && (forall x :: x in r <==> x in s || x == b)
  {
    var r := PutIn(s, b, t);
    PutInAt(s, b, t);
    forall x | x in s
      ensures x in r
    {
      var i :| 0 <= i < |s| && s[i] == x;
      assert if i <= t then r[i] == x else r[i + 1] == x;
    }
    hide PutIn;
    forall i, j | 0 <= i < j < |r|
      ensures r[i] < r[j]
    {
      AscendingTo(s, t);
    }
  }

  lemma PutInAt(s: seq<nat>, b: nat, t: nat)
    requires t < |s|
    ensures var r := PutIn(s, b, t);
      |r| == |s| + 1 && r[t + 1] == b
      && (forall i :: 0 <= i <= t ==> r[i] == s[i]) && (forall i :: t + 2 <= i < |r| ==> r[i] == s[i - 1])
  {}

  lemma InsertLinked(a: Arena, b: nat, t: nat)
    requires Loose(a) && t < |a.ring| && b in a.blocks && b !in a.ring
    requires a.ring[t] < b && (t + 1 < |a.ring| ==> b < a.ring[t + 1])
    ensures Loose(Insert(a, b, t))
  {
    hide PutIn, Tiled, Ascending;
    PutInOrder(a.ring, b, t);
    AscendingTo(a.ring, t);
    BlockFacts(a);
    var c := Insert(a, b, t);
    var r := c.ring;
    forall i | 0 <= i < |r|
      ensures LinkAt(c, i)
    {
      if i > t + 1 { assert LinkAt(a, i - 1); } else if i <= t { assert LinkAt(a, i); } else { assert LinkAt(a, t); }
    }
  }

  lemma BlockFacts(a: Arena)
    requires Tiled(a.blocks, a.brk)
    ensures forall x :: x in a.blocks ==> START <= x && 0 < a.blocks[x] && x + a.blocks[x] <= a.brk
  {}

  lemma InsertGaps(a: Arena, b: nat, t: nat)
    requires Ok(a) && t < |a.ring| && b in a.blocks && b !in a.ring
    requires a.ring[t] < b && (t + 1 < |a.ring| ==> b < a.ring[t + 1])
    ensures var c := Insert(a, b, t);
      Loose(c) && forall k :: 0 <= k < |c.ring| && k != t && k != t + 1 ==> Gap(c, k)
  {
    hide PutIn, Tiled, Ascending;
    InsertLinked(a, b, t);
    PutInOrder(a.ring, b, t);
    var c := Insert(a, b, t);
    forall k | 0 <= k < |c.ring| && k != t && k != t + 1
      ensures Gap(c, k)
    {
      if k < t { assert Gap(a, k); } else { assert Gap(a, k - 1); }
    }
  }

  lemma InsertFrame(a: Arena, b: nat, t: nat)
    requires Loose(a) && t < |a.ring| && b in a.blocks && b !in a.ring
    requires a.ring[t] < b && (t + 1 < |a.ring| ==> b < a.ring[t + 1])
    ensures var c := Insert(a, b, t); Live(c) == Live(a) - {b} && Untouched(Live(c), a.mem, c.mem)
  {
    hide PutIn, Tiled, Ascending, LinkAt;
    PutInOrder(a.ring, b, t);
    var c := Insert(a, b, t);
    assert a.ring[t] in a.ring;
    assert Live(c) == Live(a) - {b};
    HeadersOnly(a, c, {b, a.ring[t]});
  }

  /** Edits to headers of blocks outside the program's hands touch nothing it holds. */
  lemma HeadersOnly(a: Arena, c: Arena, s: set<nat>)
    requires Tiled(a.blocks, a.brk) && Linked(a)
    requires forall x :: x in Live(c) ==> x in a.blocks && a.blocks[x] == Live(c)[x] && x !in s
    requires forall x :: x in s ==> x in a.blocks || x == a.base
    requires forall x :: x in a.mem && x !in s ==> x in c.mem && c.mem[x] == a.mem[x]
    ensures Untouched(Live(c), a.mem, c.mem)
  {
    forall x | InLive(Live(c), x) && x in a.mem
      ensures x in c.mem && c.mem[x] == a.mem[x]
    {
      var h :| h in Live(c) && h <= x < h + Live(c)[h];
      assert x !in s;
    }
  }

  // ----------------------------------------------------------------------- merge

  ghost predicate Touching(a: Arena, k: nat)
  {
    Loose(a) && 1 <= k && k + 1 < |a.ring| && a.ring[k] + a.blocks[a.ring[k]] == a.ring[k + 1]
  }

  lemma Order(blocks: map<nat, nat>, brk: nat, x: nat, y: nat)
    requires Tiled(blocks, brk) && x in blocks && y in blocks
    ensures x < y ==> x + blocks[x] <= y
    ensures y < x ==> y + blocks[y] <= x
    ensures START <= x && 0 < blocks[x] && x + blocks[x] <= brk && Joins(blocks, brk, x)
  {
    assert Joins(blocks, brk, x);
  }

  lemma MergeJoins(blocks: map<nat, nat>, brk: nat, p: nat, q: nat, x: nat)
    requires Tiled(blocks, brk) && p in blocks && q in blocks && p + blocks[p] == q && x in blocks && x != q
    ensures Joins((blocks - {q})[p := blocks[p] + blocks[q]], brk, x)
  {
    hide Tiled;
    Order(blocks, brk, x, p);
    Order(blocks, brk, q, x);
  }

  lemma MergeOrder(blocks: map<nat, nat>, brk: nat, p: nat, q: nat, x: nat, y: nat)
    requires Tiled(blocks, brk) && p in blocks && q in blocks && p + blocks[p] == q
    requires x in blocks && y in blocks && x != q && y != q && x < y
    ensures var after := (blocks - {q})[p := blocks[p] + blocks[q]]; x + after[x] <= y
  {
    hide Tiled;
    Order(blocks, brk, x, y);
    Order(blocks, brk, q, y);
  }

  lemma MergeTiled(blocks: map<nat, nat>, brk: nat, p: nat, q: nat)
    requires Tiled(blocks, brk) && p in blocks && q in blocks && p + blocks[p] == q
    ensures Tiled((blocks - {q})[p := blocks[p] + blocks[q]], brk)
  {
    hide Joins;
    var after := (blocks - {q})[p := blocks[p] + blocks[q]];
    forall x, y | x in after && y in after && x < y
      ensures x + after[x] <= y
    {
      MergeOrder(blocks, brk, p, q, x, y);
    }
    forall x | x in after
      ensures Joins(after, brk, x)
    {
      MergeJoins(blocks, brk, p, q, x);
    }
    Order(blocks, brk, p, q);
  }

  lemma MergeLinked(a: Arena, k: nat)
    requires Touching(a, k)
    ensures Loose(Merge(a, k))
  {
    hide CutOut, Tiled, Ascending;
    BlockFacts(a);
    CutOutOrder(a.ring, k + 1);
    AscendingTo(a.ring, k);
    AscendingTo(a.ring, k + 1);
    MergeTiled(a.blocks, a.brk, a.ring[k], a.ring[k + 1]);
    var c := Merge(a, k);
    forall i | 0 <= i < |c.ring|
      ensures LinkAt(c, i)
    {
      if i > k { assert LinkAt(a, i + 1); } else if i < k { assert LinkAt(a, i); } else { assert LinkAt(a, k + 1); }
    }
  }

  lemma MergeGaps(a: Arena, k: nat, skip: nat)
    requires Touching(a, k) && skip <= k
    requires forall j :: 0 <= j < |a.ring| && j != skip && j != k ==> Gap(a, j)
    ensures var c := Merge(a, k);
      Loose(c) && forall j :: 0 <= j < |c.ring| && (skip == k || j != skip) ==> Gap(c, j)
  {
    hide CutOut, Tiled, Ascending;
    MergeLinked(a, k);
    CutOutOrder(a.ring, k + 1);
    var c := Merge(a, k);
    forall j | 0 <= j < |c.ring| && (skip == k || j != skip)
      ensures Gap(c, j)
    {
      if j < k {
        AscendingTo(a.ring, k);
        assert Gap(a, j);
      } else {
        AscendingTo(a.ring, k);
        assert Gap(a, j + 1);
      }
    }
  }

  lemma MergeFrame(a: Arena, k: nat)
    requires Touching(a, k)
    ensures var c := Merge(a, k); Live(c) == Live(a) && Untouched(Live(c), a.mem, c.mem)
  {
    hide CutOut, Tiled, Ascending, LinkAt;
    CutOutOrder(a.ring, k + 1);
    AscendingTo(a.ring, k);
    var c := Merge(a, k);
    assert a.ring[k] in a.ring && a.ring[k + 1] in a.ring && a.ring[k] in c.ring;
    assert Live(c) == Live(a);
    HeadersOnly(a, c, {a.ring[k]});
  }

  // ------------------------------------------------------------ handing a block out

  lemma TakeWholeOk(a: Arena, k: nat)
    requires Ok(a) && 1 <= k < |a.ring|
    ensures var c := TakeWhole(a, k); Ok(c) && Live(c) == Live(a)[a.ring[k] := a.blocks[a.ring[k]]]
  {
    hide CutOut, Tiled, Ascending;
    CutOutOrder(a.ring, k);
    AscendingTo(a.ring, k);
    AscendingTo(a.ring, k - 1);
    BlockFacts(a);
    var c := TakeWhole(a, k);
    forall i | 0 <= i < |c.ring|
      ensures LinkAt(c, i)
    {
      if i >= k { assert LinkAt(a, i + 1); } else { assert LinkAt(a, i) && LinkAt(a, k); }
    }
    TakeWholeGaps(a, k);
    assert a.ring[k] in a.ring;
  }

  lemma TakeWholeGaps(a: Arena, k: nat)
    requires Ok(a) && 1 <= k < |a.ring| && Loose(TakeWhole(a, k))
    ensures forall j :: 0 <= j < |TakeWhole(a, k).ring| ==> Gap(TakeWhole(a, k), j)
  {
    hide CutOut, Tiled, LinkAt;
    CutOutOrder(a.ring, k);
    var c := TakeWhole(a, k);
    forall j | 0 <= j < |c.ring|
      ensures Gap(c, j)
    {
      if j >= k { assert Gap(a, j + 1); } else { assert Gap(a, j) && Gap(a, k); }
    }
  }

  lemma TakeWholeFrame(a: Arena, k: nat)
    requires Ok(a) && 1 <= k < |a.ring|
    ensures Untouched(Live(a), a.mem, TakeWhole(a, k).mem)
  {
    hide Tiled, Ascending, LinkAt, CutOut;
    assert a.ring[k - 1] in a.ring;
    HeadersOnlyFrom(a, TakeWhole(a, k).mem, {a.ring[k - 1]});
  }

  /** As HeadersOnly, for what was in the program's hands before. */
  lemma HeadersOnlyFrom(a: Arena, mem: map<nat, Cell>, s: set<nat>)
    requires Tiled(a.blocks, a.brk) && Linked(a)
    requires forall x :: x in s ==> x in a.ring
    requires forall x :: x in a.mem && x !in s ==> x in mem && mem[x] == a.mem[x]
    ensures Untouched(Live(a), a.mem, mem)
  {
    var c := a.(mem := mem);
    assert Live(c) == Live(a);
    HeadersOnly(a, c, s);
  }

  // ------------------------------------------------------------- splitting a block

  lemma SplitOrder(blocks: map<nat, nat>, brk: nat, p: nat, n: nat, x: nat, y: nat)
    requires Tiled(blocks, brk) && p in blocks && 0 < n < blocks[p]
    ensures var q := p + blocks[p] - n; var after := blocks[p := blocks[p] - n][q := n];
      x in after && y in after && x < y ==> x + after[x] <= y
  {
    hide Tiled;
    if x in blocks { Order(blocks, brk, x, p); }
    if y in blocks { Order(blocks, brk, p, y); }
    if x in blocks && y in blocks { Order(blocks, brk, x, y); }
  }

  lemma SplitJoins(blocks: map<nat, nat>, brk: nat, p: nat, n: nat, x: nat)
    requires Tiled(blocks, brk) && p in blocks && 0 < n < blocks[p]
    ensures var q := p + blocks[p] - n; var after := blocks[p := blocks[p] - n][q := n];
      x in after ==> Joins(after, brk, x) && START <= x && 0 < after[x] && x + after[x] <= brk
  {
    hide Tiled;
    Order(blocks, brk, p, p);
    if x in blocks { Order(blocks, brk, x, p); }
  }

  lemma SplitTiled(blocks: map<nat, nat>, brk: nat, p: nat, n: nat)
    requires Tiled(blocks, brk) && p in blocks && 0 < n < blocks[p]
    ensures var q := p + blocks[p] - n; q !in blocks && Tiled(blocks[p := blocks[p] - n][q := n], brk)
  {
    hide Joins;
    var q := p + blocks[p] - n;
    var after := blocks[p := blocks[p] - n][q := n];
    forall x, y | x in after && y in after && x < y
      ensures x + after[x] <= y
    {
      SplitOrder(blocks, brk, p, n, x, y);
    }
    forall x | x in after
      ensures Joins(after, brk, x) && START <= x && 0 < after[x] && x + after[x] <= brk
    {
      SplitJoins(blocks, brk, p, n, x);
    }
    assert START < brk ==> START in after;
  }

  ghost predicate Splits(a: Arena, k: nat, n: nat)
  {
    Ok(a) && 1 <= k < |a.ring| && 0 < n < a.blocks[a.ring[k]]
  }

  lemma TakeTailReady(a: Arena, k: nat, n: nat)
    requires Splits(a, k, n)
    ensures a.ring[k] + a.blocks[a.ring[k]] - n in a.mem && a.ring[k] in a.mem && a.mem[a.ring[k]].units > n
  {
    BlockFacts(a);
  }

  lemma TakeTailLoose(a: Arena, k: nat, n: nat)
    requires Splits(a, k, n)
    ensures a.ring[k] in a.mem && a.mem[a.ring[k]].units > n && a.ring[k] + (a.mem[a.ring[k]].units - n) in a.mem
    ensures Loose(TakeTail(a, k, n))
  {
    hide Tiled, Ascending;
    TakeTailReady(a, k, n);
    SplitTiled(a.blocks, a.brk, a.ring[k], n);
    AscendingTo(a.ring, k);
    BlockFacts(a);
    var c := TakeTail(a, k, n);
    forall i | 0 <= i < |c.ring|
      ensures LinkAt(c, i)
    {
      assert LinkAt(a, i);
    }
  }

  lemma TakeTailOk(a: Arena, k: nat, n: nat)
    requires Splits(a, k, n)
    ensures a.ring[k] in a.mem && a.mem[a.ring[k]].units > n && a.ring[k] + (a.mem[a.ring[k]].units - n) in a.mem
    ensures var c := TakeTail(a, k, n);
      Ok(c) && Live(c) == Live(a)[a.ring[k] + a.blocks[a.ring[k]] - n := n]
  {
    hide Tiled, Ascending, LinkAt;
    TakeTailLoose(a, k, n);
    SplitTiled(a.blocks, a.brk, a.ring[k], n);
    AscendingTo(a.ring, k);
    BlockFacts(a);
    var c := TakeTail(a, k, n);
    forall j | 0 <= j < |c.ring|
      ensures Gap(c, j)
    {
      assert Gap(a, j);
    }
    assert a.ring[k] in a.ring;
  }

  lemma TakeTailFrame(a: Arena, k: nat, n: nat)
    requires Splits(a, k, n)
    ensures a.ring[k] in a.mem && a.mem[a.ring[k]].units > n && a.ring[k] + (a.mem[a.ring[k]].units - n) in a.mem
    ensures Untouched(Live(a), a.mem, TakeTail(a, k, n).mem)
  {
    TakeTailReady(a, k, n);
    var p, mem' := a.ring[k], TakeTail(a, k, n).mem;
    forall x | InLive(Live(a), x) && x in a.mem
      ensures x in mem' && mem'[x] == a.mem[x]
    {
      var h :| h in Live(a) && h <= x < h + Live(a)[h];
      assert p in a.ring;
      Order(a.blocks, a.brk, h, p);
    }
  }

  // -------------------------------------------------------------------- more core

  lemma GrowJoins(blocks: map<nat, nat>, brk: nat, n: nat, x: nat)
    requires Tiled(blocks, brk) && START <= brk && 0 < n && (x in blocks || x == brk)
    ensures Joins(blocks[brk := n], brk + n, x)
  {
    if x in blocks { assert Joins(blocks, brk, x); }
  }

  lemma GrowTiled(blocks: map<nat, nat>, brk: nat, n: nat)
    requires Tiled(blocks, brk) && START <= brk && 0 < n
    ensures brk !in blocks && Tiled(blocks[brk := n], brk + n)
  {
    hide Joins;
    var after := blocks[brk := n];
    forall x | x in after
      ensures Joins(after, brk + n, x) && START <= x && 0 < after[x] && x + after[x] <= brk + n
    {
      GrowJoins(blocks, brk, n, x);
    }
    assert forall x, y :: x in after && y in after && x < y ==> x + after[x] <= y;
  }

  ghost predicate Extends(a: Arena, n: nat, pages: map<nat, Cell>)
  {
    && Ok(a) && 0 < n && a.brk + n <= LIMIT
    && forall c :: c in pages <==> a.brk <= c < a.brk + n
  }

  lemma GrowOk(a: Arena, n: nat, pages: map<nat, Cell>)
    requires Extends(a, n, pages)
    ensures var c := Grow(a, n, pages);
      Ok(c) && Live(c) == Live(a)[a.brk := n] && a.brk !in c.ring && a.brk !in Live(a)
  {
    hide Tiled, Ascending;
    GrowTiled(a.blocks, a.brk, n);
    BlockFacts(a);
    var c := Grow(a, n, pages);
    forall i | 0 <= i < |c.ring|
      ensures LinkAt(c, i)
    {
      assert LinkAt(a, i);
    }
    forall j | 0 <= j < |c.ring|
      ensures Gap(c, j)
    {
      assert Gap(a, j);
    }
  }

  lemma GrowFrame(a: Arena, n: nat, pages: map<nat, Cell>)
    requires Extends(a, n, pages)
    ensures Untouched(Live(a), a.mem, Grow(a, n, pages).mem)
  {
    BlockFacts(a);
    var mem' := Grow(a, n, pages).mem;
    forall x | InLive(Live(a), x) && x in a.mem
      ensures x in mem' && mem'[x] == a.mem[x]
    {
      var h :| h in Live(a) && h <= x < h + Live(a)[h];
    }
  }

  // --------------------------------------------------------- what a valid arena is

  /** Every address of the heap lies in a block; by Order in no more than one. */
  lemma Covered(a: Arena, c: nat) returns (x: nat)
    requires Ok(a) && START <= c < a.brk
    ensures x in a.blocks && x <= c < x + a.blocks[x]
    ensures forall y :: y in a.blocks && y <= c < y + a.blocks[y] ==> y == x
  {
    x := START;
    while x + a.blocks[x] <= c
      invariant x in a.blocks && x <= c
      decreases c - x
    {
      assert Joins(a.blocks, a.brk, x);
      x := x + a.blocks[x];
    }
  }

  /** Following the links i times from p. */
  function Follow(mem: map<nat, Cell>, p: nat, i: nat): nat
  {
    if i == 0 then p else var q := Follow(mem, p, i - 1); if q in mem then mem[q].next else 0
  }

  /** The links from base run through the free blocks in address order and come back to base. */
  lemma {:induction false} FollowRing(a: Arena, i: nat)
    requires Ok(a) && i <= |a.ring|
    ensures Follow(a.mem, a.base, i) == if i < |a.ring| then a.ring[i] else a.base
  {
    if i > 0 {
      FollowRing(a, i - 1);
      assert LinkAt(a, i - 1);
    }
  }

  /** Two free blocks never touch. */
  lemma FreeApart(a: Arena, x: nat, y: nat)
    requires Ok(a) && x in a.ring && y in a.ring && x in a.blocks && y in a.blocks && x < y
    ensures x + a.blocks[x] < y
  {
    var k, j :| 0 <= k < |a.ring| && a.ring[k] == x && 0 <= j < |a.ring| && a.ring[j] == y;
    assert Gap(a, k);
    if k + 1 < j { assert a.ring[k + 1] < a.ring[j]; }
  }
}
