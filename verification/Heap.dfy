/** malloc, free and realloc over the arena (user/libc/stdlib.c:24-141). */
module Heap {
  import opened Sequences
  import opened HeapArena

  const NALLOC: nat := 1024
  const TOO_BIG: nat := 0x08000000

  class Allocator {
    const base: nat            // address of the list head, below the heap
    var mem: map<nat, Cell>
    var brk: nat
    var freep: nat             // 0 until first use
    ghost var blocks: map<nat, nat>
    ghost var ring: seq<nat>

    ghost function Arena(): Arena
      reads this
    {
      HeapArena.Arena.Arena(base, mem, brk, blocks, ring)
    }

    ghost predicate Ready()
      reads this
    {
      Ok(Arena()) && freep in ring
    }

    ghost predicate Unused()
      reads this
    {
      && freep == 0 && brk == START && blocks == map[] && ring == [base]
      && 0 < base < START && base in mem
    }

    ghost predicate Valid()
      reads this
    {
      Unused() || Ready()
    }

    /** Blocks the program holds: header address to size in units. */
    ghost function Held(): map<nat, nat>
      reads this
    {
      Live(Arena())
    }

    constructor (base: nat, junk: Cell)
      requires 0 < base < START
      ensures Valid() && Held() == map[] && this.base == base && brk == START
    {
      this.base, mem, brk, freep := base, map[base := junk], START, 0;
      blocks, ring := map[], [base];
    }
  }

  method ListInit(h: Allocator)
    requires h.Valid()
    modifies h`mem, h`freep
    ensures h.Ready() && h.Held() == old(h.Held()) && Untouched(h.Held(), old(h.mem), h.mem)
    ensures h.Held() == old(h.Held())
    ensures old(h.Ready()) ==> h.mem == old(h.mem) && h.freep == old(h.freep)
  {
    if h.freep == 0 {
      h.mem := h.mem[h.base := Cell(h.base, 0)];
      h.freep := h.base;
      assert LinkAt(h.Arena(), 0);
    }
  }

  // ------------------------------------------------------------------------ free

  /** The list position after which address b belongs. */
  ghost function Slot(s: seq<nat>, b: nat): (t: nat)
    requires Ascending(s) && |s| > 0 && s[0] < b && b !in s
    ensures t < |s| && s[t] < b && (t + 1 < |s| ==> b < s[t + 1])
  {
    if s[|s| - 1] < b then |s| - 1
    else assert s[|s| - 1] in s; Slot(s[..|s| - 1], b)
  }

  /** Steps along the ring from position i to position t. */
  ghost function Steps(i: int, t: int, n: nat): int { if i <= t then t - i else t - i + n }

  ghost predicate Fits(s: seq<nat>, b: nat, t: nat)
  {
    t < |s| && s[t] < b && (t + 1 < |s| ==> b < s[t + 1])
  }

  /** Walk the ring from where the last search left off to the place of block bp. */
  method FindPlace(h: Allocator, bp: nat) returns (p: nat, ghost t: nat)
    requires h.Ready() && bp in h.Held()
    ensures Returns(h.Arena(), bp, t) && p == h.ring[t]
  {
    hide Tiled, Sized, Gap;
    BlockFacts(h.Arena());
    ghost var i :| 0 <= i < |h.ring| && h.ring[i] == h.freep;
    t := Slot(h.ring, bp);
    p := h.freep;
    while !(bp > p && bp < h.mem[p].next)
      invariant 0 <= i < |h.ring| && p == h.ring[i] && p in h.mem
      decreases Steps(i, t, |h.ring|)
    {
      assert LinkAt(h.Arena(), i);
      if p >= h.mem[p].next && (bp > p || bp < h.mem[p].next) {
        t := i;
        return;
      }
      p := h.mem[p].next;
      i := if i + 1 < |h.ring| then i + 1 else 0;
    }
    assert LinkAt(h.Arena(), i);
    t := i;
  }

  /** Block b at list position t linked in and joined with the block above, if they touch. */
  ghost function Upper(a: Arena, b: nat, t: nat): Arena
    requires Returns(a, b, t)
  {
    var c := Insert(a, b, t);
    if JoinsAbove(a, b, t) then AboveTouches(a, b, t); Merge(c, t + 1) else c
  }

  /** The arena after freeing block b: joined with the block below too, if they touch. */
  ghost function Freed(a: Arena, b: nat, t: nat): Arena
    requires Returns(a, b, t)
  {
    JoinedAbove(a, b, t);
    if JoinsBelow(a, b, t) then Merge(Upper(a, b, t), t) else Upper(a, b, t)
  }

  ghost predicate JoinsAbove(a: Arena, b: nat, t: nat)
    requires Loose(a) && b in a.blocks
  {
    t + 1 < |a.ring| && b + a.blocks[b] == a.ring[t + 1]
  }

  ghost predicate JoinsBelow(a: Arena, b: nat, t: nat)
    requires Loose(a) && t < |a.ring|
  {
    t > 0 && a.ring[t] + a.blocks[a.ring[t]] == b
  }

  lemma AboveTouches(a: Arena, b: nat, t: nat)
    requires Returns(a, b, t) && JoinsAbove(a, b, t)
    ensures Touching(Insert(a, b, t), t + 1)
  {
    hide Tiled, Sized, Ascending;
    InsertLinked(a, b, t);
    PutInOrder(a.ring, b, t);
  }

  ghost predicate Returns(a: Arena, b: nat, t: nat)
  {
    Ok(a) && t < |a.ring| && b in a.blocks && b !in a.ring && Fits(a.ring, b, t)
  }

  lemma BelowTouches(a: Arena, b: nat, t: nat, c: Arena)
    requires Returns(a, b, t) && JoinsBelow(a, b, t) && Loose(c)
    requires t + 1 < |c.ring| && c.ring[t] == a.ring[t] && c.ring[t + 1] == b
    requires c.blocks[a.ring[t]] == a.blocks[a.ring[t]]
    ensures Touching(c, t)
  {}

  /** After joining with the block above, if they touch: only position t may still touch. */
  lemma JoinedAbove(a: Arena, b: nat, t: nat)
    requires Returns(a, b, t)
    ensures var c2 := Upper(a, b, t);
      && Loose(c2) && (forall j :: 0 <= j < |c2.ring| && j != t ==> Gap(c2, j))
      && t + 1 < |c2.ring| && c2.ring[t] == a.ring[t] && c2.ring[t + 1] == b
      && (t > 0 ==> c2.blocks[a.ring[t]] == a.blocks[a.ring[t]]) && c2.blocks[b] >= a.blocks[b]
  {
    hide Tiled, PutIn, CutOut, LinkAt;
    InsertGaps(a, b, t);
    PutInOrder(a.ring, b, t);
    BlockFacts(a);
    var c := Insert(a, b, t);
    if JoinsAbove(a, b, t) {
      AboveTouches(a, b, t);
      MergeGaps(c, t + 1, t);
      CutOutOrder(c.ring, t + 2);
      MergedBlocks(c, t + 1);
    } else {
      if t + 1 < |a.ring| { OrderListed(a, b, t); }
      assert Gap(c, t + 1);
    }
  }

  lemma OrderListed(a: Arena, b: nat, t: nat)
    requires Returns(a, b, t) && t + 1 < |a.ring|
    ensures b + a.blocks[b] <= a.ring[t + 1]
  {
    Order(a.blocks, a.brk, b, a.ring[t + 1]);
  }

  lemma MergedBlocks(a: Arena, k: nat)
    requires Touching(a, k)
    ensures Merge(a, k).blocks[a.ring[k]] >= a.blocks[a.ring[k]]
    ensures k > 1 ==> a.ring[k - 1] in Merge(a, k).blocks
                      && Merge(a, k).blocks[a.ring[k - 1]] == a.blocks[a.ring[k - 1]]
  {
    hide Tiled, LinkAt, CutOut;
  }

  lemma FreedOk(a: Arena, b: nat, t: nat)
    requires Returns(a, b, t)
    ensures var c := Freed(a, b, t);
      && Ok(c) && a.ring[t] in c.ring && c.brk == a.brk && c.base == a.base
      && exists x :: x in c.ring && x in c.blocks && c.blocks[x] >= a.blocks[b]
  {
    hide Tiled, Sized, CutOut, Upper, LinkAt;
    JoinedAbove(a, b, t);
    var c2 := Upper(a, b, t);
    if JoinsBelow(a, b, t) {
      BelowTouches(a, b, t, c2);
      MergeGaps(c2, t, t);
      CutOutOrder(c2.ring, t + 1);
      MergedWhole(c2, t);
      assert Merge(c2, t).ring[t] == a.ring[t];
    } else {
      GapBelow(a, b, t, c2);
    }
    FreedBase(a, b, t);
  }

  lemma MergedWhole(a: Arena, k: nat)
    requires Touching(a, k)
    ensures Merge(a, k).blocks[a.ring[k]] == a.blocks[a.ring[k]] + a.blocks[a.ring[k + 1]]
  {
    hide Tiled, LinkAt, CutOut;
  }

  lemma GapBelow(a: Arena, b: nat, t: nat, c: Arena)
    requires Returns(a, b, t) && !JoinsBelow(a, b, t) && Loose(c)
    requires t + 1 < |c.ring| && c.ring[t] == a.ring[t] && c.ring[t + 1] == b
    requires t > 0 ==> c.blocks[a.ring[t]] == a.blocks[a.ring[t]]
    ensures Gap(c, t)
  {
    if t > 0 { Order(a.blocks, a.brk, a.ring[t], b); }
  }

  lemma FreedBase(a: Arena, b: nat, t: nat)
    requires Returns(a, b, t)
    ensures Freed(a, b, t).brk == a.brk && Freed(a, b, t).base == a.base
  {}

  lemma UntouchedTrans(live: map<nat, nat>, live': map<nat, nat>, m0: map<nat, Cell>, m1: map<nat, Cell>,
                       m2: map<nat, Cell>)
    requires Untouched(live, m0, m1) && Untouched(live', m1, m2)
    requires forall x :: x in live' ==> x in live && live[x] == live'[x]
    ensures Untouched(live', m0, m2)
  {
    forall c | InLive(live', c)
      ensures InLive(live, c)
    {
      var x :| x in live' && x <= c < x + live'[x];
      assert x in live;
    }
  }

  lemma FreedFrame(a: Arena, b: nat, t: nat)
    requires Returns(a, b, t)
    ensures Live(Freed(a, b, t)) == Live(a) - {b} && Untouched(Live(a) - {b}, a.mem, Freed(a, b, t).mem)
  {
    hide Tiled, CutOut, PutIn, LinkAt, Untouched, Live;
    InsertFrame(a, b, t);
    JoinedAbove(a, b, t);
    var c, c2 := Insert(a, b, t), Upper(a, b, t);
    if JoinsAbove(a, b, t) {
      AboveTouches(a, b, t);
      MergeFrame(c, t + 1);
      UntouchedTrans(Live(c), Live(c2), a.mem, c.mem, c2.mem);
    }
    if JoinsBelow(a, b, t) {
      BelowTouches(a, b, t, c2);
      MergeFrame(c2, t);
      UntouchedTrans(Live(c2), Live(c2), a.mem, c2.mem, Merge(c2, t).mem);
    }
  }

  /** The memory after freeing, cell by cell as the code writes it. */
  ghost predicate Rewritten(a: Arena, b: nat, t: nat, mem: map<nat, Cell>)
    requires Returns(a, b, t)
  {
    var p := a.ring[t];
    var nx := a.mem[p].next;
    nx in a.mem &&
    var hi := if b + a.mem[b].units == nx then Cell(a.mem[nx].next, a.mem[b].units + a.mem[nx].units)
              else Cell(nx, a.mem[b].units);
    var lo := if p + a.mem[p].units == b then Cell(hi.next, a.mem[p].units + hi.units) else Cell(b, a.mem[p].units);
    mem == a.mem[b := hi][p := lo]
  }

  lemma RewrittenIsFreed(a: Arena, b: nat, t: nat, mem: map<nat, Cell>)
    requires Returns(a, b, t) && Rewritten(a, b, t, mem)
    ensures mem == Freed(a, b, t).mem
  {
    hide Tiled, CutOut, PutIn;
    JoinedAbove(a, b, t);
    PutInOrder(a.ring, b, t);
    BlockFacts(a);
    assert LinkAt(a, t);
    assert JoinsAbove(a, b, t) <==> b + a.mem[b].units == a.mem[a.ring[t]].next;
    assert JoinsBelow(a, b, t) <==> a.ring[t] + a.mem[a.ring[t]].units == b;
  }

  /** Join or link block bp in after p. */
  method Relink(h: Allocator, bp: nat, p: nat, ghost t: nat)
    requires Returns(h.Arena(), bp, t) && p == h.ring[t]
    modifies h`mem
    ensures Rewritten(old(h.Arena()), bp, t, h.mem)
  {
    hide Ok, Fits;
    ghost var a := h.Arena();
    NextInMem(a, t);
    BlockInMem(a, bp);
    var nx := h.mem[p].next;
    if bp + h.mem[bp].units == nx {
      h.mem := h.mem[bp := Cell(h.mem[nx].next, h.mem[bp].units + h.mem[nx].units)];
    } else {
      h.mem := h.mem[bp := Cell(nx, h.mem[bp].units)];
    }
    if p + h.mem[p].units == bp {
      h.mem := h.mem[p := Cell(h.mem[bp].next, h.mem[p].units + h.mem[bp].units)];
    } else {
      h.mem := h.mem[p := Cell(bp, h.mem[p].units)];
    }
  }

  /** Give block ap back. Null is ignored. */
  method Free(h: Allocator, ap: nat)
    requires h.Valid() && (ap == 0 || (ap > 1 && ap - 1 in h.Held()))
    modifies h`mem, h`freep, h`blocks, h`ring
    ensures h.Valid() && h.brk == old(h.brk)
    ensures ap == 0 ==> h.mem == old(h.mem) && h.Held() == old(h.Held())
    ensures ap != 0 ==> h.Ready() && h.Held() == old(h.Held()) - {ap - 1} && Untouched(h.Held(), old(h.mem), h.mem)
    // The block is on the list again, alone or as part of a larger one.
    ensures ap != 0 ==> exists x :: x in h.ring && x in h.blocks && h.blocks[x] >= old(h.Held())[ap - 1]
  {
    hide Freed, Ok, Untouched, Fits, Rewritten;
    if ap == 0 { return; }
    ListInit(h);
    var bp := ap - 1;
    ghost var a := h.Arena();
    var p;
    ghost var t;
    p, t := FindPlace(h, bp);
    Relink(h, bp, p, t);
    h.freep := p;
    RewrittenIsFreed(a, bp, t, h.mem);
    FreedOk(a, bp, t);
    FreedFrame(a, bp, t);
    h.blocks, h.ring := Freed(a, bp, t).blocks, Freed(a, bp, t).ring;
    assert h.Arena() == Freed(a, bp, t);
    UntouchedTrans(Live(a), h.Held(), old(h.mem), a.mem, h.mem);
  }

  lemma NextInMem(a: Arena, t: nat)
    requires Ok(a) && t < |a.ring|
    ensures a.ring[t] in a.mem && a.mem[a.ring[t]].next in a.mem && a.mem[a.ring[t]].next in a.ring
  {
    assert LinkAt(a, t);
  }

  lemma BlockInMem(a: Arena, b: nat)
    requires Ok(a) && b in a.blocks
    ensures b in a.mem && a.mem[b].units == a.blocks[b]
  {}

  // -------------------------------------------------------------------- morecore

  /** The kernel hands new pages out zeroed. */
  function ZeroCell(c: nat): Cell { Cell(0, 0) }

  /** Ask the kernel for at least n units and put them on the list. */
  method Morecore(h: Allocator, n: nat) returns (ok: bool)
    requires h.Ready() && 0 < n
    modifies h`mem, h`freep, h`blocks, h`ring, h`brk
    ensures h.Ready() && h.Held() == old(h.Held()) && Untouched(h.Held(), old(h.mem), h.mem)
    ensures !ok ==> h.mem == old(h.mem) && h.freep == old(h.freep) && h.ring == old(h.ring)
                    && h.blocks == old(h.blocks)
    ensures ok == (old(h.brk) + Growth(n) <= LIMIT) && h.brk == old(h.brk) + if ok then Growth(n) else 0
    ensures ok ==> exists x :: x in h.ring && x in h.blocks && h.blocks[x] >= n
  {
    hide Ok, Untouched;
    var nunits := Growth(n);
    if h.brk + nunits > LIMIT {
      SelfUntouched(h.Held(), h.mem);
      return false;
    }
    ghost var a := h.Arena();
    var up := h.brk;
    var pages := map c | up <= c < up + nunits :: ZeroCell(c);
    GrowOk(a, nunits, pages);
    GrowFrame(a, nunits, pages);
    h.mem := h.mem + pages;
    h.brk := h.brk + nunits;
    h.mem := h.mem[up := Cell(h.mem[up].next, nunits)];
    h.blocks := h.blocks[up := nunits];
    ghost var b := h.Arena();
    assert b == Grow(a, nunits, pages);
    assert up in h.Held() && h.Held()[up] == nunits;
    UpAboveOne(a);
    Free(h, up + 1);
    assert h.Held() == Live(a)[up := nunits] - {up};
    assert Live(a)[up := nunits] - {up} == Live(a);
    UntouchedTrans(Live(a), Live(a), a.mem, b.mem, h.mem);
    ok := true;
  }

  lemma SelfUntouched(live: map<nat, nat>, mem: map<nat, Cell>)
    ensures Untouched(live, mem, mem)
  {}

  lemma UpAboveOne(a: Arena)
    requires Ok(a)
    ensures a.brk >= START
  {}

  // ---------------------------------------------------------------------- malloc

  function Units(nbytes: nat): nat { (nbytes + 7) / 8 + 1 }

  ghost predicate Small(a: Arena, j: nat, n: nat)
  {
    j < |a.ring| ==> a.ring[j] in a.mem && a.mem[a.ring[j]].units < n
  }

  /** The search for n units, having started after position f, is at position k:
      everything it passed is too small. */
  ghost predicate Passed(a: Arena, f: nat, k: nat, n: nat)
  {
    forall j :: 0 <= j < |a.ring| && Steps(j, f, |a.ring|) > Steps(k, f, |a.ring|) ==> Small(a, j, n)
  }

  /** Some block not yet passed is large enough. */
  ghost predicate Ahead(a: Arena, f: nat, k: nat, n: nat)
  {
    exists j :: 0 <= j < |a.ring| && Steps(j, f, |a.ring|) <= Steps(k, f, |a.ring|) && !Small(a, j, n)
  }

  ghost predicate Search(h: Allocator, f: nat, k: nat, p: nat, prevp: nat)
    reads h
  {
    && h.Ready() && f < |h.ring| && k < |h.ring| && h.freep == h.ring[f] && p == h.ring[k]
    && (k > 0 ==> prevp == h.ring[k - 1])
  }

  /** One step along the list. */
  lemma Advance(a: Arena, f: nat, k: nat, n: nat) returns (k': nat)
    requires Ok(a) && f < |a.ring| && k < |a.ring| && k != f && Small(a, k, n)
    ensures k' < |a.ring| && a.mem[a.ring[k]].next == a.ring[k'] && (k' > 0 ==> k' == k + 1)
    ensures Steps(k', f, |a.ring|) < Steps(k, f, |a.ring|)
    ensures Passed(a, f, k, n) ==> Passed(a, f, k', n)
    ensures Ahead(a, f, k, n) ==> Ahead(a, f, k', n)
  {
    assert LinkAt(a, k);
    k' := if k + 1 < |a.ring| then k + 1 else 0;
    forall j | 0 <= j < |a.ring| && Steps(j, f, |a.ring|) >= Steps(k, f, |a.ring|)
      ensures j == k || Steps(j, f, |a.ring|) > Steps(k, f, |a.ring|)
    {}
  }

  /** The start of a lap: nothing passed, everything ahead. */
  lemma StartLap(a: Arena, f: nat, n: nat) returns (k: nat)
    requires Ok(a) && f < |a.ring|
    ensures k < |a.ring| && a.mem[a.ring[f]].next == a.ring[k] && (k > 0 ==> k == f + 1)
    ensures Passed(a, f, k, n)
    ensures (exists j :: 0 <= j < |a.ring| && !Small(a, j, n)) ==> Ahead(a, f, k, n)
  {
    assert LinkAt(a, f);
    k := if f + 1 < |a.ring| then f + 1 else 0;
    forall j | 0 <= j < |a.ring|
      ensures Steps(j, f, |a.ring|) <= Steps(k, f, |a.ring|)
    {}
  }

  /** Hand out nunits of the free block p: all of it, or its tail. */
  method Carve(h: Allocator, p: nat, prevp: nat, nunits: nat, ghost f: nat, ghost k: nat) returns (q: nat)
    requires Search(h, f, k, p, prevp) && p in h.mem && h.mem[p].units >= nunits > 0
    modifies h`mem, h`freep, h`blocks, h`ring
    ensures h.Ready() && h.brk == old(h.brk)
    ensures q !in old(h.Held()) && h.Held() == old(h.Held())[q := nunits] && q >= START
    ensures Untouched(old(h.Held()), old(h.mem), h.mem)
  {
    hide Loose, Gap, Untouched, Live;
    ghost var a := h.Arena();
    ListedFacts(a, k);
    q := p;
    if h.mem[p].units == nunits {
      h.mem := h.mem[prevp := Cell(h.mem[p].next, h.mem[prevp].units)];
      TakeWholeOk(a, k);
      TakeWholeFrame(a, k);
      StaysListed(a, k);
      h.ring := TakeWhole(a, k).ring;
      assert h.Arena() == TakeWhole(a, k);
    } else {
      TakeTailOk(a, k, nunits);
      TakeTailFrame(a, k, nunits);
      h.mem := h.mem[p := Cell(h.mem[p].next, h.mem[p].units - nunits)];
      q := q + h.mem[p].units;
      h.mem := h.mem[q := Cell(h.mem[q].next, nunits)];
      h.blocks := TakeTail(a, k, nunits).blocks;
      TailIsNew(a, k, nunits);
      assert h.Arena() == TakeTail(a, k, nunits);
    }
    h.freep := prevp;
  }

  lemma ListedFacts(a: Arena, k: nat)
    requires Ok(a) && k < |a.ring| && a.ring[k] in a.mem && a.mem[a.ring[k]].units > 0
    ensures k > 0 && a.ring[k] in a.blocks && a.blocks[a.ring[k]] == a.mem[a.ring[k]].units
    ensures a.ring[k] >= START && a.ring[k - 1] in a.mem && a.ring[k] !in Live(a)
  {}

  lemma StaysListed(a: Arena, k: nat)
    requires Ok(a) && 1 <= k < |a.ring|
    ensures a.ring[k - 1] in TakeWhole(a, k).ring
  {
    CutOutOrder(a.ring, k);
  }

  lemma TailIsNew(a: Arena, k: nat, n: nat)
    requires Splits(a, k, n)
    ensures a.ring[k] + a.blocks[a.ring[k]] - n !in Live(a) && a.ring[k] + a.blocks[a.ring[k]] - n >= START
  {
    SplitTiled(a.blocks, a.brk, a.ring[k], n);
  }

  /** What the heap grows by when n units are wanted. */
  function Growth(n: nat): nat { if n < NALLOC then NALLOC else n }

  /** The n units from x on lie in the heap and touch no held block. */
  ghost predicate FreeAt(held: map<nat, nat>, brk: nat, x: nat, n: nat)
  {
    START <= x && x + n <= brk && forall y :: y in held ==> x + n <= y || y + held[y] <= x
  }

  ghost predicate HasGap(held: map<nat, nat>, brk: nat, n: nat)
  {
    exists x: nat :: FreeAt(held, brk, x, n)
  }

  /** Nothing can serve n units: no gap between held blocks, and the heap cannot grow. */
  ghost predicate Full(held: map<nat, nat>, brk: nat, n: nat)
  {
    !HasGap(held, brk, n) && brk + Growth(n) > LIMIT
  }

  /** Free blocks never touch, so any gap between held blocks lies in one of them. */
  lemma GapInBlock(a: Arena, x: nat, n: nat) returns (z: nat)
    requires Ok(a) && n > 0 && FreeAt(Live(a), a.brk, x, n)
    ensures z in a.ring && z in a.blocks && a.blocks[z] >= n
  {
    z := Covered(a, x);
    NotHeld(a, z);
    var e := z + a.blocks[z];
    if e < x + n {
      assert Joins(a.blocks, a.brk, z);
      NotHeld(a, e);
      Order(a.blocks, a.brk, z, e);
      FreeApart(a, z, e);
    }
  }

  lemma NotHeld(a: Arena, z: nat)
    requires Ok(a) && z in a.blocks
    ensures z in Live(a) <==> z !in a.ring
    ensures z in Live(a) ==> Live(a)[z] == a.blocks[z] > 0
  {}

  /** A list entry large enough is a gap, and the other way round. */
  lemma ListedGap(a: Arena, k: nat, n: nat)
    requires Ok(a) && n > 0 && k < |a.ring| && a.ring[k] in a.mem && a.mem[a.ring[k]].units >= n
    ensures HasGap(Live(a), a.brk, n)
  {
    var z := a.ring[k];
    assert z in a.blocks;
    forall y | y in Live(a)
      ensures z + n <= y || y + Live(a)[y] <= z
    {
      Order(a.blocks, a.brk, z, y);
    }
    Order(a.blocks, a.brk, z, z);
    assert FreeAt(Live(a), a.brk, z, n);
  }

  lemma NoGapListed(a: Arena, n: nat)
    requires Ok(a) && n > 0 && forall x :: x in a.ring && x in a.blocks ==> a.blocks[x] < n
    ensures !HasGap(Live(a), a.brk, n)
  {
    hide Ok, Live;
    if HasGap(Live(a), a.brk, n) {
      var x: nat :| FreeAt(Live(a), a.brk, x, n);
      var z := GapInBlock(a, x, n);
    }
  }

  lemma NewApart(a: Arena, held: map<nat, nat>, x: nat, n: nat)
    requires Ok(a) && x !in held && Live(a) == held[x := n]
    ensures FreeAt(held, a.brk, x, n)
  {
    hide Ok, Live;
    assert x in Live(a);
    forall y | y in held
      ensures x + n <= y || y + held[y] <= x
    {
      assert y in Live(a);
      HeldApart(a, x, y);
    }
    HeldApart(a, x, x);
  }

  /** A block of at least nbytes bytes, or null. The search makes at most one
      lap before asking for more core and one after. */
  method Malloc(h: Allocator, nbytes: nat) returns (r: nat)
    requires h.Valid()
    modifies h`mem, h`freep, h`blocks, h`ring, h`brk
    ensures h.Valid() && (r != 0 ==> h.Ready())
    ensures r != 0 ==>
              && r - 1 !in old(h.Held()) && h.Held() == old(h.Held())[r - 1 := Units(nbytes)]
              && 8 * (Units(nbytes) - 1) >= nbytes > 0
              && FreeAt(old(h.Held()), h.brk, r - 1, Units(nbytes))
    ensures r == 0 ==> h.Held() == old(h.Held())
    ensures Untouched(old(h.Held()), old(h.mem), h.mem)
    // Refused exactly for a bad size or when no gap between held blocks is large enough and the heap cannot grow.
    ensures r == 0 <==> nbytes == 0 || nbytes >= TOO_BIG || Full(old(h.Held()), old(h.brk), Units(nbytes))
    // It grows only if no gap is large enough.
    ensures h.brk == old(h.brk) +
              if r == 0 || HasGap(old(h.Held()), old(h.brk), Units(nbytes)) then 0 else Growth(Units(nbytes))
  {
    hide Ok, Untouched, Live, Passed, Ahead, Small, HasGap, FreeAt;
    SelfUntouched(h.Held(), h.mem);
    if nbytes == 0 || nbytes >= TOO_BIG { return 0; }
    var nunits := Units(nbytes);
    ListInit(h);
    ghost var f := Index(h.ring, h.freep);
    ghost var k := StartLap(h.Arena(), f, nunits);
    NextInMem(h.Arena(), f);
    var prevp := h.freep;
    var p := h.mem[prevp].next;
    ghost var grown := false;
    while true
      invariant Search(h, f, k, p, prevp) && h.Held() == old(h.Held()) && Untouched(h.Held(), old(h.mem), h.mem)
      invariant grown ==> Ahead(h.Arena(), f, k, nunits)
      invariant grown ==> !HasGap(old(h.Held()), old(h.brk), nunits) && old(h.brk) + Growth(nunits) <= LIMIT
                          && h.brk == old(h.brk) + Growth(nunits)
      invariant !grown ==> Passed(h.Arena(), f, k, nunits) && h.brk == old(h.brk)
      decreases if grown then 0 else 1, Steps(k, f, |h.ring|)
    {
      NextInMem(h.Arena(), k);
      if h.mem[p].units >= nunits {
        ghost var mid := h.mem;
        if !grown { ListedGap(h.Arena(), k, nunits); }
        var q := Carve(h, p, prevp, nunits, f, k);
        UntouchedTrans(old(h.Held()), old(h.Held()), old(h.mem), mid, h.mem);
        NewApart(h.Arena(), old(h.Held()), q, nunits);
        return q + 1;
      }
      Dismiss(h.Arena(), k, nunits);
      if p == h.freep {
        LapDone(h.Arena(), f, k, nunits);
        NoGapListed(h.Arena(), nunits);
        ghost var mid := h.mem;
        var ok := Morecore(h, nunits);
        UntouchedTrans(old(h.Held()), old(h.Held()), old(h.mem), mid, h.mem);
        if !ok { return 0; }
        grown := true;
        p := h.freep;
        f := Index(h.ring, h.freep);
        k := StartLap(h.Arena(), f, nunits);
        RoomAhead(h.Arena(), f, k, nunits);
        NextInMem(h.Arena(), f);
      } else {
        k := Advance(h.Arena(), f, k, nunits);
      }
      prevp, p := p, h.mem[p].next;
    }
  }

  ghost function Index(s: seq<nat>, x: nat): (i: nat)
    requires x in s
    ensures i < |s| && s[i] == x
  {
    if s[0] == x then 0 else 1 + Index(s[1..], x)
  }

  lemma Dismiss(a: Arena, k: nat, n: nat)
    requires Ok(a) && k < |a.ring| && a.ring[k] in a.mem && a.mem[a.ring[k]].units < n
    ensures Small(a, k, n)
  {}

  /** Back at the start with nothing found: nothing on the list is large enough. */
  lemma LapDone(a: Arena, f: nat, k: nat, n: nat)
    requires Ok(a) && f < |a.ring| && k < |a.ring| && a.ring[k] == a.ring[f] && Small(a, k, n)
    ensures k == f && !Ahead(a, f, k, n)
    ensures Passed(a, f, k, n) ==> forall x :: x in a.ring && x in a.blocks ==> a.blocks[x] < n
  {
    AscendingTo(a.ring, f);
    if Passed(a, f, k, n) {
      forall x | x in a.ring && x in a.blocks
        ensures a.blocks[x] < n
      {
        assert Small(a, Index(a.ring, x), n);
      }
    }
  }

  lemma RoomAhead(a: Arena, f: nat, k: nat, n: nat)
    requires Ok(a) && exists x :: x in a.ring && x in a.blocks && a.blocks[x] >= n
    requires (exists j :: 0 <= j < |a.ring| && !Small(a, j, n)) ==> Ahead(a, f, k, n)
    ensures Ahead(a, f, k, n)
  {
    var x :| x in a.ring && x in a.blocks && a.blocks[x] >= n;
    assert !Small(a, Index(a.ring, x), n);
  }

  // --------------------------------------------------------------------- realloc

  /** Cell number i from address x. */
  function Word(mem: map<nat, Cell>, x: nat, i: nat): Cell { if x + i in mem then mem[x + i] else Cell(0, 0) }

  /** The n cells from x on are mapped. */
  ghost predicate Span(mem: map<nat, Cell>, x: nat, n: nat)
  {
    forall c :: x <= c < x + n ==> c in mem
  }

  /** Cell c is payload of a held block. */
  ghost predicate Inside(live: map<nat, nat>, c: nat)
  {
    exists x :: x in live && x < c < x + live[x]
  }

  /** Distinct held blocks do not overlap and lie in the heap. */
  lemma HeldApart(a: Arena, x: nat, y: nat)
    requires Ok(a) && x in Live(a) && y in Live(a)
    ensures START <= x && x + Live(a)[x] <= a.brk && (x != y ==> x + Live(a)[x] <= y || y + Live(a)[y] <= x)
  {
    Order(a.blocks, a.brk, x, y);
  }

  lemma NotHeader(a: Arena, c: nat)
    requires Ok(a) && Inside(Live(a), c)
    ensures c !in a.blocks && c !in a.ring && c != a.base && c in a.mem
  {
    BlockFacts(a);
    var x :| x in Live(a) && x < c < x + Live(a)[x];
    assert x in a.blocks && a.blocks[x] == Live(a)[x];
  }

  /** The program may write what it likes into its payloads. */
  lemma PayloadFree(a: Arena, mem: map<nat, Cell>)
    requires Ok(a) && mem.Keys == a.mem.Keys
    requires forall c :: c in a.mem && !Inside(Live(a), c) ==> mem[c] == a.mem[c]
    ensures Ok(a.(mem := mem)) && Live(a.(mem := mem)) == Live(a)
  {
    hide Tiled, Ascending;
    var b := a.(mem := mem);
    forall c | c in a.blocks || c in a.ring || c == a.base
      ensures c in mem && mem[c] == a.mem[c]
    {
      if Inside(Live(a), c) { NotHeader(a, c); }
    }
    forall i | 0 <= i < |b.ring|
      ensures LinkAt(b, i)
    {
      assert LinkAt(a, i);
    }
    forall k | 0 <= k < |b.ring|
      ensures Gap(b, k)
    {
      assert Gap(a, k);
    }
  }

  /** The program stores into a block it holds. */
  method Store(h: Allocator, x: nat, c: nat, v: Cell)
    requires h.Ready() && x in h.Held() && x < c < x + h.Held()[x]
    modifies h`mem
    ensures h.Ready() && h.Held() == old(h.Held()) && h.mem == old(h.mem)[c := v]
  {
    hide Ok, Live;
    NotHeader(h.Arena(), c);
    PayloadFree(h.Arena(), h.mem[c := v]);
    h.mem := h.mem[c := v];
  }

  function Shifted(mem: map<nat, Cell>, dst: nat, src: nat, c: nat): Cell
  {
    if c >= dst then Word(mem, src, c - dst) else Cell(0, 0)
  }

  /** Copy n cells between two blocks the program holds. */
  method CopyCells(h: Allocator, dst: nat, src: nat, n: nat)
    requires h.Ready() && dst > 0 && src > 0 && dst - 1 in h.Held() && src - 1 in h.Held() && dst != src
    requires n < h.Held()[dst - 1] && n < h.Held()[src - 1]
    modifies h`mem
    ensures h.Ready() && h.Held() == old(h.Held()) && h.mem.Keys == old(h.mem.Keys)
    ensures forall i :: 0 <= i < n ==> Word(h.mem, dst, i) == Word(old(h.mem), src, i)
    ensures forall c :: c in h.mem && !(dst <= c < dst + n) ==> h.mem[c] == old(h.mem)[c]
  {
    hide Ok, Live;
    var copy: map<nat, Cell> := map c: nat | dst <= c < dst + n :: Shifted(h.mem, dst, src, c);
    forall c | c in copy
      ensures c in h.mem && Inside(h.Held(), c)
    {
      assert dst - 1 < c < dst - 1 + h.Held()[dst - 1];
      NotHeader(h.Arena(), c);
    }
    assert (h.mem + copy).Keys == h.mem.Keys;
    PayloadFree(h.Arena(), h.mem + copy);
    h.mem := h.mem + copy;
  }

  /** Grow a block, moving it if need be; its contents come along. */
  method Realloc(h: Allocator, ap: nat, nbytes: nat) returns (r: nat)
    requires h.Valid() && (ap == 0 || (ap > 1 && ap - 1 in h.Held()))
    modifies h`mem, h`freep, h`blocks, h`ring, h`brk
    ensures h.Valid()
    ensures ap == 0 && r != 0 ==> r - 1 !in old(h.Held()) && h.Held() == old(h.Held())[r - 1 := Units(nbytes)]
    ensures ap != 0 && nbytes == 0 ==> r == 0 && h.Held() == old(h.Held()) - {ap - 1}
    ensures r == 0 && (ap == 0 || nbytes != 0) ==>
              h.Held() == old(h.Held()) && Untouched(h.Held(), old(h.mem), h.mem)
    // It fails exactly if a larger block is wanted and malloc would refuse it.
    ensures ap == 0 || nbytes != 0 ==>
              (r == 0 <==> (ap == 0 || 8 * (old(h.Held())[ap - 1] - 1) < nbytes)
                           && (nbytes == 0 || nbytes >= TOO_BIG || Full(old(h.Held()), old(h.brk), Units(nbytes))))
    ensures h.brk == old(h.brk) +
              if r == 0 || r == ap || HasGap(old(h.Held()), old(h.brk), Units(nbytes)) then 0 else Growth(Units(nbytes))
    ensures r != 0 && r != ap ==> FreeAt(old(h.Held()), h.brk, r - 1, Units(nbytes))
    // Large enough already: nothing moves. Otherwise a new block takes the old one's place, contents and all.
    ensures ap != 0 && r == ap ==>
              h.Held() == old(h.Held()) && h.mem == old(h.mem) && 8 * (h.Held()[ap - 1] - 1) >= nbytes
    ensures ap != 0 && r != 0 && r != ap ==>
              && r - 1 !in old(h.Held()) && h.Held() == old(h.Held())[r - 1 := Units(nbytes)] - {ap - 1}
              && Units(nbytes) > old(h.Held())[ap - 1]
              && forall i :: 0 <= i < old(h.Held())[ap - 1] - 1 ==> Word(h.mem, r, i) == Word(old(h.mem), ap, i)
    ensures var others := old(h.Held()) - (if ap == 0 then {} else {ap - 1}); Untouched(others, old(h.mem), h.mem)
  {
    hide Ok, Live, Untouched, HasGap, FreeAt;
    ghost var live, mem0 := h.Held(), h.mem;
    SelfUntouched(live - {if ap == 0 then 0 else ap - 1}, h.mem);
    SelfUntouched(live, h.mem);
    if ap == 0 {
      assert live - {} == live;
      r := Malloc(h, nbytes);
      return;
    }
    if nbytes == 0 {
      Free(h, ap);
      return 0;
    }
    HeldReady(h);
    BlockHeld(h.Arena(), ap - 1);
    var keep := (h.mem[ap - 1].units - 1) * 8;
    if keep >= nbytes { return ap; }
    r := Malloc(h, nbytes);
    if r == 0 {
      UntouchedLess(live, live - {ap - 1}, mem0, h.mem);
      return;
    }
    MoveOver(h, ap, r, keep / 8, live, mem0);
  }

  /** Copy the old block's contents into the new one, then free the old one. */
  method MoveOver(h: Allocator, ap: nat, np: nat, n: nat, ghost live: map<nat, nat>, ghost mem0: map<nat, Cell>)
    requires h.Ready() && ap > 1 && np > 0 && ap - 1 in live && np - 1 !in live && n + 1 == live[ap - 1]
    requires np - 1 in h.Held() && h.Held() == live[np - 1 := h.Held()[np - 1]] && n + 1 < h.Held()[np - 1]
    requires Untouched(live, mem0, h.mem) && Span(mem0, ap, n)
    modifies h`mem, h`freep, h`blocks, h`ring
    ensures h.Ready() && h.Held() == old(h.Held()) - {ap - 1}
    ensures forall i :: 0 <= i < n ==> Word(h.mem, np, i) == Word(mem0, ap, i)
    ensures Untouched(live - {ap - 1}, mem0, h.mem)
  {
    hide Ok, Live, Untouched;
    ghost var a, held := h.Arena(), h.Held();
    CopyCells(h, np, ap, n);
    CopyFrame(a, live, mem0, h.mem, ap, np, n);
    ghost var mem1 := h.mem;
    BlockHeld(h.Arena(), np - 1);
    Free(h, ap);
    WordsKept(h.Held(), mem1, h.mem, np, n);
    UntouchedLess(h.Held(), live - {ap - 1}, mem1, h.mem);
    UntouchedTrans(live - {ap - 1}, live - {ap - 1}, mem0, mem1, h.mem);
  }

  lemma HeldReady(h: Allocator)
    requires h.Valid() && h.Held() != map[]
    ensures h.Ready()
  {}

  lemma BlockHeld(a: Arena, x: nat)
    requires Ok(a) && x in Live(a)
    ensures x in a.mem && a.mem[x].units == Live(a)[x] > 0
    ensures Span(a.mem, x + 1, Live(a)[x] - 1)
  {
    BlockFacts(a);
  }

  lemma UntouchedLess(live: map<nat, nat>, less: map<nat, nat>, m0: map<nat, Cell>, m1: map<nat, Cell>)
    requires Untouched(live, m0, m1)
    requires forall x :: x in less ==> x in live && live[x] == less[x]
    ensures Untouched(less, m0, m1)
  {
    SelfUntouched(live, m0);
    forall c | InLive(less, c)
      ensures InLive(live, c)
    {
      var x :| x in less && x <= c < x + less[x];
      assert x in live;
    }
  }

  /** Copying into the new block leaves the other held blocks alone and reads the old contents. */
  lemma CopyFrame(a: Arena, live: map<nat, nat>, mem0: map<nat, Cell>, mem: map<nat, Cell>, ap: nat, np: nat, n: nat)
    requires Ok(a) && ap > 1 && np > 0 && ap - 1 in live && np - 1 !in live && n + 1 == live[ap - 1]
    requires np - 1 in Live(a) && Live(a) == live[np - 1 := Live(a)[np - 1]] && n < Live(a)[np - 1]
    requires Untouched(live, mem0, a.mem) && Span(mem0, ap, n)
    requires mem.Keys == a.mem.Keys && forall c :: c in mem && !(np <= c < np + n) ==> mem[c] == a.mem[c]
    ensures Untouched(live - {ap - 1}, mem0, mem)
    ensures forall i :: 0 <= i < n ==> Word(a.mem, ap, i) == Word(mem0, ap, i)
  {
    hide Ok, Live;
    forall i | 0 <= i < n
      ensures Word(a.mem, ap, i) == Word(mem0, ap, i)
    {
      assert InLive(live, ap + i);
    }
    forall c | InLive(live - {ap - 1}, c) && c in mem0
      ensures c in mem && mem[c] == mem0[c]
    {
      var x :| x in live - {ap - 1} && x <= c < x + live[x];
      assert InLive(live, c);
      HeldApart(a, x, np - 1);
    }
  }

  lemma WordsKept(live: map<nat, nat>, m0: map<nat, Cell>, m1: map<nat, Cell>, np: nat, n: nat)
    requires Untouched(live, m0, m1) && np > 0 && np - 1 in live && n < live[np - 1]
    requires Span(m0, np, n)
    ensures forall i :: 0 <= i < n ==> Word(m1, np, i) == Word(m0, np, i)
  {
    forall i | 0 <= i < n
      ensures Word(m1, np, i) == Word(m0, np, i)
    {
      assert InLive(live, np + i);
    }
  }
}
