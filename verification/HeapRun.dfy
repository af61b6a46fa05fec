/** Whole runs of a program against its allocator: every block behaves like an
    array of its own (user/libc/stdlib.c:50-141). */
module HeapRun {
  import opened Sequences
  import opened HeapArena
  import opened Heap

  /** What the program does with its heap. */
  datatype Call = Get(nbytes: nat) | Put(ap: nat) | Resize(ap: nat, nbytes: nat) | Poke(block: nat, i: nat, v: Cell)

  /** What the program last stored, block by block. */
  type Shadow = map<nat, map<nat, Cell>>

  function Stored(shadow: Shadow, x: nat, i: nat, v: Cell): Shadow
    requires x in shadow
  {
    var cells: map<nat, Cell> := shadow[x][i := v];
    shadow[x := cells]
  }

  ghost predicate Holds(held: map<nat, nat>, mem: map<nat, Cell>, shadow: Shadow, x: nat, i: nat)
  {
    x in shadow && x in held && i in shadow[x] ==> i + 1 < held[x] && x + 1 + i in mem && mem[x + 1 + i] == shadow[x][i]
  }

  /** The heap has exactly the program's blocks, and each holds what was stored in it. */
  ghost predicate Agrees(held: map<nat, nat>, mem: map<nat, Cell>, shadow: Shadow)
  {
    shadow.Keys == held.Keys && forall x: nat, i: nat :: Holds(held, mem, shadow, x, i)
  }

  lemma Kept(held: map<nat, nat>, less: map<nat, nat>, mem: map<nat, Cell>, mem': map<nat, Cell>, shadow: Shadow,
             shadow': Shadow)
    requires Agrees(held, mem, shadow) && Untouched(less, mem, mem')
    requires forall x :: x in less ==> x in held && held[x] == less[x]
    requires shadow'.Keys == less.Keys && forall x :: x in less ==> shadow'[x] == shadow[x]
    ensures Agrees(less, mem', shadow')
  {
    forall x: nat, i: nat
      ensures Holds(less, mem', shadow', x, i)
    {
      assert Holds(held, mem, shadow, x, i);
      if x in shadow' && i in shadow'[x] {
        assert InLive(less, x + 1 + i);
      }
    }
  }

  lemma Added(held: map<nat, nat>, mem: map<nat, Cell>, shadow: Shadow, x: nat, n: nat)
    requires Agrees(held, mem, shadow)
    ensures Agrees(held[x := n], mem, shadow[x := map[]])
  {
    var h, s := held[x := n], shadow[x := map[]];
    forall y: nat, i: nat
      ensures Holds(h, mem, s, y, i)
    {
      assert Holds(held, mem, shadow, y, i);
    }
  }

  lemma Poked(a: Arena, shadow: Shadow, x: nat, i: nat, v: Cell)
    requires Ok(a) && Agrees(Live(a), a.mem, shadow) && x in Live(a) && i + 1 < Live(a)[x]
    ensures Agrees(Live(a), a.mem[x + 1 + i := v], Stored(shadow, x, i, v))
  {
    var mem, s := a.mem[x + 1 + i := v], Stored(shadow, x, i, v);
    forall y: nat, j: nat
      ensures Holds(Live(a), mem, s, y, j)
    {
      assert Holds(Live(a), a.mem, shadow, y, j);
      if y in Live(a) { HeldApart(a, x, y); }
    }
  }

  /** The block whose payload was at xp moved, contents and all, to yp. */
  lemma Moved(held: map<nat, nat>, mem: map<nat, Cell>, mem': map<nat, Cell>, shadow: Shadow, xp: nat, yp: nat, n: nat)
    requires xp > 0 && yp > 0 && Agrees(held, mem, shadow) && xp - 1 in held && yp - 1 !in held && n > held[xp - 1] > 0
    requires Untouched(held - {xp - 1}, mem, mem') && Span(mem', yp, n - 1)
    requires forall i :: 0 <= i < held[xp - 1] - 1 ==> Word(mem', yp, i) == Word(mem, xp, i)
    ensures Agrees(held[yp - 1 := n] - {xp - 1}, mem', shadow[yp - 1 := shadow[xp - 1]] - {xp - 1})
  {
    var x, y := xp - 1, yp - 1;
    var h, s := held[y := n] - {x}, shadow[y := shadow[x]] - {x};
    Kept(held, held - {x}, mem, mem', shadow, shadow - {x});
    forall z: nat, i: nat
      ensures Holds(h, mem', s, z, i)
    {
      assert Holds(held, mem, shadow, z, i) && Holds(held, mem, shadow, x, i);
      assert Holds(held - {x}, mem', shadow - {x}, z, i);
      if z == y && i in s[y] {
        assert Word(mem', yp, i) == Word(mem, xp, i);
      }
    }
  }

  /** What the program sees of its heap: its blocks with their sizes in units, what it
      stored in them, and where the heap ends. */
  datatype View = View(mine: map<nat, nat>, shadow: Shadow, brk: nat)

  /** malloc of n bytes is refused: a bad size, or no gap between the blocks is large
      enough and the heap cannot grow. */
  ghost predicate Refused(v: View, n: nat)
  {
    n == 0 || n >= TOO_BIG || Full(v.mine, v.brk, Units(n))
  }

  /** The end of the heap after n bytes were served. */
  ghost function Extent(v: View, n: nat): nat
  {
    v.brk + if HasGap(v.mine, v.brk, Units(n)) then 0 else Growth(Units(n))
  }

  /** A call on an ideal heap; all is determined up to the choice of address. */
  ghost predicate Effect(v: View, call: Call, v': View)
  {
    match call
    case Get(n) => Gets(v, n, v')
    case Put(ap) => v' == if ap > 1 && ap - 1 in v.mine then Without(v, ap - 1) else v
    case Resize(ap, n) =>
      if ap == 0 then Gets(v, n, v')
      else if ap - 1 !in v.mine || ap == 1 then v' == v
      else Resizes(v, ap - 1, n, v')
    case Poke(x, i, c) =>
      v' == if x in v.mine && x in v.shadow && i + 1 < v.mine[x] then v.(shadow := Stored(v.shadow, x, i, c)) else v
  }

  ghost predicate Gets(v: View, n: nat, v': View)
  {
    if Refused(v, n) then v' == v else exists x: nat :: Allocates(v, n, x, v')
  }

  ghost predicate Resizes(v: View, y: nat, n: nat, v': View)
  {
    y in v.mine &&
    if n == 0 then v' == Without(v, y)
    else if 8 * (v.mine[y] - 1) >= n || Refused(v, n) then v' == v
    else exists x: nat :: Moves(v, y, n, x, v')
  }

  function Without(v: View, x: nat): View { View(v.mine - {x}, v.shadow - {x}, v.brk) }

  /** A new block at x, apart from all others, with nothing stored in it yet. */
  ghost predicate Allocates(v: View, n: nat, x: nat, v': View)
  {
    && x !in v.mine && FreeAt(v.mine, v'.brk, x, Units(n))
    && v' == View(v.mine[x := Units(n)], v.shadow[x := map[]], Extent(v, n))
  }

  /** The block at y becomes a larger one at x, apart from all others, with the same contents. */
  ghost predicate Moves(v: View, y: nat, n: nat, x: nat, v': View)
  {
    && y in v.mine && y in v.shadow && x !in v.mine && FreeAt(v.mine, v'.brk, x, Units(n)) && Units(n) > v.mine[y]
    && v' == View(v.mine[x := Units(n)] - {y}, v.shadow[x := v.shadow[y]] - {y}, Extent(v, n))
  }

  /** The blocks lie in the heap and do not overlap. */
  ghost predicate Apart(v: View)
  {
    forall x, y :: x in v.mine && y in v.mine ==>
      START <= x && x + v.mine[x] <= v.brk && (x != y ==> x + v.mine[x] <= y || y + v.mine[y] <= x)
  }

  lemma AllApart(h: Allocator, shadow: Shadow)
    requires h.Valid()
    ensures Apart(View(h.Held(), shadow, h.brk))
  {
    hide Ok, Live;
    forall x, y | x in h.Held() && y in h.Held()
      ensures START <= x && x + h.Held()[x] <= h.brk && (x != y ==> x + h.Held()[x] <= y || y + h.Held()[y] <= x)
    {
      HeldReady(h);
      HeldApart(h.Arena(), x, y);
    }
  }

  /** One call, if the program may make it. */
  method Perform(h: Allocator, call: Call, mine0: map<nat, nat>, ghost shadow0: Shadow)
    returns (mine: map<nat, nat>, ghost shadow: Shadow)
    requires h.Valid() && mine0 == h.Held() && Agrees(mine0, h.mem, shadow0)
    modifies h
    ensures h.Valid() && mine == h.Held() && Agrees(mine, h.mem, shadow)
    ensures Effect(View(mine0, shadow0, old(h.brk)), call, View(mine, shadow, h.brk))
  {
    hide Ok, Live, Untouched, Agrees, HasGap, FreeAt;
    mine, shadow := mine0, shadow0;
    SameKeys(mine0, shadow0, h.mem);
    match call
    case Get(n) => mine, shadow := Getting(h, n, mine0, shadow0);
    case Put(ap) =>
      if ap > 1 && ap - 1 in mine {
        Free(h, ap);
        mine, shadow := mine - {ap - 1}, shadow - {ap - 1};
        Kept(mine0, mine, old(h.mem), h.mem, shadow0, shadow);
      }
    case Resize(ap, n) =>
      if ap == 0 {
        mine, shadow := Getting(h, n, mine0, shadow0);
      } else if ap > 1 && ap - 1 in mine {
        mine, shadow := Resizing(h, ap, n, mine0, shadow0);
      }
    case Poke(x, i, c) =>
      if x in mine && i + 1 < mine[x] {
        HeldReady(h);
        Poked(h.Arena(), shadow, x, i, c);
        Store(h, x, x + 1 + i, c);
        shadow := Stored(shadow, x, i, c);
      }
  }

  lemma SameKeys(held: map<nat, nat>, shadow: Shadow, mem: map<nat, Cell>)
    requires Agrees(held, mem, shadow)
    ensures shadow.Keys == held.Keys
  {}

  /** malloc, or realloc of no block. */
  method Getting(h: Allocator, n: nat, mine0: map<nat, nat>, ghost shadow0: Shadow)
    returns (mine: map<nat, nat>, ghost shadow: Shadow)
    requires h.Valid() && mine0 == h.Held() && Agrees(mine0, h.mem, shadow0)
    modifies h
    ensures h.Valid() && mine == h.Held() && Agrees(mine, h.mem, shadow)
    ensures Gets(View(mine0, shadow0, old(h.brk)), n, View(mine, shadow, h.brk))
  {
    hide Ok, Live, Untouched, Agrees, HasGap, FreeAt;
    mine, shadow := mine0, shadow0;
    ghost var v := View(mine0, shadow0, h.brk);
    SameKeys(mine0, shadow0, h.mem);
    var r := Realloc(h, 0, n);
    assert mine0 - {} == mine0;
    Kept(mine0, mine0, old(h.mem), h.mem, shadow0, shadow0);
    if r != 0 {
      Added(mine0, h.mem, shadow0, r - 1, Units(n));
      mine, shadow := mine[r - 1 := Units(n)], shadow[r - 1 := map[]];
      assert Allocates(v, n, r - 1, View(mine, shadow, h.brk));
    }
  }

  method Resizing(h: Allocator, ap: nat, n: nat, mine0: map<nat, nat>, ghost shadow0: Shadow)
    returns (mine: map<nat, nat>, ghost shadow: Shadow)
    requires h.Valid() && mine0 == h.Held() && Agrees(mine0, h.mem, shadow0) && ap > 1 && ap - 1 in mine0
    modifies h
    ensures h.Valid() && mine == h.Held() && Agrees(mine, h.mem, shadow)
    ensures Effect(View(mine0, shadow0, old(h.brk)), Resize(ap, n), View(mine, shadow, h.brk))
  {
    hide Ok, Live, Untouched, Agrees, HasGap, FreeAt;
    SameKeys(mine0, shadow0, h.mem);
    ghost var mem0, brk0 := h.mem, h.brk;
    HeldReady(h);
    BlockHeld(h.Arena(), ap - 1);
    var r := Realloc(h, ap, n);
    mine, shadow := mine0, shadow0;
    if n == 0 {
      mine, shadow := mine - {ap - 1}, shadow - {ap - 1};
      Kept(mine0, mine, mem0, h.mem, shadow0, shadow);
    } else if r == 0 {
      Kept(mine0, mine0, mem0, h.mem, shadow0, shadow0);
    } else if r != ap {
      assert r - 1 in h.Held();
      HeldReady(h);
      BlockHeld(h.Arena(), r - 1);
      Moved(mine0, mem0, h.mem, shadow0, ap, r, Units(n));
      mine, shadow := mine[r - 1 := Units(n)] - {ap - 1}, shadow[r - 1 := shadow[ap - 1]] - {ap - 1};
      assert Moves(View(mine0, shadow0, brk0), ap - 1, n, r - 1, View(mine, shadow, h.brk));
    }
  }

  /** Any sequence of calls is a run of the ideal heap: every block still held
      contains what was stored in it, wherever it moved. */
  method Run(h: Allocator, calls: seq<Call>) returns (mine: map<nat, nat>, ghost views: seq<View>)
    requires h.Valid() && h.Held() == map[]
    modifies h
    ensures h.Valid() && mine == h.Held()
    ensures |views| == |calls| + 1 && views[0] == View(map[], map[], old(h.brk))
    ensures forall k :: 0 <= k < |calls| ==> Effect(views[k], calls[k], views[k + 1])
    ensures forall k :: 0 <= k <= |calls| ==> Apart(views[k])
    ensures views[|calls|].mine == mine && views[|calls|].brk == h.brk && Agrees(mine, h.mem, views[|calls|].shadow)
  {
    hide Effect, Ok, Live, Apart;
    mine := map[];
    ghost var shadow: Shadow := map[];
    views := [View(map[], map[], h.brk)];
    AllApart(h, shadow);
    for k := 0 to |calls|
      invariant h.Valid() && mine == h.Held() && Agrees(mine, h.mem, shadow)
      invariant |views| == k + 1 && views[0] == View(map[], map[], old(h.brk)) && views[k] == View(mine, shadow, h.brk)
      invariant forall j :: 0 <= j < k ==> Effect(views[j], calls[j], views[j + 1])
      invariant forall j :: 0 <= j <= k ==> Apart(views[j])
    {
      mine, shadow := Perform(h, calls[k], mine, shadow);
      AllApart(h, shadow);
      views := views + [View(mine, shadow, h.brk)];
    }
  }
}
