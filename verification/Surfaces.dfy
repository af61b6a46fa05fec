/** Window surfaces over page directories and the frame bitmap
    (kernel/wsurf.c:18-110, 149-163, 188-228; kernel/paging.c:43-124). Each
    call is one step. Pages and frames are 4 KiB, named by number. */
module Surfaces {
  import opened Machine

  const SLOTS: nat := 3
  const MAX_W: nat := 800
  const MAX_H: nat := 600
  const CLIENT: nat := 0x74000          // USER_WSURF_BASE
  const SERVER: nat := 0x74400          // USER_WSRV_BASE
  const SPAN: nat := 0x200              // WSURF_SLOT_SPAN
  const WINDOWS_END: nat := SERVER + SLOTS * SPAN
  const POOL_PAGES: nat := 1407         // three surfaces of 800x600x4 bytes, end to end
  const PAGES: nat := 0x100000          // pages of an address space

  /** One surface slot. */
  datatype Surf = Surf(used: bool, alive: bool, owner: nat, server: Option<nat>, w: nat, h: nat)

  /** A task's own page table entries: page to frame. Kernel tables, shared by all, are not in it. */
  type Dir = map<nat, nat>

  /** Pages a surface maps. */
  function MapPages(s: Surf): nat { (s.w * s.h * 4 + 0xFFF) / 0x1000 }

  /** First frame of a slot's pixels; slots follow each other in the pool without padding. */
  function SlotFrame(pool: nat, slot: nat): nat { pool + slot * (MAX_W * MAX_H * 4) / 0x1000 }

  lemma FitsWindow(s: Surf, pool: nat, slot: nat)
    requires 1 <= s.w <= MAX_W && 1 <= s.h <= MAX_H && slot < SLOTS
    ensures 1 <= MapPages(s) <= 469
    ensures pool <= SlotFrame(pool, slot) && SlotFrame(pool, slot) + MapPages(s) <= pool + POOL_PAGES
  {
    assert 1 <= s.w * s.h <= MAX_W * MAX_H by { Bound(s.w, s.h); }
  }

  lemma Bound(w: nat, h: nat)
    requires 1 <= w <= MAX_W && 1 <= h <= MAX_H
    ensures 1 <= w * h <= MAX_W * MAX_H
  {
    MulMono(1, w, h);
    MulMono(w, MAX_W, h);
  }

  predicate InWindow(p: nat) { CLIENT <= p < WINDOWS_END }

  predicate Owns(s: Surf, t: nat) { s.used && s.alive && s.owner == t }

  predicate Serves(s: Surf, t: nat) { s.used && s.server == Some(t) }

  /** The frame that task t must see at page p of the window area, if any. */
  ghost function Expect(pool: nat, surfs: seq<Surf>, t: nat, p: nat): Option<nat>
    requires |surfs| == SLOTS && InWindow(p)
  {
    if p < SERVER then
      if Owns(surfs[0], t) then At(pool, surfs[0], 0, p - CLIENT)
      else if Owns(surfs[1], t) then At(pool, surfs[1], 1, p - CLIENT)
      else if Owns(surfs[2], t) then At(pool, surfs[2], 2, p - CLIENT)
      else None
    else
      var slot := (p - SERVER) / SPAN;
      if Serves(surfs[slot], t) then At(pool, surfs[slot], slot, (p - SERVER) % SPAN) else None
  }

  ghost function At(pool: nat, s: Surf, slot: nat, i: nat): Option<nat>
  {
    if i < MapPages(s) then Some(SlotFrame(pool, slot) + i) else None
  }

  function Entry(d: Dir, p: nat, f: nat): Dir { d[p := f] }

  function Look(d: Dir, p: nat): Option<nat> { if p in d then Some(d[p]) else None }

  /** A used slot has a living owner or a server, and both are running tasks. */
  ghost predicate SlotOk(s: Surf, running: set<nat>)
  {
    s.used ==>
      && (s.alive || s.server.Some?) && 1 <= s.w <= MAX_W && 1 <= s.h <= MAX_H
      && (s.alive ==> s.owner in running) && (s.server.Some? ==> s.server.value in running)
  }

  /** In the window area a directory holds exactly the aliases its slots call for. */
  ghost predicate Aliases(pool: nat, surfs: seq<Surf>, t: nat, d: Dir)
    requires |surfs| == SLOTS
  {
    forall p :: InWindow(p) ==> Look(d, p) == Expect(pool, surfs, t, p)
  }

  ghost predicate SlotsOk(surfs: seq<Surf>, running: set<nat>)
  {
    && |surfs| == SLOTS && (forall i :: 0 <= i < SLOTS ==> SlotOk(surfs[i], running))
    && forall i, j, t :: 0 <= i < j < SLOTS && Owns(surfs[i], t) ==> !Owns(surfs[j], t)
  }

  /** Task t has frame f of RAM at a page outside the window area. */
  ghost predicate Holds(n: nat, dirs: map<nat, Dir>, t: nat, p: nat, f: nat)
  {
    t in dirs && p in dirs[t] && !InWindow(p) && dirs[t][p] == f < n
  }

  /** Frames outside the window area are the task's own: marked used, not the kernel's, mapped once. */
  ghost predicate OwnOk(bits: seq<bool>, kernel: set<nat>, dirs: map<nat, Dir>)
  {
    && (forall t: nat, p: nat, f: nat :: Holds(|bits|, dirs, t, p, f) ==> bits[f] && f !in kernel)
    && (forall t: nat, p: nat, u: nat, q: nat, f: nat ::
          Holds(|bits|, dirs, t, p, f) && Holds(|bits|, dirs, u, q, f) ==> t == u && p == q)
    && (forall t, p :: t in dirs && p in dirs[t] ==> p < PAGES)
  }

  ghost predicate KernelOk(bits: seq<bool>, kernel: set<nat>, pool: nat)
  {
    && (forall f :: f in kernel ==> f < |bits| && bits[f])
    && (forall f :: pool <= f < pool + POOL_PAGES ==> f in kernel) && 0 in kernel
  }

  class Memory {
    const pool: nat
    ghost const kernel: set<nat>  // frames the kernel itself lives in, the surface pool among them
    var bits: seq<bool>           // the frame bitmap
    var dirs: map<nat, Dir>       // directories of tasks not yet reaped
    var surfs: seq<Surf>
    ghost var running: set<nat>   // tasks that have not died

    ghost predicate Valid()
      reads this
    {
      && SlotsOk(surfs, running) && running <= dirs.Keys && KernelOk(bits, kernel, pool) && OwnOk(bits, kernel, dirs)
      && forall t :: t in dirs ==> Aliases(pool, surfs, t, dirs[t])
    }

    constructor (pool: nat, ghost kernel: set<nat>, bits: seq<bool>)
      requires KernelOk(bits, kernel, pool)
      ensures Valid() && this.pool == pool && this.kernel == kernel && this.bits == bits && dirs == map[]
      ensures running == {}
    {
      this.pool, this.kernel, this.bits, dirs, running := pool, kernel, bits, map[], {};
      var s := Surf(false, false, 0, None, 0, 0);
      surfs := [s, s, s];
    }
  }

  /** A dead task's directory holds no frame of the pool, nor any other kernel frame. */
  lemma DeadHasNoAlias(m: Memory, t: nat, p: nat)
    requires m.Valid() && t in m.dirs && t !in m.running && p in m.dirs[t] && m.dirs[t][p] < |m.bits|
    ensures !InWindow(p) && m.dirs[t][p] !in m.kernel
  {
    if InWindow(p) {
      assert Look(m.dirs[t], p) == Expect(m.pool, m.surfs, t, p);
      assert forall i :: 0 <= i < SLOTS ==> SlotOk(m.surfs[i], m.running);
    } else {
      assert Holds(|m.bits|, m.dirs, t, p, m.dirs[t][p]);
    }
  }

  // --------------------------------------------------------------- page table loops

  method MapRange(d0: Dir, va: nat, frame: nat, n: nat) returns (d: Dir)
    ensures forall p: nat :: Look(d, p) == if va <= p < va + n then Some(frame + (p - va)) else Look(d0, p)
  {
    d := d0;
    for i := 0 to n
      invariant forall p: nat :: Look(d, p) == if va <= p < va + i then Some(frame + (p - va)) else Look(d0, p)
    {
      ghost var was := d;
      d := Entry(d, va + i, frame + i);
      assert forall p: nat :: Look(d, p) == if p == va + i then Some(frame + i) else Look(was, p);
    }
  }

  method UnmapRange(d0: Dir, va: nat, n: nat) returns (d: Dir)
    ensures forall p: nat :: Look(d, p) == if va <= p < va + n then None else Look(d0, p)
  {
    d := d0;
    for i := 0 to n
      invariant forall p: nat :: Look(d, p) == if va <= p < va + i then None else Look(d0, p)
    {
      ghost var was := d;
      d := d - {va + i};
      assert forall p: nat :: Look(d, p) == if p == va + i then None else Look(was, p);
    }
  }

  /** Two directories differ in the window area only. */
  ghost predicate SameOutside(d: Dir, d': Dir)
  {
    forall p: nat :: !InWindow(p) ==> Look(d', p) == Look(d, p)
  }

  /** A directory without its window area. */
  ghost function Own(d: Dir): Dir
  {
    map p | p in d && !InWindow(p) :: d[p]
  }

  ghost function OwnPages(dirs: map<nat, Dir>): map<nat, Dir>
  {
    map t | t in dirs :: Own(dirs[t])
  }

  lemma OwnPagesSame(dirs: map<nat, Dir>, t: nat, d: Dir)
    requires t in dirs && SameOutside(dirs[t], d)
    ensures OwnPages(dirs[t := d]) == OwnPages(dirs)
  {
    forall p: nat
      ensures p in Own(d) <==> p in Own(dirs[t])
      ensures p in Own(d) ==> Own(d)[p] == Own(dirs[t])[p]
    {
      if !InWindow(p) { assert Look(d, p) == Look(dirs[t], p); }
    }
    assert Own(d) == Own(dirs[t]);
  }

  lemma OwnSame(bits: seq<bool>, kernel: set<nat>, dirs: map<nat, Dir>, t: nat, d: Dir)
    requires OwnOk(bits, kernel, dirs) && t in dirs && SameOutside(dirs[t], d)
    ensures OwnOk(bits, kernel, dirs[t := d])
  {
    var after := dirs[t := d];
    forall u: nat, p: nat, f: nat | Holds(|bits|, after, u, p, f)
      ensures Holds(|bits|, dirs, u, p, f)
    {
      assert Look(after[u], p) == Look(dirs[u], p);
    }
    forall u, p | u in after && p in after[u]
      ensures p < PAGES
    {
      if !InWindow(p) { assert Look(after[u], p) == Look(dirs[u], p); }
    }
  }

  /** A slot that task u neither owns nor serves, before or after, does not matter to what u sees. */
  lemma ExpectOther(pool: nat, surfs: seq<Surf>, slot: nat, s: Surf, u: nat, p: nat)
    requires |surfs| == SLOTS && slot < SLOTS && InWindow(p)
    requires Owns(s, u) == Owns(surfs[slot], u) && Serves(s, u) == Serves(surfs[slot], u)
    requires Owns(s, u) || Serves(s, u) ==> MapPages(s) == MapPages(surfs[slot])
    ensures Expect(pool, surfs[slot := s], u, p) == Expect(pool, surfs, u, p)
  {}

  lemma AliasesOther(m: Memory, slot: nat, s: Surf, u: nat)
    requires |m.surfs| == SLOTS && slot < SLOTS && u in m.dirs && Aliases(m.pool, m.surfs, u, m.dirs[u])
    requires Owns(s, u) == Owns(m.surfs[slot], u) && Serves(s, u) == Serves(m.surfs[slot], u)
    requires Owns(s, u) || Serves(s, u) ==> MapPages(s) == MapPages(m.surfs[slot])
    ensures Aliases(m.pool, m.surfs[slot := s], u, m.dirs[u])
  {
    forall p | InWindow(p)
      ensures Look(m.dirs[u], p) == Expect(m.pool, m.surfs[slot := s], u, p)
    {
      ExpectOther(m.pool, m.surfs, slot, s, u, p);
    }
  }

  // ------------------------------------------------------------------ making a surface

  /** The first unused slot, unless t has a surface already. */
  method FindSlot(m: Memory, t: nat) returns (slot: nat)
    requires |m.surfs| == SLOTS
    ensures slot <= SLOTS
    ensures slot < SLOTS ==> !m.surfs[slot].used && forall i :: 0 <= i < SLOTS ==> !Owns(m.surfs[i], t)
    ensures slot < SLOTS ==> forall i :: 0 <= i < slot ==> m.surfs[i].used
    ensures slot == SLOTS ==>
              (forall i :: 0 <= i < SLOTS ==> m.surfs[i].used) || (exists i :: 0 <= i < SLOTS && Owns(m.surfs[i], t))
  {
    slot := SLOTS;
    for i := 0 to SLOTS
      invariant slot <= SLOTS && (slot < SLOTS ==> !m.surfs[slot].used)
      invariant forall j :: 0 <= j < i ==> !Owns(m.surfs[j], t)
      invariant forall j :: 0 <= j < i && j < slot ==> m.surfs[j].used
      invariant slot < SLOTS ==> slot < i
    {
      if m.surfs[i].used && m.surfs[i].owner == t && m.surfs[i].alive { return SLOTS; }
      if slot == SLOTS && !m.surfs[i].used { slot := i; }
    }
  }

  method Create(m: Memory, t: nat, w: int, h: int) returns (slot: nat)
    requires m.Valid() && t in m.running
    modifies m`surfs, m`dirs
    ensures m.Valid() && slot <= SLOTS && OwnPages(m.dirs) == old(OwnPages(m.dirs))
    ensures slot < SLOTS ==>
              && 1 <= w <= MAX_W && 1 <= h <= MAX_H && !old(m.surfs)[slot].used
              && m.surfs == old(m.surfs)[slot := Surf(true, true, t, None, w, h)]
    ensures slot < SLOTS ==> forall i :: 0 <= i < slot ==> old(m.surfs)[i].used
    ensures slot < SLOTS ==> forall i :: 0 <= i < SLOTS ==> !Owns(old(m.surfs)[i], t)
    ensures slot == SLOTS ==> m.surfs == old(m.surfs) && m.dirs == old(m.dirs)
    // Refused only for a bad size, a second surface, or when every slot is used.
    ensures slot == SLOTS && 1 <= w <= MAX_W && 1 <= h <= MAX_H ==>
              (forall i :: 0 <= i < SLOTS ==> m.surfs[i].used) || (exists i :: 0 <= i < SLOTS && Owns(m.surfs[i], t))
  {
    hide MapPages, SlotFrame, Expect, OwnOk, KernelOk, Look, Own, OwnPages, SameOutside;
    slot := SLOTS;
    if w < 1 || h < 1 || w > MAX_W || h > MAX_H { return; }
    slot := FindSlot(m, t);
    if slot == SLOTS { return; }
    var s := Surf(true, true, t, None, w, h);
    FitsWindow(s, m.pool, slot);
    var d := MapRange(m.dirs[t], CLIENT, SlotFrame(m.pool, slot), MapPages(s));
    CreatedAlias(m, t, slot, s, d);
    OwnSame(m.bits, m.kernel, m.dirs, t, d);
    OwnPagesSame(m.dirs, t, d);
    forall u | u in m.dirs && u != t
      ensures Aliases(m.pool, m.surfs[slot := s], u, m.dirs[u])
    {
      AliasesOther(m, slot, s, u);
    }
    m.surfs := m.surfs[slot := s];
    m.dirs := m.dirs[t := d];
  }

  lemma CreatedAlias(m: Memory, t: nat, slot: nat, s: Surf, d: Dir)
    requires |m.surfs| == SLOTS && slot < SLOTS && t in m.dirs && Aliases(m.pool, m.surfs, t, m.dirs[t])
    requires !m.surfs[slot].used && forall i :: 0 <= i < SLOTS ==> !Owns(m.surfs[i], t)
    requires Owns(s, t) && s.server == None && 1 <= MapPages(s) <= 469
    requires forall p: nat :: Look(d, p) ==
               if CLIENT <= p < CLIENT + MapPages(s) then Some(SlotFrame(m.pool, slot) + (p - CLIENT))
               else Look(m.dirs[t], p)
    ensures Aliases(m.pool, m.surfs[slot := s], t, d) && SameOutside(m.dirs[t], d)
  {
    hide MapPages, SlotFrame, Look;
    forall p | InWindow(p)
      ensures Look(d, p) == Expect(m.pool, m.surfs[slot := s], t, p)
    {
      assert Look(m.dirs[t], p) == Expect(m.pool, m.surfs, t, p);
    }
  }

  // ----------------------------------------------------------------- the server's view

  ghost predicate ServerView(pool: nat, slot: nat, n: nat, d: Dir, d': Dir)
  {
    forall p: nat :: Look(d', p) ==
      if SERVER + slot * SPAN <= p < SERVER + slot * SPAN + n
      then Some(SlotFrame(pool, slot) + (p - (SERVER + slot * SPAN)))
      else Look(d, p)
  }

  /** Map a surface for task t, which becomes its only server. */
  method Map(m: Memory, t: nat, slot: nat) returns (ok: bool)
    requires m.Valid() && t in m.running
    modifies m`surfs, m`dirs
    ensures m.Valid() && OwnPages(m.dirs) == old(OwnPages(m.dirs))
    ensures ok == (slot < SLOTS && old(m.surfs)[slot].used && old(m.surfs)[slot].server in {None, Some(t)})
    ensures m.surfs == if ok then old(m.surfs)[slot := old(m.surfs)[slot].(server := Some(t))] else old(m.surfs)
  {
    hide MapPages, SlotFrame, Expect, OwnOk, KernelOk, Look, Own, OwnPages, SameOutside;
    ok := false;
    if slot >= SLOTS || !m.surfs[slot].used { return; }
    var s := m.surfs[slot];
    if s.server != None && s.server != Some(t) { return; }
    s := s.(server := Some(t));
    assert SlotOk(m.surfs[slot], m.running);
    FitsWindow(s, m.pool, slot);
    SamePages(m.surfs[slot], s);
    var d := MapRange(m.dirs[t], SERVER + slot * SPAN, SlotFrame(m.pool, slot), MapPages(s));
    ServedAlias(m, t, slot, s, d);
    OwnSame(m.bits, m.kernel, m.dirs, t, d);
    OwnPagesSame(m.dirs, t, d);
    forall u | u in m.dirs && u != t
      ensures Aliases(m.pool, m.surfs[slot := s], u, m.dirs[u])
    {
      AliasesOther(m, slot, s, u);
    }
    m.surfs := m.surfs[slot := s];
    m.dirs := m.dirs[t := d];
    ok := true;
  }

  lemma SamePages(s: Surf, s': Surf)
    requires s.w == s'.w && s.h == s'.h
    ensures MapPages(s) == MapPages(s')
  {}

  lemma ServedAlias(m: Memory, t: nat, slot: nat, s: Surf, d: Dir)
    requires |m.surfs| == SLOTS && slot < SLOTS && t in m.dirs && Aliases(m.pool, m.surfs, t, m.dirs[t])
    requires m.surfs[slot].used && s == m.surfs[slot].(server := Some(t)) && 1 <= MapPages(s) <= 469
    requires ServerView(m.pool, slot, MapPages(s), m.dirs[t], d)
    ensures Aliases(m.pool, m.surfs[slot := s], t, d) && SameOutside(m.dirs[t], d)
  {
    hide SlotFrame, Look;
    SamePages(m.surfs[slot], s);
    forall p | InWindow(p)
      ensures Look(d, p) == Expect(m.pool, m.surfs[slot := s], t, p)
    {
      assert Look(m.dirs[t], p) == Expect(m.pool, m.surfs, t, p);
      WindowOf(p, slot);
    }
  }

  /** A page of the server area belongs to slot (p - SERVER) / SPAN. */
  lemma WindowOf(p: nat, slot: nat)
    requires InWindow(p) && slot < SLOTS
    ensures p >= SERVER ==> ((p - SERVER) / SPAN == slot <==> SERVER + slot * SPAN <= p < SERVER + (slot + 1) * SPAN)
    ensures p >= SERVER && (p - SERVER) / SPAN == slot ==> (p - SERVER) % SPAN == p - (SERVER + slot * SPAN)
  {}

  lemma UnservedAlias(m: Memory, t: nat, slot: nat, s: Surf, d: Dir)
    requires |m.surfs| == SLOTS && slot < SLOTS && t in m.dirs && Aliases(m.pool, m.surfs, t, m.dirs[t])
    requires Serves(m.surfs[slot], t) && Owns(s, t) == Owns(m.surfs[slot], t) && !Serves(s, t)
    requires s.w == m.surfs[slot].w && s.h == m.surfs[slot].h && 1 <= MapPages(s) <= 469
    requires forall p: nat :: Look(d, p) ==
               if SERVER + slot * SPAN <= p < SERVER + slot * SPAN + MapPages(s) then None else Look(m.dirs[t], p)
    ensures Aliases(m.pool, m.surfs[slot := s], t, d) && SameOutside(m.dirs[t], d)
  {
    hide SlotFrame, Look;
    SamePages(m.surfs[slot], s);
    forall p | InWindow(p)
      ensures Look(d, p) == Expect(m.pool, m.surfs[slot := s], t, p)
    {
      assert Look(m.dirs[t], p) == Expect(m.pool, m.surfs, t, p);
      WindowOf(p, slot);
    }
  }

  /** Take the server's aliases of a slot away; the slot is free once the owner is gone too. */
  method DropServer(m: Memory, t: nat, slot: nat)
    requires m.Valid() && t in m.running && slot < SLOTS && Serves(m.surfs[slot], t)
    modifies m`surfs, m`dirs
    ensures m.Valid() && m.dirs.Keys == old(m.dirs.Keys) && OwnPages(m.dirs) == old(OwnPages(m.dirs))
    ensures m.surfs == old(m.surfs)[slot := old(m.surfs)[slot].(server := None, used := old(m.surfs)[slot].alive)]
  {
    hide MapPages, SlotFrame, Expect, OwnOk, KernelOk, Look, Own, OwnPages, SameOutside;
    var s := m.surfs[slot];
    assert SlotOk(s, m.running);
    FitsWindow(s, m.pool, slot);
    var d := UnmapRange(m.dirs[t], SERVER + slot * SPAN, MapPages(s));
    SamePages(s, s.(server := None, used := s.alive));
    s := s.(server := None);
    if !s.alive { s := s.(used := false); }
    UnservedAlias(m, t, slot, s, d);
    OwnSame(m.bits, m.kernel, m.dirs, t, d);
    OwnPagesSame(m.dirs, t, d);
    forall u | u in m.dirs && u != t
      ensures Aliases(m.pool, m.surfs[slot := s], u, m.dirs[u])
    {
      AliasesOther(m, slot, s, u);
    }
    m.surfs := m.surfs[slot := s];
    m.dirs := m.dirs[t := d];
  }

  method Unmap(m: Memory, t: nat, slot: nat) returns (ok: bool)
    requires m.Valid() && t in m.running
    modifies m`surfs, m`dirs
    ensures m.Valid() && ok == (slot < SLOTS && Serves(old(m.surfs)[slot], t))
    ensures OwnPages(m.dirs) == old(OwnPages(m.dirs))
    ensures !ok ==> m.surfs == old(m.surfs) && m.dirs == old(m.dirs)
    ensures ok ==>
              m.surfs == old(m.surfs)[slot := old(m.surfs)[slot].(server := None, used := old(m.surfs)[slot].alive)]
  {
    ok := false;
    if slot >= SLOTS || !m.surfs[slot].used || m.surfs[slot].server != Some(t) { return; }
    DropServer(m, t, slot);
    ok := true;
  }

  // ----------------------------------------------------------------------- task exit

  lemma DisownedAlias(m: Memory, t: nat, slot: nat, s: Surf, d: Dir)
    requires SlotsOk(m.surfs, m.running) && slot < SLOTS && t in m.dirs && Aliases(m.pool, m.surfs, t, m.dirs[t])
    requires Owns(m.surfs[slot], t) && !Owns(s, t) && Serves(s, t) == Serves(m.surfs[slot], t)
    requires s.w == m.surfs[slot].w && s.h == m.surfs[slot].h && 1 <= MapPages(s) <= 469
    requires forall p: nat :: Look(d, p) == if CLIENT <= p < CLIENT + MapPages(s) then None else Look(m.dirs[t], p)
    ensures Aliases(m.pool, m.surfs[slot := s], t, d) && SameOutside(m.dirs[t], d)
  {
    hide SlotFrame, Look;
    SamePages(m.surfs[slot], s);
    assert forall i :: 0 <= i < SLOTS && i != slot ==> !Owns(m.surfs[i], t);
    forall p | InWindow(p)
      ensures Look(d, p) == Expect(m.pool, m.surfs[slot := s], t, p)
    {
      assert Look(m.dirs[t], p) == Expect(m.pool, m.surfs, t, p);
    }
  }

  /** Take the owner's aliases away; the slot is free unless a server still shows it. */
  method DropOwner(m: Memory, t: nat, slot: nat)
    requires m.Valid() && t in m.running && slot < SLOTS && Owns(m.surfs[slot], t)
    modifies m`surfs, m`dirs
    ensures m.Valid() && m.dirs.Keys == old(m.dirs.Keys) && OwnPages(m.dirs) == old(OwnPages(m.dirs))
    ensures m.surfs == old(m.surfs)[
              slot := old(m.surfs)[slot].(alive := false, used := old(m.surfs)[slot].server.Some?)]
  {
    hide MapPages, SlotFrame, Expect, OwnOk, KernelOk, Look, Own, OwnPages, SameOutside;
    var s := m.surfs[slot];
    assert SlotOk(s, m.running);
    FitsWindow(s, m.pool, slot);
    var d := UnmapRange(m.dirs[t], CLIENT, MapPages(s));
    SamePages(s, s.(alive := false, used := s.server.Some?));
    s := s.(alive := false);
    if s.server == None { s := s.(used := false); }
    DisownedAlias(m, t, slot, s, d);
    OwnSame(m.bits, m.kernel, m.dirs, t, d);
    OwnPagesSame(m.dirs, t, d);
    forall u | u in m.dirs && u != t
      ensures Aliases(m.pool, m.surfs[slot := s], u, m.dirs[u])
    {
      AliasesOther(m, slot, s, u);
    }
    m.surfs := m.surfs[slot := s];
    m.dirs := m.dirs[t := d];
  }

  ghost predicate Clear(s: Surf, t: nat) { !Owns(s, t) && !Serves(s, t) }

  /** The slot once t has let go of it as its owner and as its server: in use
      only while the other of the two has it. */
  function Left(s: Surf, t: nat): Surf
  {
    var a := if Owns(s, t) then s.(alive := false, used := s.server.Some?) else s;
    if Serves(a, t) then a.(server := None, used := a.alive) else a
  }

  /** Nobody else loses anything. */
  lemma LeftOthers(s: Surf, t: nat, u: nat)
    ensures Clear(Left(s, t), t)
    ensures u != t ==> Owns(Left(s, t), u) == Owns(s, u) && Serves(Left(s, t), u) == Serves(s, u)
    ensures Clear(s, t) ==> Left(s, t) == s
  {}

  /** Task t lets go of slot i, as its owner and as its server. */
  method ReleaseSlot(m: Memory, t: nat, i: nat)
    requires m.Valid() && t in m.running && i < SLOTS
    modifies m`surfs, m`dirs
    ensures m.Valid() && m.dirs.Keys == old(m.dirs.Keys) && OwnPages(m.dirs) == old(OwnPages(m.dirs))
    ensures m.surfs == old(m.surfs)[i := Left(old(m.surfs)[i], t)]
  {
    hide SlotsOk, OwnOk, KernelOk, Aliases, OwnPages;
    SlotCount(m.surfs, m.running);
    if m.surfs[i].used {
      if m.surfs[i].owner == t && m.surfs[i].alive { DropOwner(m, t, i); }
      if m.surfs[i].used && m.surfs[i].server == Some(t) { DropServer(m, t, i); }
    }
  }

  lemma SlotCount(surfs: seq<Surf>, running: set<nat>)
    requires SlotsOk(surfs, running)
    ensures |surfs| == SLOTS
  {}

  lemma Freed(surfs: seq<Surf>, running: set<nat>, t: nat)
    requires SlotsOk(surfs, running) && forall i :: 0 <= i < SLOTS ==> Clear(surfs[i], t)
    ensures SlotsOk(surfs, running - {t})
  {
    forall i | 0 <= i < SLOTS
      ensures SlotOk(surfs[i], running - {t})
    {
      assert SlotOk(surfs[i], running) && Clear(surfs[i], t);
    }
  }

  /** A task dies: every alias in its directory goes, before the directory is ever freed. */
  method TaskExit(m: Memory, t: nat)
    requires m.Valid() && t in m.running
    modifies m`surfs, m`dirs, m`running
    ensures m.Valid() && m.running == old(m.running) - {t} && m.dirs.Keys == old(m.dirs.Keys)
    ensures forall p: nat :: InWindow(p) ==> p !in m.dirs[t]
    ensures OwnPages(m.dirs) == old(OwnPages(m.dirs))
    ensures |m.surfs| == |old(m.surfs)| == SLOTS
    ensures forall i :: 0 <= i < SLOTS ==> m.surfs[i] == Left(old(m.surfs)[i], t)
  {
    hide SlotsOk, OwnOk, KernelOk, Aliases, Clear, Left, OwnPages;
    SlotCount(m.surfs, m.running);
    for i := 0 to SLOTS
      invariant m.Valid() && m.dirs.Keys == old(m.dirs.Keys) && m.running == old(m.running)
      invariant |m.surfs| == SLOTS && |old(m.surfs)| == SLOTS
      invariant OwnPages(m.dirs) == old(OwnPages(m.dirs))
      invariant forall j :: 0 <= j < SLOTS ==> m.surfs[j] == if j < i then Left(old(m.surfs)[j], t) else old(m.surfs)[j]
    {
      ReleaseSlot(m, t, i);
    }
    forall i | 0 <= i < SLOTS
      ensures Clear(m.surfs[i], t)
    {
      LeftOthers(old(m.surfs)[i], t, t);
    }
    NoneExpected(m, t);
    Freed(m.surfs, m.running, t);
    m.running := m.running - {t};
  }

  lemma NoneExpected(m: Memory, t: nat)
    requires |m.surfs| == SLOTS && t in m.dirs && Aliases(m.pool, m.surfs, t, m.dirs[t])
    requires forall i :: 0 <= i < SLOTS ==> Clear(m.surfs[i], t)
    ensures forall p: nat :: InWindow(p) ==> p !in m.dirs[t]
  {
    forall p: nat | InWindow(p)
      ensures p !in m.dirs[t]
    {
      assert Look(m.dirs[t], p) == Expect(m.pool, m.surfs, t, p);
      assert Clear(m.surfs[0], t) && Clear(m.surfs[1], t) && Clear(m.surfs[2], t);
    }
  }

  // --------------------------------------------------------------------------- frames

  /** A new address space shares the kernel's tables and has nothing of its own. */
  method NewTask(m: Memory, t: nat)
    requires m.Valid() && t !in m.dirs
    modifies m`dirs, m`running
    ensures m.Valid() && m.dirs == old(m.dirs)[t := map[]] && m.running == old(m.running) + {t}
  {
    hide MapPages, SlotFrame;
    forall p: nat | InWindow(p)
      ensures Expect(m.pool, m.surfs, t, p) == None
    {
      assert SlotOk(m.surfs[0], m.running) && SlotOk(m.surfs[1], m.running) && SlotOk(m.surfs[2], m.running);
    }
    NewOwn(m.bits, m.kernel, m.dirs, t);
    m.dirs := m.dirs[t := map[]];
    m.running := m.running + {t};
  }

  lemma NewOwn(bits: seq<bool>, kernel: set<nat>, dirs: map<nat, Dir>, t: nat)
    requires OwnOk(bits, kernel, dirs) && t !in dirs
    ensures OwnOk(bits, kernel, dirs[t := map[]])
  {
    var after := dirs[t := map[]];
    forall u: nat, p: nat, f: nat | Holds(|bits|, after, u, p, f)
      ensures Holds(|bits|, dirs, u, p, f)
    {}
  }

  /** The lowest frame not in use, over whole 32-frame words of the bitmap. */
  method FirstFrame(bits: seq<bool>) returns (f: nat)
    ensures f <= |bits| && (f < |bits| ==> f < |bits| / 32 * 32 && !bits[f])
    ensures forall i :: 0 <= i < f && i < |bits| / 32 * 32 ==> bits[i]
    ensures f == |bits| ==> forall i :: 0 <= i < |bits| / 32 * 32 ==> bits[i]
  {
    for i := 0 to |bits| / 32 * 32
      invariant forall j :: 0 <= j < i ==> bits[j]
    {
      if !bits[i] { return i; }
    }
    f := |bits|;
  }

  ghost predicate LowestFree(bits: seq<bool>, f: nat)
  {
    f < |bits| / 32 * 32 && !bits[f] && forall i :: 0 <= i < f ==> bits[i]
  }

  /** A fresh frame for a page of a running task, outside the window area. */
  method AllocPage(m: Memory, t: nat, p: nat) returns (ok: bool)
    requires m.Valid() && t in m.running && p < PAGES && !InWindow(p)
    modifies m`bits, m`dirs
    ensures m.Valid() && m.dirs.Keys == old(m.dirs.Keys)
    ensures p in old(m.dirs)[t] ==> ok && m.dirs == old(m.dirs) && m.bits == old(m.bits)
    ensures p !in old(m.dirs)[t] && ok ==>
              && p in m.dirs[t] && var f := m.dirs[t][p];
                 && LowestFree(old(m.bits), f) && m.bits == old(m.bits)[f := true]
                 && m.dirs == old(m.dirs)[t := Entry(old(m.dirs)[t], p, f)]
    ensures !ok ==>
              m.bits == old(m.bits) && m.dirs == old(m.dirs) && forall i :: 0 <= i < |m.bits| / 32 * 32 ==> m.bits[i]
  {
    hide MapPages, SlotFrame, Expect;
    if p in m.dirs[t] { return true; }
    var f := FirstFrame(m.bits);
    if f == |m.bits| { return false; }
    var d := Entry(m.dirs[t], p, f);
    NewFrame(m.bits, m.kernel, m.dirs, t, p, f);
    assert forall q: nat :: q != p ==> Look(d, q) == Look(m.dirs[t], q);
    m.bits := m.bits[f := true];
    m.dirs := m.dirs[t := d];
    ok := true;
  }

  lemma NewFrame(bits: seq<bool>, kernel: set<nat>, dirs: map<nat, Dir>, t: nat, p: nat, f: nat)
    requires OwnOk(bits, kernel, dirs) && t in dirs && p !in dirs[t] && p < PAGES && !InWindow(p)
    requires f < |bits| && !bits[f] && f !in kernel
    ensures OwnOk(bits[f := true], kernel, dirs[t := Entry(dirs[t], p, f)])
  {
    var after := dirs[t := Entry(dirs[t], p, f)];
    forall u: nat, q: nat, g: nat | Holds(|bits|, after, u, q, g)
      ensures (u == t && q == p && g == f) || (Holds(|bits|, dirs, u, q, g) && g != f)
    {
      if u != t || q != p { assert Holds(|bits|, dirs, u, q, g); }
    }
  }

  /** Some page below n of directory d has frame f. */
  ghost predicate Below(d: Dir, n: nat, f: nat)
  {
    exists q: nat :: q in d && q < n && d[q] == f
  }

  lemma BelowStep(d: Dir, n: nat, f: nat)
    ensures Below(d, n + 1, f) <==> Below(d, n, f) || (n in d && d[n] == f)
  {}

  /** Free the directory of a dead task: exactly its own frames return to the bitmap. */
  method FreeDirectory(m: Memory, t: nat)
    requires m.Valid() && t in m.dirs && t !in m.running
    modifies m`bits, m`dirs
    ensures m.Valid() && m.dirs == old(m.dirs) - {t} && |m.bits| == |old(m.bits)|
    ensures forall f :: 0 <= f < |m.bits| ==> m.bits[f] == (old(m.bits)[f] && !Below(old(m.dirs)[t], PAGES, f))
    // Never a kernel frame, never a frame of another task.
    ensures forall f :: f in m.kernel ==> !Below(old(m.dirs)[t], PAGES, f)
    ensures forall u: nat, p: nat, f: nat ::
              u != t && Holds(|m.bits|, m.dirs, u, p, f) ==> !Below(old(m.dirs)[t], PAGES, f)
  {
    hide Aliases, SlotsOk, Below;
    ghost var bits0 := m.bits;
    var d := m.dirs[t];
    OnlyOwn(m, t);
    NothingBelow(d);
    for p := 0 to PAGES
      invariant |m.bits| == |bits0| && m.dirs == old(m.dirs)
      invariant forall f :: 0 <= f < |m.bits| ==> m.bits[f] == (bits0[f] && !Below(d, p, f))
    {
      ghost var was := m.bits;
      if p in d && d[p] < |m.bits| { m.bits := m.bits[d[p] := false]; }
      forall f | 0 <= f < |m.bits|
        ensures m.bits[f] == (bits0[f] && !Below(d, p + 1, f))
      {
        BelowStep(d, p, f);
        assert was[f] == (bits0[f] && !Below(d, p, f));
      }
    }
    OwnLeft(bits0, m.bits, m.kernel, m.dirs, t);
    m.dirs := m.dirs - {t};
  }

  lemma NothingBelow(d: Dir)
    ensures forall f: nat :: !Below(d, 0, f)
  {}

  lemma OnlyOwn(m: Memory, t: nat)
    requires m.Valid() && t in m.dirs && t !in m.running
    ensures forall f :: f in m.kernel ==> f < |m.bits| && !Below(m.dirs[t], PAGES, f)
    ensures forall u: nat, p: nat, f: nat :: u != t && Holds(|m.bits|, m.dirs, u, p, f) ==> !Below(m.dirs[t], PAGES, f)
  {
    forall f | f in m.kernel
      ensures f < |m.bits| && !Below(m.dirs[t], PAGES, f)
    {
      if Below(m.dirs[t], PAGES, f) {
        var q :| q in m.dirs[t] && q < PAGES && m.dirs[t][q] == f;
        DeadHasNoAlias(m, t, q);
      }
    }
    forall u: nat, p: nat, f: nat | u != t && Holds(|m.bits|, m.dirs, u, p, f)
      ensures !Below(m.dirs[t], PAGES, f)
    {
      if Below(m.dirs[t], PAGES, f) {
        var q :| q in m.dirs[t] && q < PAGES && m.dirs[t][q] == f;
        DeadHasNoAlias(m, t, q);
        assert Holds(|m.bits|, m.dirs, t, q, f);
      }
    }
  }

  lemma OwnLeft(bits: seq<bool>, bits': seq<bool>, kernel: set<nat>, dirs: map<nat, Dir>, t: nat)
    requires OwnOk(bits, kernel, dirs) && t in dirs && |bits'| == |bits|
    requires forall f :: 0 <= f < |bits| ==> bits'[f] == (bits[f] && !Below(dirs[t], PAGES, f))
    requires forall u: nat, p: nat, f: nat :: u != t && Holds(|bits|, dirs, u, p, f) ==> !Below(dirs[t], PAGES, f)
    ensures OwnOk(bits', kernel, dirs - {t})
  {
    hide Below;
    forall u: nat, p: nat, f: nat | Holds(|bits|, dirs - {t}, u, p, f)
      ensures Holds(|bits|, dirs, u, p, f) && bits'[f]
    {
      assert Holds(|bits|, dirs, u, p, f);
    }
  }

  /** Map a page of device memory, beyond RAM, outside the window area. */
  method MapDevice(m: Memory, t: nat, p: nat, f: nat)
    requires m.Valid() && t in m.running && p < PAGES && !InWindow(p) && f >= |m.bits|
    requires p in m.dirs[t] ==> m.dirs[t][p] >= |m.bits|
    modifies m`dirs
    ensures m.Valid() && m.dirs == old(m.dirs)[t := Entry(old(m.dirs)[t], p, f)]
  {
    hide MapPages, SlotFrame, Expect;
    var d := Entry(m.dirs[t], p, f);
    ghost var after := m.dirs[t := d];
    forall u: nat, q: nat, g: nat | Holds(|m.bits|, after, u, q, g)
      ensures Holds(|m.bits|, m.dirs, u, q, g)
    {}
    assert forall q: nat :: q != p ==> Look(d, q) == Look(m.dirs[t], q);
    m.dirs := m.dirs[t := d];
  }

  // --------------------------------------------------------------------------- pixels

  /** Two slots in use map disjoint frames, except that slot 0 at its full 469
      pages shares its last frame with the first of slot 1: slots are packed
      without rounding each to whole pages. */
  lemma SlotsShare(pool: nat, i: nat, j: nat, a: Surf, b: Surf)
    requires i < j < SLOTS && 1 <= a.w <= MAX_W && 1 <= a.h <= MAX_H && 1 <= b.w <= MAX_W && 1 <= b.h <= MAX_H
    ensures SlotFrame(pool, i) + MapPages(a) > SlotFrame(pool, j) <==> i == 0 && j == 1 && a.w * a.h * 4 > 468 * 0x1000
    ensures SlotFrame(pool, i) + MapPages(a) <= SlotFrame(pool, j) + 1
  {
    FitsWindow(a, pool, i);
    assert SlotFrame(pool, 0) == pool && SlotFrame(pool, 1) == pool + 468 && SlotFrame(pool, 2) == pool + 937;
  }

  /** Two tasks that open the largest surface each: the last page of the first and
      the first page of the second are one frame. */
  method TwoFullSurfaces(m: Memory, t: nat, u: nat)
    requires m.Valid() && t in m.running && u in m.running && t != u && forall i :: 0 <= i < SLOTS ==> !m.surfs[i].used
    modifies m`surfs, m`dirs
    ensures m.Valid() && t in m.dirs && u in m.dirs
    ensures Look(m.dirs[t], CLIENT + 468) == Look(m.dirs[u], CLIENT) == Some(m.pool + 468)
  {
    hide OwnOk, KernelOk, OwnPages, Look;
    var i := Create(m, t, MAX_W, MAX_H);
    var j := Create(m, u, MAX_W, MAX_H);
    assert Look(m.dirs[t], CLIENT + 468) == Expect(m.pool, m.surfs, t, CLIENT + 468);
    assert Look(m.dirs[u], CLIENT) == Expect(m.pool, m.surfs, u, CLIENT);
  }

  // ----------------------------------------------------------------------- whole runs

  datatype Op =
    | Start(t: nat) | Page(t: nat, p: nat) | Device(t: nat, p: nat, f: nat) | Surface(t: nat, w: int, h: int)
    | Show(t: nat, slot: nat) | Hide(t: nat, slot: nat) | End(t: nat) | Reap(t: nat)

  /** A used slot keeps its size, so what was mapped for it is what gets unmapped. */
  ghost predicate SizesKept(surfs: seq<Surf>, surfs': seq<Surf>)
  {
    && |surfs| == |surfs'| == SLOTS
    && forall i :: 0 <= i < SLOTS && surfs[i].used ==> MapPages(surfs'[i]) == MapPages(surfs[i])
  }

  /** Who runs, the slots, the frame bitmap, and what each directory holds outside the
      window area; inside it the slots say what it holds. */
  datatype Scene = Scene(alive: set<nat>, surfs: seq<Surf>, bits: seq<bool>, pages: map<nat, Dir>)

  ghost function View(m: Memory): Scene
    reads m
  {
    Scene(m.running, m.surfs, m.bits, OwnPages(m.dirs))
  }

  /** What each operation does to the scene. */
  ghost predicate Happens(op: Op, a: Scene, b: Scene)
  {
    |a.surfs| == |b.surfs| == SLOTS &&
    match op
    case Start(t) => b == if t in a.pages then a else a.(alive := a.alive + {t}, pages := a.pages[t := map[]])
    case Page(t, p) => Pages(a, t, p, b)
    case Device(t, p, f) =>
      b == if t in a.alive && t in a.pages && Free(a, t, p) && f >= |a.bits|
           then a.(pages := a.pages[t := Entry(a.pages[t], p, f)]) else a
    case Surface(t, w, h) =>
      if t in a.alive && 1 <= w <= MAX_W && 1 <= h <= MAX_H && !NoRoom(a.surfs, t)
      then exists i: nat :: Opens(a, t, w, h, i, b)
      else b == a
    case Show(t, slot) =>
      b == if t in a.alive && slot < SLOTS && a.surfs[slot].used && a.surfs[slot].server in {None, Some(t)}
           then a.(surfs := a.surfs[slot := a.surfs[slot].(server := Some(t))]) else a
    case Hide(t, slot) =>
      b == if t in a.alive && slot < SLOTS && Serves(a.surfs[slot], t)
           then a.(surfs := a.surfs[slot := a.surfs[slot].(server := None, used := a.surfs[slot].alive)]) else a
    case End(t) =>
      if t in a.alive
      then b == a.(alive := a.alive - {t}, surfs := b.surfs)
           && forall i :: 0 <= i < SLOTS ==> b.surfs[i] == Left(a.surfs[i], t)
      else b == a
    case Reap(t) => if t in a.pages && t !in a.alive then Reaps(a, t, b) else b == a
  }

  /** The page can be given to the task: it is none of the windows and holds no frame of RAM. */
  ghost predicate Free(a: Scene, t: nat, p: nat)
    requires t in a.pages
  {
    p < PAGES && !InWindow(p) && (p in a.pages[t] ==> a.pages[t][p] >= |a.bits|)
  }

  /** Task t gets the lowest free frame at page p, unless it has the page or none is free. */
  ghost predicate Pages(a: Scene, t: nat, p: nat, b: Scene)
  {
    if t in a.alive && t in a.pages && p < PAGES && !InWindow(p) && p !in a.pages[t]
       && exists f: nat :: LowestFree(a.bits, f)
    then exists f: nat ::
           && LowestFree(a.bits, f)
           && b == a.(bits := a.bits[f := true], pages := a.pages[t := Entry(a.pages[t], p, f)])
    else b == a
  }

  /** The frames of t's directory, and no others, return to the bitmap. */
  ghost predicate Reaps(a: Scene, t: nat, b: Scene)
    requires t in a.pages
  {
    && b == a.(pages := a.pages - {t}, bits := b.bits) && |b.bits| == |a.bits|
    && forall f :: 0 <= f < |a.bits| ==> b.bits[f] == (a.bits[f] && !Below(a.pages[t], PAGES, f))
  }

  /** Every slot is used, or t already has a surface. */
  ghost predicate NoRoom(surfs: seq<Surf>, t: nat)
  {
    (forall i :: 0 <= i < |surfs| ==> surfs[i].used) || exists i :: 0 <= i < |surfs| && Owns(surfs[i], t)
  }

  /** Task t opens its only surface in slot i, the lowest free one. */
  ghost predicate Opens(a: Scene, t: nat, w: int, h: int, i: nat, b: Scene)
  {
    && t in a.alive && 1 <= w <= MAX_W && 1 <= h <= MAX_H
    && (forall j :: 0 <= j < |a.surfs| ==> !Owns(a.surfs[j], t))
    && i < |a.surfs| && !a.surfs[i].used && (forall j :: 0 <= j < i ==> a.surfs[j].used)
    && b == a.(surfs := a.surfs[i := Surf(true, true, t, None, w, h)])
  }

  /** One operation; `alive` is the kernel's view of which tasks run. */
  method Perform(m: Memory, op: Op, alive: set<nat>) returns (after: set<nat>)
    requires m.Valid() && alive == m.running
    modifies m`bits, m`dirs, m`surfs, m`running
    ensures m.Valid() && after == m.running
    ensures SizesKept(old(m.surfs), m.surfs)
    ensures Happens(op, old(View(m)), View(m))
  {
    hide SlotsOk, OwnOk, KernelOk, Aliases, OwnPages, Reaps, Pages, Below, Left, MapPages;
    after := alive;
    SlotCount(m.surfs, m.running);
    match op {
    case Start(t) =>
      PageKeys(m.dirs, t);
      if t !in m.dirs {
        StartPages(m.dirs, t);
        NewTask(m, t);
        after := after + {t};
      }
    case Page(t, p) => PerformPage(m, t, p, alive);
    case Device(t, p, f) => PerformDevice(m, t, p, f, alive);
    case Surface(t, w, h) =>
      if t in alive {
        ghost var a := View(m);
        var slot := Create(m, t, w, h);
        if slot < SLOTS { assert Opens(a, t, w, h, slot, View(m)); }
      }
    case Show(t, slot) => if t in alive { var ok := Map(m, t, slot); }
    case Hide(t, slot) => if t in alive { var ok := Unmap(m, t, slot); }
    case End(t) =>
      if t in alive {
        TaskExit(m, t);
        after := after - {t};
        LeftSizes(old(m.surfs), t);
      }
    case Reap(t) => PerformReap(m, t, alive);
    }
    SlotCount(m.surfs, m.running);
    SameSizes(old(m.surfs), m.surfs);
  }

  lemma PageKeys(dirs: map<nat, Dir>, t: nat)
    ensures t in OwnPages(dirs) <==> t in dirs
    ensures t in dirs ==> OwnPages(dirs)[t] == Own(dirs[t])
  {}

  lemma StartPages(dirs: map<nat, Dir>, t: nat)
    ensures OwnPages(dirs[t := map[]]) == OwnPages(dirs)[t := map[]]
  {
    assert Own(map[]) == map[];
  }

  lemma LeftSizes(surfs: seq<Surf>, t: nat)
    ensures forall i :: 0 <= i < |surfs| ==> Left(surfs[i], t).w == surfs[i].w && Left(surfs[i], t).h == surfs[i].h
  {}

  lemma SameSizes(surfs: seq<Surf>, surfs': seq<Surf>)
    requires |surfs| == |surfs'| == SLOTS
    requires forall i :: 0 <= i < SLOTS && surfs[i].used ==> surfs'[i].w == surfs[i].w && surfs'[i].h == surfs[i].h
    ensures SizesKept(surfs, surfs')
  {
    hide MapPages;
    forall i | 0 <= i < SLOTS && surfs[i].used
      ensures MapPages(surfs'[i]) == MapPages(surfs[i])
    {
      SamePages(surfs[i], surfs'[i]);
    }
  }

  lemma EntryPages(dirs: map<nat, Dir>, t: nat, p: nat, f: nat)
    requires t in dirs && !InWindow(p)
    ensures OwnPages(dirs[t := Entry(dirs[t], p, f)]) == OwnPages(dirs)[t := Entry(Own(dirs[t]), p, f)]
  {
    assert Own(Entry(dirs[t], p, f)) == Entry(Own(dirs[t]), p, f);
  }

  method PerformPage(m: Memory, t: nat, p: nat, alive: set<nat>)
    requires m.Valid() && alive == m.running
    modifies m`bits, m`dirs
    ensures m.Valid() && Pages(old(View(m)), t, p, View(m))
  {
    hide SlotsOk, OwnOk, KernelOk, Aliases, OwnPages, LowestFree;
    PageKeys(m.dirs, t);
    ghost var bits, dirs := m.bits, m.dirs;
    if t in alive && p < PAGES && !InWindow(p) {
      var ok := AllocPage(m, t, p);
      if !ok {
        NoneFree(bits);
      } else if p !in dirs[t] {
        EntryPages(dirs, t, p, m.dirs[t][p]);
      }
    }
  }

  method PerformDevice(m: Memory, t: nat, p: nat, f: nat, alive: set<nat>)
    requires m.Valid() && alive == m.running
    modifies m`dirs
    ensures m.Valid() && Happens(Device(t, p, f), old(View(m)), View(m))
  {
    hide SlotsOk, OwnOk, KernelOk, Aliases, OwnPages;
    SlotCount(m.surfs, m.running);
    PageKeys(m.dirs, t);
    ghost var dirs := m.dirs;
    if t in alive && p < PAGES && !InWindow(p) && f >= |m.bits| && (p in m.dirs[t] ==> m.dirs[t][p] >= |m.bits|) {
      MapDevice(m, t, p, f);
      EntryPages(dirs, t, p, f);
    }
  }

  method PerformReap(m: Memory, t: nat, alive: set<nat>)
    requires m.Valid() && alive == m.running
    modifies m`bits, m`dirs
    ensures m.Valid() && Happens(Reap(t), old(View(m)), View(m))
  {
    hide SlotsOk, OwnOk, KernelOk, Aliases, OwnPages, Below;
    SlotCount(m.surfs, m.running);
    PageKeys(m.dirs, t);
    if t in m.dirs && t !in alive {
      DeadPages(m, t);
      ReapPages(m.dirs, t);
      FreeDirectory(m, t);
    }
  }

  /** A dead task has nothing in the window area. */
  lemma DeadPages(m: Memory, t: nat)
    requires m.Valid() && t in m.dirs && t !in m.running
    ensures Own(m.dirs[t]) == m.dirs[t]
  {
    hide OwnOk, KernelOk, MapPages, SlotFrame;
    forall p | InWindow(p)
      ensures p !in m.dirs[t]
    {
      assert Look(m.dirs[t], p) == Expect(m.pool, m.surfs, t, p);
      assert forall i :: 0 <= i < SLOTS ==> SlotOk(m.surfs[i], m.running);
    }
  }

  lemma ReapPages(dirs: map<nat, Dir>, t: nat)
    ensures OwnPages(dirs - {t}) == OwnPages(dirs) - {t}
  {}

  lemma NoneFree(bits: seq<bool>)
    requires forall i :: 0 <= i < |bits| / 32 * 32 ==> bits[i]
    ensures !exists f: nat :: LowestFree(bits, f)
  {}

  /** Any run: each operation does what it should, kernel frames stay marked
      used, no directory of a dead task has an alias left. */
  method Run(m: Memory, ops: seq<Op>, alive: set<nat>) returns (ghost scenes: seq<Scene>)
    requires m.Valid() && alive == m.running
    modifies m`bits, m`dirs, m`surfs, m`running
    ensures m.Valid()
    ensures forall f :: f in m.kernel ==> f < |m.bits| && m.bits[f]
    ensures forall t, p :: t in m.dirs && t !in m.running && p in m.dirs[t] && m.dirs[t][p] < |m.bits| ==>
              m.dirs[t][p] !in m.kernel
    ensures |scenes| == |ops| + 1 && scenes[0] == old(View(m)) && scenes[|ops|] == View(m)
    ensures forall k :: 0 <= k < |ops| ==>
              Happens(ops[k], scenes[k], scenes[k + 1]) && SizesKept(scenes[k].surfs, scenes[k + 1].surfs)
  {
    hide SlotsOk, OwnOk, Aliases, Happens, SizesKept;
    var live := alive;
    scenes := [View(m)];
    for k := 0 to |ops|
      invariant m.Valid() && live == m.running
      invariant |scenes| == k + 1 && scenes[0] == old(View(m)) && scenes[k] == View(m)
      invariant forall j :: 0 <= j < k ==>
                  Happens(ops[j], scenes[j], scenes[j + 1]) && SizesKept(scenes[j].surfs, scenes[j + 1].surfs)
    {
      live := Perform(m, ops[k], live);
      scenes := scenes + [View(m)];
    }
    forall t, p | t in m.dirs && t !in m.running && p in m.dirs[t] && m.dirs[t][p] < |m.bits|
      ensures m.dirs[t][p] !in m.kernel
    {
      DeadHasNoAlias(m, t, p);
    }
  }
}
