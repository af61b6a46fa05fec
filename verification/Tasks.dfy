/** Tasks: the ready queue, exit, kill, the reaper and the round-robin step
    (kernel/task.c:15-24, 74-100, 131-164, 199-334). Each section run with
    interrupts off is one method. Tasks are named by pid. */
module Tasks {
  import opened Sequences
  import opened RoundRobin
  import opened Descriptors
  import Pipes

  datatype Link = Nil | At(pid: nat)

  /** Position i of list s is linked to the next one. */
  ghost predicate LinkAt(next: map<nat, Link>, s: seq<nat>, i: nat)
  {
    i < |s| && s[i] in next && next[s[i]] == if i + 1 < |s| then At(s[i + 1]) else Nil
  }

  ghost predicate Chain(next: map<nat, Link>, s: seq<nat>)
  {
    forall i {:trigger LinkAt(next, s, i)} :: 0 <= i < |s| ==> LinkAt(next, s, i)
  }

  ghost function Head(s: seq<nat>): Link { if s == [] then Nil else At(s[0]) }

  ghost predicate Distinct(s: seq<nat>)
  {
    forall i, j :: 0 <= i < j < |s| ==> s[i] != s[j]
  }

  /** What follows x in an ascending list. */
  ghost predicate Next(q: seq<nat>, x: nat, l: Link)
  {
    match l
    case Nil => forall z :: z in q ==> z <= x
    case At(y) => y in q && y > x && forall z :: z in q && z > x ==> y <= z
  }

  class Kernel {
    const fds: Files
    var next: map<nat, Link>      // ready-queue links of all task structs
    var reapNext: map<nat, Link>  // zombie links
    var ready: nat
    var current: nat
    var zombies: Link
    var reaping: Link             // where the reaper's walk is
    var nextPid: nat
    ghost var queue: seq<nat>
    ghost var dead: seq<nat>      // the zombie list
    ghost var taken: seq<nat>     // zombies the reaper took and has yet to free
    ghost var trace: seq<Pick>    // every decision of the scheduler

    /** Tasking starts with the kernel task alone, pid 0. */
    constructor (fds: Files)
      requires fds.Valid() && fds.files.Keys == {0} && fds.pending == map[]
      ensures Valid() && this.fds == fds && queue == [0] && current == 0 && dead == [] && taken == []
    {
      this.fds := fds;
      next, reapNext, ready, current, zombies, reaping, nextPid := map[0 := Nil], map[], 0, 0, Nil, Nil, 1;
      queue, dead, taken, trace := [0], [], [], [Pick(0, [0], 1)];
      new;
      assert LinkAt(next, queue, 0);
      assert TraceOk(trace);
    }

    /** The ready queue is one list of distinct tasks in order of birth. */
    ghost predicate QueueOk()
      reads `queue, `next, `ready, `nextPid
    {
      && |queue| > 0 && ready == queue[0] && Ascending(queue) && Chain(next, queue)
      && forall p :: p in queue ==> p < nextPid
    }

    /** Zombies, waiting or being reaped, are dead tasks whose structs are still there. */
    ghost predicate DeadOk()
      reads `dead, `taken, `reapNext, `zombies, `reaping, `queue, `next, `nextPid
    {
      && zombies == Head(dead) && Chain(reapNext, dead) && reaping == Head(taken) && Chain(reapNext, taken)
      && Distinct(dead + taken) && forall p :: p in dead + taken ==> p !in queue && p in next && p < nextPid
    }

    /** The task on the CPU is ready, or has just died and is on its way out. */
    ghost predicate CurrentOk()
      reads `current, `queue, `dead, `next
    {
      current in queue || (|dead| > 0 && current == dead[0] && current in next && Next(queue, current, next[current]))
    }

    ghost predicate TraceValid()
      reads `trace, `current, `queue, `nextPid
    {
      && |trace| > 0 && TraceOk(trace) && trace[|trace| - 1].pid == current && trace[|trace| - 1].pids <= nextPid
      && forall p :: p in queue && p < trace[|trace| - 1].pids ==> p in trace[|trace| - 1].queue
    }

    /** Descriptor tables belong to exactly the ready tasks. */
    ghost predicate TablesOk()
      reads `queue, `nextPid, fds
    {
      && fds.Valid() && (forall p :: p in fds.files <==> p in queue) && (forall p :: p in fds.pending ==> p < nextPid)
    }

    ghost predicate Valid()
      reads this, fds
    {
      QueueOk() && DeadOk() && CurrentOk() && TraceValid() && TablesOk()
    }
  }

  /** Ready-queue position i links to what comes next in order of birth. */
  lemma NextInQueue(next: map<nat, Link>, q: seq<nat>, i: nat)
    requires Ascending(q) && Chain(next, q) && i < |q|
    ensures q[i] in next && Next(q, q[i], next[q[i]])
  {
    assert LinkAt(next, q, i);
    forall z | z in q && z > q[i]
      ensures i + 1 < |q| && q[i + 1] <= z
    {
      var j :| 0 <= j < |q| && q[j] == z;
      assert j > i;
    }
  }

  lemma CurrentNext(k: Kernel)
    requires k.Valid()
    ensures k.current in k.next && Next(k.queue, k.current, k.next[k.current])
  {
    if k.current in k.queue {
      var i :| 0 <= i < |k.queue| && k.queue[i] == k.current;
      NextInQueue(k.next, k.queue, i);
    }
  }

  /** The round-robin step: to the task after the current one, or back to the head. */
  method Schedule(k: Kernel)
    requires k.Valid()
    modifies k`current, k`trace
    ensures k.Valid() && k.current in k.queue && Turn(k.queue, old(k.current), k.current)
    ensures k.trace == old(k.trace) + [Pick(k.current, k.queue, k.nextPid)]
  {
    hide Follows, TraceOk, Turn, Next, Chain, Distinct, PipesOk, SocksOk, Ascending;
    CurrentNext(k);
    ghost var was := k.current;
    k.current := match k.next[k.current] case At(p) => p case Nil => k.ready;
    TakesTurn(k.queue, was, k.current);
    ghost var pick := Pick(k.current, k.queue, k.nextPid);
    LastFollows(k.trace, pick, was);
    Append(k.trace, pick);
    k.trace := k.trace + [pick];
  }

  lemma TakesTurn(q: seq<nat>, x: nat, y: nat)
    requires Ascending(q) && |q| > 0
    requires exists l :: Next(q, x, l) && y == if l.At? then l.pid else q[0]
    ensures Turn(q, x, y) && y in q
  {
    var l :| Next(q, x, l) && y == if l.At? then l.pid else q[0];
    assert q[0] in q;
    if l.Nil? {
      forall z | z in q
        ensures q[0] <= z
      {
        var j :| 0 <= j < |q| && q[j] == z;
        assert j == 0 || q[0] < q[j];
      }
    }
  }

  lemma LastFollows(tr: seq<Pick>, b: Pick, was: nat)
    requires |tr| > 0 && tr[|tr| - 1].pid == was && Turn(b.queue, was, b.pid) && tr[|tr| - 1].pids <= b.pids
    requires forall p :: p in b.queue ==> p < b.pids
    requires forall p :: p in b.queue && p < tr[|tr| - 1].pids ==> p in tr[|tr| - 1].queue
    ensures Follows(tr[|tr| - 1], b)
  {}

  // ------------------------------------------------------------------ list surgery

  lemma Append1(next: map<nat, Link>, q: seq<nat>, x: nat)
    requires Chain(next, q) && Ascending(q) && |q| > 0 && forall p :: p in q ==> p < x
    ensures Chain(next[q[|q| - 1] := At(x)][x := Nil], q + [x]) && Ascending(q + [x])
  {
    var n, r := next[q[|q| - 1] := At(x)][x := Nil], q + [x];
    assert forall i :: 0 <= i < |q| ==> q[i] in q;
    forall i | 0 <= i < |r|
      ensures LinkAt(n, r, i)
    {
      if i < |q| {
        assert LinkAt(next, q, i) && q[i] in q;
        if i < |q| - 1 { assert q[i] < q[|q| - 1]; }
      }
    }
  }

  lemma Unlink(next: map<nat, Link>, q: seq<nat>, i: nat)
    requires Chain(next, q) && Ascending(q) && 1 <= i < |q| && q[i] in next
    ensures Chain(next[q[i - 1] := next[q[i]]], CutOut(q, i))
  {
    CutOutOrder(q, i);
    var n, r := next[q[i - 1] := next[q[i]]], CutOut(q, i);
    forall j | 0 <= j < |r|
      ensures LinkAt(n, r, j)
    {
      if j < i - 1 {
        assert LinkAt(next, q, j) && q[j] < q[i - 1];
      } else if j == i - 1 {
        assert LinkAt(next, q, i);
      } else {
        assert LinkAt(next, q, j + 1) && q[i - 1] < q[j + 1];
      }
    }
  }

  lemma UnlinkHead(next: map<nat, Link>, q: seq<nat>)
    requires Chain(next, q) && Ascending(q) && |q| > 1
    ensures Chain(next, CutOut(q, 0)) && q[0] in next && next[q[0]] == At(q[1]) && CutOut(q, 0)[0] == q[1]
  {
    CutOutOrder(q, 0);
    assert LinkAt(next, q, 0);
    var r := CutOut(q, 0);
    forall j | 0 <= j < |r|
      ensures LinkAt(next, r, j)
    {
      assert LinkAt(next, q, j + 1);
    }
  }

  /** A chain does not see changes to structs that are not on it. */
  lemma ChainElsewhere(next: map<nat, Link>, next': map<nat, Link>, s: seq<nat>)
    requires Chain(next, s) && forall p :: p in s && p in next ==> p in next' && next'[p] == next[p]
    ensures Chain(next', s)
  {
    forall i | 0 <= i < |s|
      ensures LinkAt(next', s, i)
    {
      assert LinkAt(next, s, i) && s[i] in s;
    }
  }

  lemma Pushed(next: map<nat, Link>, s: seq<nat>, x: nat)
    requires Chain(next, s) && x !in s
    ensures Chain(next[x := Head(s)], [x] + s)
  {
    var n, r := next[x := Head(s)], [x] + s;
    forall i | 0 <= i < |r|
      ensures LinkAt(n, r, i)
    {
      if i > 0 { assert LinkAt(next, s, i - 1) && s[i - 1] in s; }
    }
  }

  // ----------------------------------------------------------------------- spawn

  /** A new task goes to the end of the ready queue. */
  method Spawn(k: Kernel, stdio: seq<File>) returns (pid: nat)
    requires k.Valid() && k.current in k.queue && |stdio| == 3
    requires forall i :: 0 <= i < 3 ==> Copyable(k.fds.files, stdio[i])
    modifies k`next, k`nextPid, k`queue, k.fds
    ensures k.Valid() && pid == old(k.nextPid) && k.queue == old(k.queue) + [pid] && k.current in k.queue
    ensures k.nextPid == pid + 1
    ensures k.fds.View() == old(k.fds.View()).(
              files := old(k.fds.files)[pid := Child(stdio, 3)], socks := ShareAll(old(k.fds.socks), stdio, 3))
    ensures Later(old(k.fds.pipes), old(k.fds.nextPipe), k.fds.pipes)
  {
    hide Turn, Follows, TraceOk, PipesOk, SocksOk, Slots, Chain, Ascending, Distinct, LinkAt, Next, Copyable, Later,
         ShareAll;
    pid := k.nextPid;
    Descriptors.Spawn(k.fds, pid, stdio);
    Enqueue(k);
    InAppended(old(k.queue), pid);
  }

  lemma InAppended(q: seq<nat>, x: nat)
    ensures forall p :: p in q + [x] <==> p in q || p == x
  {}

  method Enqueue(k: Kernel)
    requires k.QueueOk() && k.DeadOk() && k.TraceValid() && k.current in k.queue
    modifies k`next, k`nextPid, k`queue
    ensures k.QueueOk() && k.DeadOk() && k.TraceValid() && k.current in k.queue
    ensures k.queue == old(k.queue) + [old(k.nextPid)] && k.nextPid == old(k.nextPid) + 1
  {
    hide Turn, Follows, TraceOk, Chain, Ascending, Distinct, LinkAt, Next;
    var pid := k.nextPid;
    k.nextPid := k.nextPid + 1;
    var tail := FindTail(k);
    Append1(k.next, k.queue, pid);
    InAppended(k.queue, pid);
    k.next := k.next[tail := At(pid)][pid := Nil];
    k.queue := k.queue + [pid];
  }

  method FindTail(k: Kernel) returns (tail: nat)
    requires |k.queue| > 0 && k.ready == k.queue[0] && Chain(k.next, k.queue)
    ensures tail == k.queue[|k.queue| - 1]
  {
    tail := k.ready;
    ghost var i := 0;
    assert LinkAt(k.next, k.queue, 0);
    while k.next[tail] != Nil
      invariant 0 <= i < |k.queue| && tail == k.queue[i] && LinkAt(k.next, k.queue, i)
      decreases |k.queue| - i
    {
      tail := k.next[tail].pid;
      i := i + 1;
      assert LinkAt(k.next, k.queue, i);
    }
  }

  // ------------------------------------------------------------------ exit and kill

  /** Push a task that is off the ready queue onto the zombie list. */
  method Bury(k: Kernel, t: nat)
    requires k.DeadOk() && t !in k.queue && t in k.next && t < k.nextPid && t !in k.dead + k.taken
    modifies k`reapNext, k`zombies, k`dead
    ensures k.DeadOk() && k.dead == [t] + old(k.dead) && k.taken == old(k.taken)
  {
    hide Chain, Distinct;
    Pushed(k.reapNext, k.dead, t);
    ChainElsewhere(k.reapNext, k.reapNext[t := k.zombies], k.taken);
    DistinctPush(k.dead, k.taken, t);
    k.reapNext := k.reapNext[t := k.zombies];
    k.zombies := At(t);
    k.dead := [t] + k.dead;
  }

  lemma DistinctPush(a: seq<nat>, b: seq<nat>, x: nat)
    requires Distinct(a + b) && x !in a + b
    ensures Distinct(([x] + a) + b) && forall p :: p in ([x] + a) + b <==> p in a + b || p == x
  {
    assert ([x] + a) + b == [x] + (a + b);
  }

  /** Take position i > 0 off the ready queue; its own link stays as it is. */
  method Remove(k: Kernel, t: nat, prev: nat, ghost i: nat)
    requires k.QueueOk() && k.DeadOk() && k.TraceValid() && 1 <= i < |k.queue| && t == k.queue[i]
    requires prev == k.queue[i - 1]
    modifies k`next, k`queue
    ensures k.QueueOk() && k.DeadOk() && k.TraceValid() && k.queue == CutOut(old(k.queue), i) && k.ready == old(k.ready)
    ensures t in k.next && t !in k.queue && t !in k.dead + k.taken && t < k.nextPid
    ensures t in old(k.next) && k.next[t] == old(k.next)[t] && Next(old(k.queue), t, k.next[t])
    ensures forall p :: p in k.queue <==> p in old(k.queue) && p != t
  {
    hide Chain, Distinct, Ascending, Follows, TraceOk, Turn, Next, CutOut;
    assert t in k.queue && t < k.nextPid;
    NextInQueue(k.next, k.queue, i);
    NextInQueue(k.next, k.queue, i - 1);
    Unlink(k.next, k.queue, i);
    CutOutOrder(k.queue, i);
    Apart(k.queue, i);
    k.next := k.next[prev := k.next[t]];
    k.queue := CutOut(k.queue, i);
  }

  lemma Apart(q: seq<nat>, i: nat)
    requires Ascending(q) && 1 <= i < |q|
    ensures q[i - 1] != q[i] && q[0] == CutOut(q, i)[0]
  {}

  lemma NextWithout(q: seq<nat>, i: nat, l: Link)
    requires Ascending(q) && i < |q| && Next(q, q[i], l)
    ensures Next(CutOut(q, i), q[i], l)
  {
    CutOutOrder(q, i);
  }

  /** Find the ready task before t. */
  method FindPrev(k: Kernel, t: nat) returns (prev: nat, ghost i: nat)
    requires k.QueueOk() && t in k.queue && t != k.ready
    ensures 1 <= i < |k.queue| && k.queue[i] == t && prev == k.queue[i - 1]
  {
    ghost var j :| 0 <= j < |k.queue| && k.queue[j] == t;
    prev, i := k.ready, 1;
    assert LinkAt(k.next, k.queue, 0);
    while k.next[prev] != At(t)
      invariant 1 <= i <= j && prev == k.queue[i - 1] && LinkAt(k.next, k.queue, i - 1)
      decreases j - i
    {
      prev := k.next[prev].pid;
      i := i + 1;
      assert LinkAt(k.next, k.queue, i - 1);
    }
    assert k.queue[i] == t;
  }

  /** Tables and sockets once task t and all its descriptors are gone. */
  function Left(a: Desk, t: nat): Desk
    requires t in a.files
  {
    a.(files := a.files - {t}, socks := ShutAll(a.socks, a.files[t], MAX_FILES))
  }

  /** The current task dies. It stays on the CPU until the next scheduling
      step, which its untouched link leads on from. */
  method Exit(k: Kernel) returns (panicked: bool)
    requires k.Valid() && k.current in k.queue
    modifies k`next, k`ready, k`reapNext, k`zombies, k`queue, k`dead, k.fds
    ensures k.Valid() && panicked == (|old(k.queue)| == 1)
    ensures panicked ==> k.queue == old(k.queue) && k.dead == old(k.dead) && k.fds.View() == old(k.fds.View())
    ensures !panicked ==> old(k.current) in old(k.fds.files) && k.fds.View() == Left(old(k.fds.View()), old(k.current))
    ensures !panicked ==> k.dead == [k.current] + old(k.dead) && k.taken == old(k.taken) && k.current !in k.queue
                          && Gone(old(k.queue), k.current, k.queue)
                          && forall p :: p in k.queue <==> p in old(k.queue) && p != k.current
    ensures k.current != old(k.ready) ==> k.ready == old(k.ready)
    ensures Later(old(k.fds.pipes), old(k.fds.nextPipe), k.fds.pipes) && k.fds.nextPipe == old(k.fds.nextPipe)
  {
    hide Chain, Distinct, Ascending, Follows, TraceOk, Turn, Next, CutOut, PipesOk, SocksOk, Slots, LinkAt, ShutAll;
    Alone(k);
    if k.current == k.ready && k.next[k.current] == Nil { return true; }
    panicked := false;
    Leave(k.fds, k.current);
    Retire(k);
  }

  /** The current task goes from the ready queue to the zombie list. */
  method Retire(k: Kernel)
    requires k.QueueOk() && k.DeadOk() && k.TraceValid() && k.current in k.queue && |k.queue| > 1
    modifies k`next, k`ready, k`reapNext, k`zombies, k`queue, k`dead
    ensures k.QueueOk() && k.DeadOk() && k.TraceValid() && k.CurrentOk()
    ensures k.dead == [k.current] + old(k.dead) && k.current !in k.queue && Gone(old(k.queue), k.current, k.queue)
    ensures forall p :: p in k.queue <==> p in old(k.queue) && p != k.current
    ensures k.current != old(k.ready) ==> k.ready == old(k.ready)
  {
    hide Chain, Distinct, Ascending, Follows, TraceOk, Turn, Next, CutOut, LinkAt;
    ghost var q := k.queue;
    if k.current == k.ready {
      RemoveHead(k);
      NextWithout(q, 0, k.next[k.current]);
      CutOutOrder(q, 0);
    } else {
      var prev;
      ghost var i;
      prev, i := FindPrev(k, k.current);
      Remove(k, k.current, prev, i);
      NextWithout(q, i, k.next[k.current]);
      CutOutOrder(q, i);
    }
    Bury(k, k.current);
  }

  lemma Alone(k: Kernel)
    requires k.Valid() && k.current in k.queue
    ensures k.current in k.next
    ensures (k.current == k.ready && k.next[k.current] == Nil) <==> |k.queue| == 1
  {
    CurrentNext(k);
    assert LinkAt(k.next, k.queue, 0);
  }

  method RemoveHead(k: Kernel)
    requires k.QueueOk() && k.DeadOk() && k.TraceValid() && |k.queue| > 1
    modifies k`ready, k`queue
    ensures k.QueueOk() && k.DeadOk() && k.TraceValid() && k.queue == CutOut(old(k.queue), 0)
    ensures var t := old(k.ready);
      t in k.next && t !in k.queue && t !in k.dead + k.taken && t < k.nextPid && Next(old(k.queue), t, k.next[t])
  {
    hide Chain, Distinct, Ascending, Follows, TraceOk, Turn, Next, CutOut, LinkAt;
    NextInQueue(k.next, k.queue, 0);
    UnlinkHead(k.next, k.queue);
    CutOutOrder(k.queue, 0);
    k.ready := k.next[k.ready].pid;
    k.queue := CutOut(k.queue, 0);
  }

  /** Kill another task, never the head of the queue. Killing oneself is exiting. */
  method Kill(k: Kernel, pid: nat) returns (ok: bool)
    requires k.Valid() && k.current in k.queue && pid != k.current
    modifies k`next, k`reapNext, k`zombies, k`queue, k`dead, k.fds
    ensures k.Valid() && k.current in k.queue && k.ready == old(k.ready)
    ensures ok == (pid in old(k.queue) && pid != k.ready)
    ensures !ok ==> k.queue == old(k.queue) && k.dead == old(k.dead) && k.fds.View() == old(k.fds.View())
    ensures ok ==> pid in old(k.fds.files) && k.fds.View() == Left(old(k.fds.View()), pid)
    ensures ok ==> k.dead == [pid] + old(k.dead) && k.taken == old(k.taken) && Gone(old(k.queue), pid, k.queue)
    ensures Later(old(k.fds.pipes), old(k.fds.nextPipe), k.fds.pipes) && k.fds.nextPipe == old(k.fds.nextPipe)
  {
    hide Chain, Distinct, Ascending, Follows, TraceOk, Turn, Next, CutOut, PipesOk, SocksOk, Slots, LinkAt, ShutAll,
         Kernel.QueueOk, Kernel.DeadOk, Kernel.TraceValid;
    var found, prev;
    ghost var i;
    found, prev, i := Search(k, pid);
    if !found || pid == k.ready { return false; }
    Leave(k.fds, pid);
    Remove(k, pid, prev, i);
    Bury(k, pid);
    ok := true;
  }

  /** Walk the ready queue looking for pid, keeping the one before. */
  method Search(k: Kernel, pid: nat) returns (found: bool, prev: nat, ghost i: nat)
    requires k.QueueOk()
    ensures found == (pid in k.queue)
    ensures found && pid != k.ready ==> 1 <= i < |k.queue| && k.queue[i] == pid && prev == k.queue[i - 1]
  {
    var t := At(k.ready);
    prev, i := 0, 0;
    while t != Nil && t.pid != pid
      invariant 0 <= i <= |k.queue| && (t == if i < |k.queue| then At(k.queue[i]) else Nil)
      invariant forall j :: 0 <= j < i ==> k.queue[j] != pid
      invariant i > 0 ==> prev == k.queue[i - 1]
      decreases |k.queue| - i
    {
      assert LinkAt(k.next, k.queue, i);
      prev := t.pid;
      t := k.next[t.pid];
      i := i + 1;
    }
    found := t != Nil;
  }

  method TaskAlive(k: Kernel, pid: nat) returns (alive: bool)
    requires k.QueueOk()
    ensures alive == (pid in k.queue)
  {
    var prev;
    ghost var i;
    alive, prev, i := Search(k, pid);
  }

  // ---------------------------------------------------------------------- the reaper

  lemma NoChain(next: map<nat, Link>)
    ensures Chain(next, [])
  {}

  /** The reaper takes the whole zombie list. */
  method TakeZombies(k: Kernel)
    requires k.Valid() && k.current in k.queue && k.reaping == Nil
    modifies k`zombies, k`reaping, k`dead, k`taken
    ensures k.Valid() && k.dead == [] && k.taken == old(k.dead)
  {
    hide Distinct, Ascending, Follows, TraceOk, Turn, PipesOk, SocksOk, Slots, LinkAt, Chain, Next, Kernel.QueueOk,
         Kernel.TraceValid, Kernel.TablesOk;
    assert k.taken == [];
    assert [] + k.dead == k.dead && k.dead + k.taken == k.dead;
    NoChain(k.reapNext);
    k.reaping := k.zombies;
    k.zombies := Nil;
    k.taken := k.dead;
    k.dead := [];
  }

  /** It frees one struct at a time, with interrupts on in between: never a ready task, never the running one. */
  method FreeOne(k: Kernel) returns (z: nat)
    requires k.Valid() && k.current in k.queue && k.reaping != Nil
    modifies k`next, k`reapNext, k`reaping, k`taken
    ensures k.Valid() && z == old(k.taken)[0] && k.taken == old(k.taken)[1..]
    ensures z !in k.queue && z != k.current && z !in k.next && z !in k.reapNext && z !in k.dead
  {
    hide Distinct, Ascending, Follows, TraceOk, Turn, PipesOk, SocksOk, Slots, LinkAt, Chain, Next;
    z := k.reaping.pid;
    ghost var rest := k.taken[1..];
    Tail(k.reapNext, k.taken);
    DistinctTail(k.dead, k.taken);
    var after := k.reapNext[z];
    ChainElsewhere(k.next, k.next - {z}, k.queue);
    ChainElsewhere(k.reapNext, k.reapNext - {z}, k.dead);
    ChainElsewhere(k.reapNext, k.reapNext - {z}, rest);
    k.next := k.next - {z};
    k.reapNext := k.reapNext - {z};
    k.reaping := after;
    k.taken := rest;
  }

  lemma Tail(next: map<nat, Link>, s: seq<nat>)
    requires Chain(next, s) && s != []
    ensures Chain(next, s[1..]) && s[0] in next && next[s[0]] == Head(s[1..])
  {
    assert LinkAt(next, s, 0);
    forall i | 0 <= i < |s| - 1
      ensures LinkAt(next, s[1..], i)
    {
      assert LinkAt(next, s, i + 1);
    }
  }

  lemma DistinctTail(a: seq<nat>, b: seq<nat>)
    requires Distinct(a + b) && b != []
    ensures Distinct(a + b[1..]) && b[0] in a + b && b[0] !in a && b[0] !in b[1..]
    ensures forall p :: p in a + b[1..] <==> p in a + b && p != b[0]
  {
    var c, d := a + b, a + b[1..];
    assert c[|a|] == b[0];
    assert forall i :: 0 <= i < |a| ==> a[i] == c[i];
    assert forall i :: 0 <= i < |b| - 1 ==> b[1..][i] == c[|a| + 1 + i];
    forall i | 0 <= i < |d|
      ensures d[i] == c[if i < |a| then i else i + 1]
    {}
    forall p | p in c && p != b[0]
      ensures p in d
    {
      var i :| 0 <= i < |c| && c[i] == p;
      assert d[if i < |a| then i else i - 1] == p;
    }
  }

  /** The kernel task, pid 0, heads the queue as long as it is ready; nobody can kill it. */
  lemma KernelIsHead(k: Kernel)
    requires k.QueueOk() && 0 in k.queue
    ensures k.ready == 0
  {
    var i :| 0 <= i < |k.queue| && k.queue[i] == 0;
  }

  // ---------------------------------------------------------------------- whole runs

  /** exec2 by the current task: the child shares what the caller names. */
  method Exec(k: Kernel, fds: seq<int>, loads: bool) returns (ok: bool)
    requires k.Valid() && k.current in k.queue && |fds| == 3
    modifies k`next, k`nextPid, k`queue, k.fds
    ensures k.Valid() && k.current in k.queue && k.current in old(k.fds.files)
    // It fails, without effect, exactly for a descriptor that is not open or a program that cannot be loaded.
    ensures ok == (OpenFds(old(k.fds.files)[k.current], fds) && loads)
    ensures !ok ==> View(k) == old(View(k))
    ensures ok ==> Born(old(View(k)), Stdio(old(k.fds.files)[k.current], fds), View(k))
    ensures Later(old(k.fds.pipes), old(k.fds.nextPipe), k.fds.pipes) && k.fds.nextPipe == old(k.fds.nextPipe)
  {
    hide Turn, Follows, TraceOk, PipesOk, SocksOk, Slots, Chain, Ascending, Distinct, LinkAt, Next, Later, ShareAll,
         Stdio, OpenFds;
    var pid := k.nextPid;
    ok := Exec2(k.fds, k.current, fds, pid, loads);
    if ok {
      Enqueue(k);
      InAppended(old(k.queue), pid);
    }
  }

  /** A program on a console of its own: its three descriptors are that console. */
  method ExecConsole(k: Kernel, console: nat)
    requires k.Valid() && k.current in k.queue
    modifies k`next, k`nextPid, k`queue, k.fds
    ensures k.Valid() && k.current in k.queue && Born(old(View(k)), OnConsole(console), View(k))
    ensures Later(old(k.fds.pipes), old(k.fds.nextPipe), k.fds.pipes) && k.fds.nextPipe == old(k.fds.nextPipe)
  {
    hide Turn, Follows, TraceOk, PipesOk, SocksOk, Slots, Chain, Ascending, Distinct, LinkAt, Next, Later, ShareAll;
    var pid := Spawn(k, OnConsole(console));
  }

  function OnConsole(console: nat): seq<File> { [Plain(console), Plain(console), Plain(console)] }

  /** What may happen next: something the current task does, or an interrupt. */
  datatype Event =
    | Tick | ExitNow | KillPid(pid: nat) | ExecFds(fds: seq<int>, loads: bool) | ExecOn(console: nat, loads: bool)
    | CloseFd(fd: int) | PipeCall | ConnectCall(aged: seq<bool>, gateway: bool) | ConnectPoll(giveUp: bool)
    | Handshake(s: nat) | Teardown(s: nat, finished: bool) | ReapTake | ReapFree

  /** q' is q without x, the others in the order they had. */
  ghost predicate Gone(q: seq<nat>, x: nat, q': seq<nat>)
  {
    exists i :: 0 <= i < |q| && q[i] == x && q' == CutOut(q, i)
  }

  /** Ready tasks, the current one, zombies, those being reaped, how many pids were
      given out, every decision of the scheduler, and the descriptors. */
  datatype Scene = Scene(queue: seq<nat>, current: nat, dead: seq<nat>, taken: seq<nat>, pids: nat, trace: seq<Pick>,
                         desk: Desk)

  ghost function View(k: Kernel): Scene
    reads k, k.fds
  {
    Scene(k.queue, k.current, k.dead, k.taken, k.nextPid, k.trace, k.fds.View())
  }

  /** A new task with the next pid joins the end of the queue, sharing what `stdio` names. */
  ghost predicate Born(a: Scene, stdio: seq<File>, b: Scene)
  {
    |stdio| == 3 &&
    b == a.(queue := a.queue + [a.pids], pids := a.pids + 1,
            desk := a.desk.(files := a.desk.files[a.pids := Child(stdio, 3)],
                            socks := ShareAll(a.desk.socks, stdio, 3)))
  }

  /** One decision of the scheduler. */
  ghost predicate Switches(a: Scene, b: Scene)
  {
    && Turn(a.queue, a.current, b.current)
    && b == a.(current := b.current, trace := a.trace + [Pick(b.current, a.queue, a.pids)])
  }

  /** Task p leaves the queue for the zombies and drops its descriptors. */
  ghost predicate Buried(a: Scene, p: nat, b: Scene)
  {
    && p in a.desk.files && Gone(a.queue, p, b.queue)
    && b == a.(queue := b.queue, dead := [p] + a.dead, desk := Left(a.desk, p))
  }

  /** The current task is gone and the next one's turn has come, unless it was the only one. */
  ghost predicate Dies(a: Scene, b: Scene)
  {
    if |a.queue| == 1 then b == a
    else exists mid: Scene :: Buried(a, a.current, mid) && Switches(mid, b)
  }

  /** What each event does to the scene. */
  ghost predicate Happens(e: Event, a: Scene, b: Scene)
  {
    |a.queue| > 0 && a.current in a.desk.files &&
    match e
    case Tick => Switches(a, b)
    case ExitNow => Dies(a, b)
    case KillPid(p) =>
      if p == a.current then Dies(a, b)
      else if p in a.queue && p != a.queue[0] then Buried(a, p, b)
      else b == a
    case ExecFds(fds, loads) =>
      if OpenFds(a.desk.files[a.current], fds) && loads then Born(a, Stdio(a.desk.files[a.current], fds), b) else b == a
    case ExecOn(console, loads) => if loads then Born(a, OnConsole(console), b) else b == a
    case ReapTake => b == if a.taken == [] then a.(dead := [], taken := a.dead) else a
    case ReapFree => b == if a.taken != [] then a.(taken := a.taken[1..]) else a
    case _ => b == a.(desk := b.desk) && Calls(e, a.current, a.desk, b.desk)
  }

  /** What a system call of task t, or the network, does to tables and sockets. A task
      with a connect under way makes no other call. */
  ghost predicate Calls(e: Event, t: nat, a: Desk, b: Desk)
    requires t in a.files
  {
    match e
    case CloseFd(fd) =>
      b == if t !in a.pending && 0 <= fd < MAX_FILES
           then a.(files := Put(a.files, t, fd, NoFile), socks := Shut(a.socks, a.files[t][fd])) else a
    case PipeCall =>
      if t in a.pending || forall r, w :: !LowestTwo(a.files[t], r, w) then b == a
      else exists r, w :: LowestTwo(a.files[t], r, w)
             && b == a.(files := Put(Put(a.files, t, r, PipeEnd(a.nextPipe, false)), t, w, PipeEnd(a.nextPipe, true)),
                        nextPipe := a.nextPipe + 1)
    case ConnectCall(aged, gateway) =>
      if t in a.pending || |aged| != |a.socks| then b == a else Connects(a, t, aged, gateway, b)
    case ConnectPoll(giveUp) =>
      if t !in a.pending || a.pending[t].sock >= |a.socks| || a.pending[t].fd >= MAX_FILES then b == a
      else Polls(a, t, a.pending[t], giveUp, b)
    case Handshake(s) =>
      b == if s < |a.socks| && a.socks[s].state == SynSent
           then a.(socks := a.socks[s := a.socks[s].(state := Established)]) else a
    case Teardown(s, finished) =>
      b == if s < |a.socks| then a.(socks := a.socks[s := Ended(a.socks[s], finished)]) else a
    case _ => b == a
  }

  /** A task looks at its connect: it has its descriptor, or has given up, or waits on. */
  ghost predicate Polls(a: Desk, t: nat, w: Pending, giveUp: bool, b: Desk)
    requires t in a.files && w.sock < |a.socks| && w.fd < MAX_FILES
  {
    b == if a.socks[w.sock].state == Established
         then a.(files := Put(a.files, t, w.fd, Socket(w.sock)), pending := a.pending - {t})
         else if giveUp
         then a.(socks := a.socks[w.sock := a.socks[w.sock].(state := FreeSock)], pending := a.pending - {t})
         else a
  }

  /** A system call that only touches the caller's descriptors. */
  method DescriptorCall(c: Files, t: nat, e: Event)
    requires c.Valid() && t in c.files
    modifies c
    ensures c.Valid() && c.files.Keys == old(c.files.Keys)
    ensures forall p :: p in c.pending ==> p in old(c.pending) || p == t
    ensures Later(old(c.pipes), old(c.nextPipe), c.pipes) && c.nextPipe >= old(c.nextPipe)
    ensures Calls(e, t, old(c.View()), c.View())
  {
    hide PipesOk, Slots, SockOk, Shut, LowestTwo, Connects, Polls, Ended;
    match e
    case CloseFd(fd) => if t !in c.pending { var ok := Close(c, t, fd); }
    case PipeCall => if t !in c.pending { var ok, r, w := MakePipe(c, t); }
    case _ => SocketCall(c, t, e);
  }

  /** The part of it about sockets. */
  method SocketCall(c: Files, t: nat, e: Event)
    requires c.Valid() && t in c.files && !e.CloseFd? && !e.PipeCall?
    modifies c`files, c`socks, c`pending
    ensures c.Valid() && c.files.Keys == old(c.files.Keys)
    ensures forall p :: p in c.pending ==> p in old(c.pending) || p == t
    ensures Calls(e, t, old(c.View()), c.View())
  {
    hide PipesOk, Slots, SockOk;
    match e
    case ConnectCall(aged, gateway) =>
      if t !in c.pending && |aged| == SOCKS { var ok := ConnectStart(c, t, aged, gateway); }
    case ConnectPoll(giveUp) =>
      if t in c.pending {
        if c.socks[c.pending[t].sock].state == Established { var fd := ConnectDone(c, t); }
        else if giveUp { ConnectFail(c, t); }
      }
    case Handshake(s) => if s < SOCKS { NetEstablish(c, s); }
    case Teardown(s, finished) => if s < SOCKS { NetEnd(c, s, finished); }
    case _ =>
  }

  /** One event with a live task on the CPU; a task that dies hands over at once. */
  method Perform(k: Kernel, e: Event)
    requires k.Valid() && k.current in k.queue
    modifies k, k.fds
    ensures k.Valid() && k.current in k.queue && old(k.trace) <= k.trace
    ensures Later(old(k.fds.pipes), old(k.fds.nextPipe), k.fds.pipes) && k.fds.nextPipe >= old(k.fds.nextPipe)
    ensures Happens(e, old(View(k)), View(k))
    // The kernel task is there, and so at the head, unless it exits itself.
    ensures 0 in old(k.queue) && old(k.current) != 0 ==> 0 in k.queue
  {
    hide Turn, Follows, TraceOk, PipesOk, SocksOk, Slots, Chain, Ascending, Distinct, LinkAt, Next, Later, Gone, Dies,
         Calls, OpenFds, Stdio, ShareAll, ShutAll, Buried,
         Kernel.QueueOk, Kernel.DeadOk, Kernel.TraceValid, Kernel.TablesOk;
    Same(k.fds);
    Standing(k);
    match e
    case Tick => Schedule(k);
    case ExitNow => Die(k);
    case KillPid(pid) => if pid == k.current { Die(k); } else { KillOther(k, pid); }
    case ExecFds(fds, loads) => ExecCall(k, fds, loads);
    case ExecOn(console, loads) => if loads { ExecConsole(k, console); }
    case ReapTake => if k.reaping == Nil { TakeZombies(k); }
    case ReapFree => if k.reaping != Nil { var z := FreeOne(k); }
    case _ => CallerStep(k, e);
  }

  /** The current task is ready and has descriptors; the reaper is at the first task it took. */
  lemma Standing(k: Kernel)
    requires k.Valid() && k.current in k.queue
    ensures |k.queue| > 0 && k.current in k.fds.files && k.ready == k.queue[0] && k.reaping == Head(k.taken)
  {}

  method ExecCall(k: Kernel, fds: seq<int>, loads: bool)
    requires k.Valid() && k.current in k.queue
    modifies k`next, k`nextPid, k`queue, k.fds
    ensures k.Valid() && k.current in k.queue && (0 in old(k.queue) ==> 0 in k.queue)
    ensures Happens(ExecFds(fds, loads), old(View(k)), View(k))
    ensures Later(old(k.fds.pipes), old(k.fds.nextPipe), k.fds.pipes) && k.fds.nextPipe == old(k.fds.nextPipe)
  {
    hide Turn, Follows, TraceOk, PipesOk, SocksOk, Slots, Chain, Ascending, Distinct, LinkAt, Next, Later, Stdio,
         ShareAll;
    Same(k.fds);
    if |fds| == 3 { var ok := Exec(k, fds, loads); }
  }

  method KillOther(k: Kernel, pid: nat)
    requires k.Valid() && k.current in k.queue && pid != k.current
    modifies k`next, k`reapNext, k`zombies, k`queue, k`dead, k.fds
    ensures k.Valid() && k.current in k.queue && (0 in old(k.queue) ==> 0 in k.queue)
    ensures Happens(KillPid(pid), old(View(k)), View(k))
    ensures Later(old(k.fds.pipes), old(k.fds.nextPipe), k.fds.pipes) && k.fds.nextPipe == old(k.fds.nextPipe)
  {
    hide Turn, Follows, TraceOk, PipesOk, SocksOk, Slots, Chain, Ascending, Distinct, LinkAt, Next, Later, Gone;
    ghost var q := k.queue;
    if 0 in k.queue { KernelIsHead(k); }
    var ok := Kill(k, pid);
    if ok { Others(q, pid, k.queue); }
  }

  lemma Others(q: seq<nat>, x: nat, q': seq<nat>)
    requires Gone(q, x, q')
    ensures 0 in q && x != 0 ==> 0 in q'
  {}

  method CallerStep(k: Kernel, e: Event)
    requires k.Valid() && k.current in k.queue
    modifies k.fds
    ensures k.Valid() && k.fds.files.Keys == old(k.fds.files.Keys)
    ensures Later(old(k.fds.pipes), old(k.fds.nextPipe), k.fds.pipes) && k.fds.nextPipe >= old(k.fds.nextPipe)
    ensures k.current in old(k.fds.files) && Calls(e, k.current, old(k.fds.View()), k.fds.View())
  {
    hide Turn, Follows, TraceOk, PipesOk, SocksOk, Slots, Chain, Ascending, Distinct, LinkAt, Next, Later, Calls;
    DescriptorCall(k.fds, k.current, e);
  }

  lemma Same(c: Files)
    ensures Later(c.pipes, c.nextPipe, c.pipes)
  {}

  /** exit() and the switch it ends in. The last task cannot exit. */
  method Die(k: Kernel)
    requires k.Valid() && k.current in k.queue
    modifies k, k.fds
    ensures k.Valid() && k.current in k.queue && old(k.trace) <= k.trace
    ensures Dies(old(View(k)), View(k))
    ensures 0 in old(k.queue) && old(k.current) != 0 ==> 0 in k.queue
    ensures Later(old(k.fds.pipes), old(k.fds.nextPipe), k.fds.pipes) && k.fds.nextPipe == old(k.fds.nextPipe)
  {
    hide Turn, Follows, TraceOk, PipesOk, SocksOk, Slots, Chain, Ascending, Distinct, LinkAt, Next, Later, Left;
    ghost var a := View(k);
    var panicked := Exit(k);
    if !panicked {
      ghost var mid := View(k);
      assert Buried(a, a.current, mid);
      Schedule(k);
      assert Switches(mid, View(k));
    }
  }

  lemma LaterTrans(a: map<nat, Pipes.Ends>, n: nat, b: map<nat, Pipes.Ends>, n': nat, c: map<nat, Pipes.Ends>)
    requires Later(a, n, b) && Later(b, n', c) && n <= n'
    ensures Later(a, n, c)
  {}

  /** Any run from any valid state: the ready queue, the zombies, every
      descriptor count and the record of who ran when stay right, and each
      event does what it should. */
  method Run(k: Kernel, events: seq<Event>) returns (ghost scenes: seq<Scene>)
    requires k.Valid() && k.current in k.queue
    modifies k, k.fds
    ensures k.Valid() && k.current in k.queue
    ensures TraceOk(k.trace) && old(k.trace) <= k.trace
    ensures Later(old(k.fds.pipes), old(k.fds.nextPipe), k.fds.pipes)
    ensures |scenes| == |events| + 1 && scenes[0] == old(View(k)) && scenes[|events|] == View(k)
    ensures forall n :: 0 <= n < |events| ==> Happens(events[n], scenes[n], scenes[n + 1])
  {
    hide Turn, Follows, TraceOk, PipesOk, SocksOk, Slots, Chain, Ascending, Distinct, LinkAt, Next, Later, Happens;
    Same(k.fds);
    scenes := [View(k)];
    for n := 0 to |events|
      invariant k.Valid() && k.current in k.queue && old(k.trace) <= k.trace
      invariant Later(old(k.fds.pipes), old(k.fds.nextPipe), k.fds.pipes) && k.fds.nextPipe >= old(k.fds.nextPipe)
      invariant |scenes| == n + 1 && scenes[0] == old(View(k)) && scenes[n] == View(k)
      invariant forall j :: 0 <= j < n ==> Happens(events[j], scenes[j], scenes[j + 1])
    {
      ghost var mid, m := k.fds.pipes, k.fds.nextPipe;
      Perform(k, events[n]);
      LaterTrans(old(k.fds.pipes), old(k.fds.nextPipe), mid, m, k.fds.pipes);
      scenes := scenes + [View(k)];
    }
  }
}
