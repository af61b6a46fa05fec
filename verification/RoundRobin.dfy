/** The order the scheduler runs tasks in, over whole runs (kernel/task.c:74-100). */
module RoundRobin {
  /** Whose turn it is after x among the ready tasks q: the next larger pid, or the smallest. */
  ghost predicate Turn(q: seq<nat>, x: nat, y: nat)
  {
    y in q &&
    if exists z :: z in q && z > x then y > x && forall z :: z in q && z > x ==> y <= z
    else forall z :: z in q ==> y <= z
  }

  /** One decision of the scheduler: who was picked, from which ready queue, and how many pids
      were given out by then. */
  datatype Pick = Pick(pid: nat, queue: seq<nat>, pids: nat)

  /** From one decision to the next: the one whose turn it is runs, and nobody who left comes back. */
  ghost predicate Follows(a: Pick, b: Pick)
  {
    && Turn(b.queue, a.pid, b.pid) && a.pids <= b.pids
    && (forall p :: p in b.queue ==> p < b.pids && (p < a.pids ==> p in a.queue))
  }

  ghost predicate PickOk(tr: seq<Pick>, k: nat)
  {
    0 < k < |tr| ==> Follows(tr[k - 1], tr[k])
  }

  ghost predicate TraceOk(tr: seq<Pick>)
  {
    forall k :: 0 < k < |tr| ==> PickOk(tr, k)
  }

  lemma Append(tr: seq<Pick>, p: Pick)
    requires TraceOk(tr) && |tr| > 0 && Follows(tr[|tr| - 1], p)
    ensures TraceOk(tr + [p])
  {
    var tr' := tr + [p];
    forall k | 0 < k < |tr'|
      ensures PickOk(tr', k)
    {
      if k < |tr| { assert PickOk(tr, k); }
    }
  }

  /** A task that has left the ready queue is never in it again, so never picked again. */
  lemma {:induction false} GoneForGood(tr: seq<Pick>, i: nat, j: nat, p: nat)
    requires TraceOk(tr) && i <= j < |tr| && p < tr[i].pids && p !in tr[i].queue
    ensures p !in tr[j].queue && p < tr[j].pids && (i < j ==> tr[j].pid != p)
  {
    if i < j {
      GoneForGood(tr, i, j - 1, p);
      assert PickOk(tr, j);
    }
  }

  /** Up to w the picks climb above x, from w on they climb below x. */
  ghost predicate OneLap(tr: seq<Pick>, i: nat, k: nat, w: nat)
  {
    && i < w <= k + 1 <= |tr|
    && (forall a :: i < a < w ==> tr[a].pid > tr[i].pid)
    && (forall a :: w <= a <= k ==> tr[a].pid < tr[i].pid)
    && (forall a, b :: i <= a < b < w ==> tr[a].pid < tr[b].pid)
    && (forall a, b :: w <= a < b <= k ==> tr[a].pid < tr[b].pid)
  }

  lemma TurnFacts(q: seq<nat>, c: nat, y: nat, x: nat)
    requires Turn(q, c, y) && x in q && y != x
    ensures c < x ==> c < y < x
    ensures c >= x ==> y > c || y < x
  {}

  lemma {:induction false} Lap(tr: seq<Pick>, i: nat, k: nat) returns (w: nat)
    requires TraceOk(tr) && i <= k < |tr|
    requires forall a :: i < a <= k ==> tr[i].pid in tr[a].queue && tr[a].pid != tr[i].pid
    ensures OneLap(tr, i, k, w)
  {
    hide Turn, TraceOk, Follows, PickOk;
    if i == k { return i + 1; }
    w := Lap(tr, i, k - 1);
    NextTurn(tr, k);
    TurnFacts(tr[k].queue, tr[k - 1].pid, tr[k].pid, tr[i].pid);
    w := LapMore(tr, i, k, w);
  }

  lemma NextTurn(tr: seq<Pick>, k: nat)
    requires TraceOk(tr) && 0 < k < |tr|
    ensures Turn(tr[k].queue, tr[k - 1].pid, tr[k].pid)
  {
    hide Turn;
    assert PickOk(tr, k);
  }

  lemma LapMore(tr: seq<Pick>, i: nat, k: nat, w: nat) returns (w': nat)
    requires i < k < |tr| && OneLap(tr, i, k - 1, w)
    requires tr[k - 1].pid < tr[i].pid ==> tr[k - 1].pid < tr[k].pid < tr[i].pid
    requires tr[k - 1].pid >= tr[i].pid ==> tr[k].pid > tr[k - 1].pid || tr[k].pid < tr[i].pid
    ensures OneLap(tr, i, k, w')
  {
    var up := w == k && tr[k].pid > tr[k - 1].pid;
    w' := if up then k + 1 else w;
    forall a | i <= a < k && a < w && up
      ensures tr[a].pid < tr[k].pid
    {
      if a < k - 1 { assert tr[a].pid < tr[k - 1].pid; }
    }
    forall a | w <= a < k
      ensures tr[a].pid < tr[k].pid
    {
      if a < k - 1 { assert tr[a].pid < tr[k - 1].pid; }
    }
  }

  /** Between two turns of a task that stays ready, no other task runs twice. */
  lemma Fair(tr: seq<Pick>, i: nat, j: nat, a: nat, b: nat)
    requires TraceOk(tr) && i < a < b < j < |tr| && tr[j].pid == tr[i].pid
    requires forall k :: i < k < j ==> tr[i].pid in tr[k].queue && tr[k].pid != tr[i].pid
    ensures tr[a].pid != tr[b].pid
  {
    var w := Lap(tr, i, j - 1);
  }
}
