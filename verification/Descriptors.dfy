/** Descriptor tables and the counts behind them: pipe ends and sockets
    (kernel/task.c:35-67, 131-164; kernel/pipe.c:21-54; kernel/tcp.c:237-293,
    374-409; kernel/syscall.c:391-457, 609-632). */
module Descriptors {
  import opened Pipes

  const MAX_FILES: nat := 8
  const SOCKS: nat := 4

  /** What a descriptor names; files and consoles carry no count. */
  datatype File = NoFile | Plain(id: nat) | PipeEnd(pipe: nat, writable: bool) | Socket(sock: nat)
  type Table = s: seq<File> | |s| == 8 witness [NoFile, NoFile, NoFile, NoFile, NoFile, NoFile, NoFile, NoFile]
  type Tables = map<nat, Table>

  datatype SockState = FreeSock | SynSent | Established | Lingering
  datatype Sock = Sock(state: SockState, refs: nat, reset: bool)

  /** A connect under way: the socket slot it took and the descriptor it will fill. */
  datatype Pending = Pending(sock: nat, fd: nat)

  /** Every slot of a live task that names f. */
  ghost function Slots(files: Tables, f: File): set<(nat, nat)>
  {
    set t, i | t in files && 0 <= i < MAX_FILES && files[t][i] == f :: (t, i)
  }

  function Put(files: Tables, t: nat, i: nat, f: File): Tables
    requires t in files && i < MAX_FILES
  {
    files[t := files[t][i := f]]
  }

  function One(b: bool): nat { if b then 1 else 0 }

  lemma SlotsPut(files: Tables, t: nat, i: nat, f: File, g: File)
    requires t in files && i < MAX_FILES
    ensures Slots(Put(files, t, i, f), g) == if f == g then Slots(files, g) + {(t, i)} else Slots(files, g) - {(t, i)}
  {
    var after := Put(files, t, i, f);
    assert forall u :: u in after <==> u in files;
    assert forall u, j :: u in files && 0 <= j < MAX_FILES && (u, j) != (t, i) ==> after[u][j] == files[u][j];
    assert after[t][i] == f;
  }

  lemma SlotIn(files: Tables, t: nat, i: nat, g: File)
    requires t in files && i < MAX_FILES
    ensures (t, i) in Slots(files, g) <==> files[t][i] == g
  {}

  lemma CountPut(files: Tables, t: nat, i: nat, f: File, g: File)
    requires t in files && i < MAX_FILES
    ensures |Slots(Put(files, t, i, f), g)| == |Slots(files, g)| + One(f == g) - One(files[t][i] == g)
  {
    hide Slots;
    var a := Slots(files, g);
    SlotIn(files, t, i, g);
    SlotsPut(files, t, i, f, g);
    if f == g {
      assert files[t][i] == g ==> a + {(t, i)} == a;
    } else {
      assert files[t][i] != g ==> a - {(t, i)} == a;
    }
  }

  /** A slot that names f is counted. */
  lemma Counted(files: Tables, t: nat, i: nat)
    requires t in files && i < MAX_FILES
    ensures |Slots(files, files[t][i])| > 0
  {
    assert (t, i) in Slots(files, files[t][i]);
  }

  lemma CountSame(files: Tables, files': Tables, f: File)
    requires forall t, i :: 0 <= i < MAX_FILES ==>
               ((t in files && files[t][i] == f) <==> (t in files' && files'[t][i] == f))
    ensures Slots(files', f) == Slots(files, f)
  {}

  /** Pipes that exist are those some descriptor names, and their counts are exact. */
  ghost predicate PipesOk(files: Tables, pipes: map<nat, Ends>, nextPipe: nat)
  {
    && (forall p :: p in pipes ==> p < nextPipe && !pipes[p].Dead())
    && (forall p, w :: p in pipes ==> pipes[p].Count(w) == |Slots(files, PipeEnd(p, w))|)
    && (forall t, i :: t in files && 0 <= i < MAX_FILES && files[t][i].PipeEnd? ==> files[t][i].pipe in pipes)
  }

  ghost function Waiting(pending: map<nat, Pending>, s: nat): set<nat>
  {
    set t | t in pending && pending[t].sock == s
  }

  /** An open socket's count is the descriptors naming it, plus a connect still to fill its descriptor. */
  ghost predicate SockOk(files: Tables, pending: map<nat, Pending>, s: nat, k: Sock)
  {
    var n, m := |Slots(files, Socket(s))|, |Waiting(pending, s)|;
    match k.state
    case FreeSock => n == 0 && m == 0
    case Lingering => n == 0 && m == 0
    case SynSent => n == 0 && m == 1 && k.refs == 1
    case Established => k.refs == n + m > 0 && (m == 0 || (m == 1 && n == 0))
  }

  ghost predicate SocksOk(files: Tables, socks: seq<Sock>, pending: map<nat, Pending>)
  {
    && |socks| == SOCKS
    && (forall s :: 0 <= s < SOCKS ==> SockOk(files, pending, s, socks[s]))
    && (forall t, i :: t in files && 0 <= i < MAX_FILES && files[t][i].Socket? ==> files[t][i].sock < SOCKS)
    && (forall t :: t in pending ==>
          && pending[t].sock < SOCKS && 3 <= pending[t].fd < MAX_FILES
          && (t in files ==> files[t][pending[t].fd] == NoFile))
  }

  /** All of it as a value; which pipes there are, and their counts, follow from the tables. */
  datatype Desk = Desk(files: Tables, nextPipe: nat, socks: seq<Sock>, pending: map<nat, Pending>)

  class Files {
    var files: Tables
    var pipes: map<nat, Ends>
    var socks: seq<Sock>
    var pending: map<nat, Pending>
    var nextPipe: nat

    ghost predicate Valid()
      reads this
    {
      PipesOk(files, pipes, nextPipe) && SocksOk(files, socks, pending)
    }

    function View(): Desk
      reads this
    {
      Desk(files, nextPipe, socks, pending)
    }

    constructor ()
      ensures Valid() && files == map[] && pipes == map[] && pending == map[]
    {
      files, pipes, pending, nextPipe := map[], map[], map[], 0;
      socks := [Sock(FreeSock, 0, false), Sock(FreeSock, 0, false), Sock(FreeSock, 0, false), Sock(FreeSock, 0, false)];
      new;
      forall s | 0 <= s < SOCKS
        ensures SockOk(files, pending, s, socks[s])
      {
        assert Slots(files, Socket(s)) == {} && Waiting(pending, s) == {};
      }
    }
  }

  /** A socket that an open descriptor names is open: never free, never lingering, never handed out again. */
  lemma NamedIsOpen(c: Files, t: nat, i: nat)
    requires c.Valid() && t in c.files && i < MAX_FILES && c.files[t][i].Socket?
    ensures c.files[t][i].sock < SOCKS && c.socks[c.files[t][i].sock].state == Established
  {
    Counted(c.files, t, i);
  }

  // ------------------------------------------------------------------- one slot

  /** A socket's last reference going away: one FIN and linger, or free at once. */
  function Dropped(k: Sock): Sock
    requires k.refs > 0
  {
    if k.refs > 1 then k.(refs := k.refs - 1)
    else Sock(if k.state == Established && !k.reset then Lingering else FreeSock, 0, k.reset)
  }

  function FewerEnds(pipes: map<nat, Ends>, p: nat, w: bool): map<nat, Ends>
    requires p in pipes && pipes[p].Count(w) > 0
  {
    var e := pipes[p].Less(w);
    if e.Dead() then pipes - {p} else pipes[p := e]
  }

  lemma PutPipes(files: Tables, pipes: map<nat, Ends>, n: nat, t: nat, i: nat)
    requires PipesOk(files, pipes, n) && t in files && i < MAX_FILES && files[t][i].PipeEnd?
    ensures var f := files[t][i];
      && f.pipe in pipes && pipes[f.pipe].Count(f.writable) > 0
      && PipesOk(Put(files, t, i, NoFile), FewerEnds(pipes, f.pipe, f.writable), n)
  {
    hide Slots;
    Counted(files, t, i);
    var f, after := files[t][i], Put(files, t, i, NoFile);
    var left := FewerEnds(pipes, f.pipe, f.writable);
    forall p, w | p in left
      ensures left[p].Count(w) == |Slots(after, PipeEnd(p, w))|
    {
      CountPut(files, t, i, NoFile, PipeEnd(p, w));
    }
    forall u, j | u in after && 0 <= j < MAX_FILES && after[u][j].PipeEnd?
      ensures after[u][j].pipe in left
    {
      assert files[u][j] == after[u][j];
      Counted(after, u, j);
      CountPut(files, t, i, NoFile, after[u][j]);
      assert pipes[after[u][j].pipe].Count(after[u][j].writable) == |Slots(files, after[u][j])|;
    }
  }

  lemma OtherPipes(files: Tables, pipes: map<nat, Ends>, n: nat, t: nat, i: nat, f: File)
    requires PipesOk(files, pipes, n) && t in files && i < MAX_FILES && !files[t][i].PipeEnd? && !f.PipeEnd?
    ensures PipesOk(Put(files, t, i, f), pipes, n)
  {
    hide Slots;
    var after := Put(files, t, i, f);
    forall p, w | p in pipes
      ensures pipes[p].Count(w) == |Slots(after, PipeEnd(p, w))|
    {
      CountPut(files, t, i, f, PipeEnd(p, w));
    }
  }

  lemma PutSocks(files: Tables, socks: seq<Sock>, pending: map<nat, Pending>, t: nat, i: nat)
    requires SocksOk(files, socks, pending) && t in files && i < MAX_FILES && files[t][i].Socket?
    ensures var s := files[t][i].sock;
      && s < SOCKS && socks[s].state == Established && socks[s].refs > 0
      && SocksOk(Put(files, t, i, NoFile), socks[s := Dropped(socks[s])], pending)
  {
    hide Slots;
    Counted(files, t, i);
    var s, after := files[t][i].sock, Put(files, t, i, NoFile);
    var left := socks[s := Dropped(socks[s])];
    forall x | 0 <= x < SOCKS
      ensures SockOk(after, pending, x, left[x])
    {
      CountPut(files, t, i, NoFile, Socket(x));
    }
  }

  lemma OtherSocks(files: Tables, socks: seq<Sock>, pending: map<nat, Pending>, t: nat, i: nat, f: File)
    requires SocksOk(files, socks, pending) && t in files && i < MAX_FILES && !files[t][i].Socket? && !f.Socket?
    requires f == NoFile || t !in pending || pending[t].fd != i
    ensures SocksOk(Put(files, t, i, f), socks, pending)
  {
    hide Slots;
    var after := Put(files, t, i, f);
    forall x | 0 <= x < SOCKS
      ensures SockOk(after, pending, x, socks[x])
    {
      CountPut(files, t, i, f, Socket(x));
    }
  }

  /** The sockets once a reference to f is gone. */
  function Shut(socks: seq<Sock>, f: File): (r: seq<Sock>)
    ensures |r| == |socks|
  {
    if f.Socket? && f.sock < |socks| && socks[f.sock].refs > 0 then socks[f.sock := Dropped(socks[f.sock])] else socks
  }

  /** The sockets once the first n descriptors of a table are gone. */
  function ShutAll(socks: seq<Sock>, tab: Table, n: nat): (r: seq<Sock>)
    requires n <= MAX_FILES
    ensures |r| == |socks|
  {
    if n == 0 then socks else Shut(ShutAll(socks, tab, n - 1), tab[n - 1])
  }

  /** The sockets once there is one more reference to f. */
  function Share(socks: seq<Sock>, f: File): (r: seq<Sock>)
    ensures |r| == |socks|
  {
    if f.Socket? && f.sock < |socks| && socks[f.sock].state != FreeSock
    then socks[f.sock := socks[f.sock].(refs := socks[f.sock].refs + 1)] else socks
  }

  function ShareAll(socks: seq<Sock>, stdio: seq<File>, n: nat): (r: seq<Sock>)
    requires n <= |stdio|
    ensures |r| == |socks|
  {
    if n == 0 then socks else Share(ShareAll(socks, stdio, n - 1), stdio[n - 1])
  }

  /** Clear one slot and drop its reference. */
  method FileClose(c: Files, t: nat, i: nat)
    requires c.Valid() && t in c.files && i < MAX_FILES
    modifies c`files, c`pipes, c`socks
    ensures c.Valid() && c.files == Put(old(c.files), t, i, NoFile)
    ensures Later(old(c.pipes), old(c.nextPipe), c.pipes) && |c.socks| == SOCKS
    ensures c.socks == Shut(old(c.socks), old(c.files)[t][i])
  {
    hide PipesOk, SocksOk;
    var f := c.files[t][i];
    match f {
    case PipeEnd(p, w) =>
      PutPipes(c.files, c.pipes, c.nextPipe, t, i);
      OtherSocks(c.files, c.socks, c.pending, t, i, NoFile);
      var e := c.pipes[p].Less(w);
      c.pipes := if e.Dead() then c.pipes - {p} else c.pipes[p := e];
    case Socket(s) =>
      PutSocks(c.files, c.socks, c.pending, t, i);
      OtherPipes(c.files, c.pipes, c.nextPipe, t, i, NoFile);
      SocksLength(c.files, c.socks, c.pending);
      Release(c, s);
    case _ =>
      OtherPipes(c.files, c.pipes, c.nextPipe, t, i, NoFile);
      OtherSocks(c.files, c.socks, c.pending, t, i, NoFile);
    }
    c.files := c.files[t := c.files[t][i := NoFile]];
    SocksLength(c.files, c.socks, c.pending);
  }

  lemma SocksLength(files: Tables, socks: seq<Sock>, pending: map<nat, Pending>)
    requires SocksOk(files, socks, pending)
    ensures |socks| == SOCKS
  {}

  /** tcp_release. */
  method Release(c: Files, s: nat)
    requires s < |c.socks| && c.socks[s].state != FreeSock && c.socks[s].refs > 0
    modifies c`socks
    ensures c.socks == old(c.socks)[s := Dropped(old(c.socks)[s])]
  {
    var k := c.socks[s];
    k := k.(refs := k.refs - 1);
    if k.refs > 0 {
      c.socks := c.socks[s := k];
      return;
    }
    if k.state == Established && !k.reset {
      k := k.(state := Lingering);
    } else {
      k := k.(state := FreeSock);
    }
    c.socks := c.socks[s := k];
  }

  /** Pipes n and up are new; an older pipe that is still there was there before,
      and an end nobody held stays unheld: end of file is for good. */
  ghost predicate Later(pipes: map<nat, Ends>, n: nat, pipes': map<nat, Ends>)
  {
    forall p :: p in pipes' && p < n ==>
      && p in pipes && (pipes[p].writers == 0 ==> pipes'[p].writers == 0)
      && (pipes[p].readers == 0 ==> pipes'[p].readers == 0)
  }

  // --------------------------------------------------------------- system calls

  method Close(c: Files, t: nat, fd: int) returns (ok: bool)
    requires c.Valid() && t in c.files && t !in c.pending
    modifies c`files, c`pipes, c`socks
    ensures c.Valid() && ok == (0 <= fd < MAX_FILES && old(c.files)[t][fd] != NoFile)
    ensures c.files == if 0 <= fd < MAX_FILES then Put(old(c.files), t, fd, NoFile) else old(c.files)
    ensures c.socks == if 0 <= fd < MAX_FILES then Shut(old(c.socks), old(c.files)[t][fd]) else old(c.socks)
    ensures Later(old(c.pipes), old(c.nextPipe), c.pipes)
  {
    if fd < 0 || fd >= MAX_FILES { return false; }
    if c.files[t][fd] == NoFile {
      assert c.files[t][fd := NoFile] == c.files[t];
      return false;
    }
    FileClose(c, t, fd);
    ok := true;
  }

  /** Every descriptor of a dying task goes. */
  method CloseAll(c: Files, t: nat)
    requires c.Valid() && t in c.files
    modifies c`files, c`pipes, c`socks
    ensures c.Valid() && c.files.Keys == old(c.files).Keys && forall i :: 0 <= i < MAX_FILES ==> c.files[t][i] == NoFile
    ensures forall u :: u in c.files && u != t ==> c.files[u] == old(c.files)[u]
    ensures Later(old(c.pipes), old(c.nextPipe), c.pipes)
    ensures c.socks == ShutAll(old(c.socks), old(c.files)[t], MAX_FILES)
  {
    hide PipesOk, SocksOk, Shut;
    ShutNothing(c.socks);
    for i := 0 to MAX_FILES
      invariant c.Valid() && c.files.Keys == old(c.files).Keys
      invariant forall j :: 0 <= j < MAX_FILES ==> c.files[t][j] == if j < i then NoFile else old(c.files)[t][j]
      invariant c.socks == ShutAll(old(c.socks), old(c.files)[t], i)
      invariant forall u :: u in c.files && u != t ==> c.files[u] == old(c.files)[u]
      invariant Later(old(c.pipes), old(c.nextPipe), c.pipes)
    {
      ShutNothing(c.socks);
      if c.files[t][i] != NoFile { FileClose(c, t, i); }
    }
  }

  lemma ShutNothing(socks: seq<Sock>)
    ensures Shut(socks, NoFile) == socks
  {}

  // --------------------------------------------------------- copying descriptors

  /** f carries no count, or some live slot already names it. */
  ghost predicate Copyable(files: Tables, f: File)
  {
    f.NoFile? || f.Plain? || |Slots(files, f)| > 0
  }

  lemma CopyPipe(files: Tables, pipes: map<nat, Ends>, n: nat, t: nat, i: nat, p: nat, w: bool)
    requires PipesOk(files, pipes, n) && t in files && i < MAX_FILES && files[t][i] == NoFile
    requires |Slots(files, PipeEnd(p, w))| > 0
    ensures p in pipes && pipes[p].Count(w) > 0
    ensures PipesOk(Put(files, t, i, PipeEnd(p, w)), pipes[p := pipes[p].More(w)], n)
  {
    SomeSlot(files, PipeEnd(p, w));
    hide Slots;
    var after, more := Put(files, t, i, PipeEnd(p, w)), pipes[p := pipes[p].More(w)];
    forall q, v | q in more
      ensures more[q].Count(v) == |Slots(after, PipeEnd(q, v))|
    {
      CountPut(files, t, i, PipeEnd(p, w), PipeEnd(q, v));
    }
  }

  lemma SomeSlot(files: Tables, f: File)
    requires |Slots(files, f)| > 0
    ensures exists t, i :: t in files && 0 <= i < MAX_FILES && files[t][i] == f
  {
    var x :| x in Slots(files, f);
  }

  lemma CopySock(files: Tables, socks: seq<Sock>, pending: map<nat, Pending>, t: nat, i: nat, s: nat)
    requires SocksOk(files, socks, pending) && t in files && i < MAX_FILES && files[t][i] == NoFile && t !in pending
    requires |Slots(files, Socket(s))| > 0
    ensures s < |socks| && socks[s].state == Established
      && SocksOk(Put(files, t, i, Socket(s)), socks[s := socks[s].(refs := socks[s].refs + 1)], pending)
  {
    SomeSlot(files, Socket(s));
    hide Slots;
    var after, more := Put(files, t, i, Socket(s)), socks[s := socks[s].(refs := socks[s].refs + 1)];
    forall x | 0 <= x < SOCKS
      ensures SockOk(after, pending, x, more[x])
    {
      CountPut(files, t, i, Socket(s), Socket(x));
    }
  }

  function Blank(): Table { [NoFile, NoFile, NoFile, NoFile, NoFile, NoFile, NoFile, NoFile] }

  /** A new task's table with its first n descriptors filled in. */
  function Child(stdio: seq<File>, n: nat): Table
    requires n <= 3 == |stdio|
  {
    seq(8, i requires 0 <= i < 8 => if i < n then stdio[i] else NoFile)
  }

  lemma AddBlank(files: Tables, pipes: map<nat, Ends>, n: nat, socks: seq<Sock>, pending: map<nat, Pending>, t: nat)
    requires PipesOk(files, pipes, n) && SocksOk(files, socks, pending) && t !in files && t !in pending
    ensures PipesOk(files[t := Blank()], pipes, n) && SocksOk(files[t := Blank()], socks, pending)
    ensures forall f :: f != NoFile ==> Slots(files[t := Blank()], f) == Slots(files, f)
  {
    var after := files[t := Blank()];
    forall f | f != NoFile
      ensures Slots(after, f) == Slots(files, f)
    {
      CountSame(files, after, f);
    }
    hide Slots;
    forall x | 0 <= x < SOCKS
      ensures SockOk(after, pending, x, socks[x])
    {
      assert SockOk(files, pending, x, socks[x]);
    }
  }

  /** Take one more reference to what f names. */
  method FileAddRef(c: Files, f: File)
    requires f.PipeEnd? ==> f.pipe in c.pipes
    requires f.Socket? ==> f.sock < |c.socks|
    modifies c`pipes, c`socks
    ensures c.pipes == if f.PipeEnd? then old(c.pipes)[f.pipe := old(c.pipes)[f.pipe].More(f.writable)]
                       else old(c.pipes)
    ensures c.socks == Share(old(c.socks), f)
  {
    match f
    case PipeEnd(p, w) => c.pipes := c.pipes[p := c.pipes[p].More(w)];
    case Socket(s) =>
      if c.socks[s].state != FreeSock {
        c.socks := c.socks[s := c.socks[s].(refs := c.socks[s].refs + 1)];
      }
    case _ =>
  }

  /** One descriptor of the new task's table is filled and counted. */
  lemma CopyOne(files: Tables, pipes: map<nat, Ends>, n: nat, socks: seq<Sock>, pending: map<nat, Pending>, t: nat,
                i: nat, f: File)
    requires PipesOk(files, pipes, n) && SocksOk(files, socks, pending) && t in files && t !in pending
    requires i < MAX_FILES && files[t][i] == NoFile && Copyable(files, f)
    ensures f.PipeEnd? ==> f.pipe in pipes && pipes[f.pipe].Count(f.writable) > 0
    ensures f.Socket? ==> f.sock < |socks| && socks[f.sock].state == Established
    ensures PipesOk(Put(files, t, i, f),
                    if f.PipeEnd? then pipes[f.pipe := pipes[f.pipe].More(f.writable)] else pipes, n)
    ensures SocksOk(Put(files, t, i, f), Share(socks, f), pending)
    ensures forall g :: g != NoFile ==> |Slots(Put(files, t, i, f), g)| >= |Slots(files, g)|
  {
    hide Slots, PipesOk, SocksOk;
    match f {
      case PipeEnd(p, w) =>
        CopyPipe(files, pipes, n, t, i, p, w);
        OtherSocks(files, socks, pending, t, i, f);
      case Socket(s) =>
        CopySock(files, socks, pending, t, i, s);
        OtherPipes(files, pipes, n, t, i, f);
      case _ =>
        OtherPipes(files, pipes, n, t, i, f);
        OtherSocks(files, socks, pending, t, i, f);
    }
    forall g | g != NoFile
      ensures |Slots(Put(files, t, i, f), g)| >= |Slots(files, g)|
    {
      CountPut(files, t, i, f, g);
    }
  }

  /** A new task starts with three descriptors, each counted. */
  method Spawn(c: Files, t: nat, stdio: seq<File>)
    requires c.Valid() && t !in c.files && t !in c.pending && |stdio| == 3
    requires forall i :: 0 <= i < 3 ==> Copyable(c.files, stdio[i])
    modifies c`files, c`pipes, c`socks
    ensures c.Valid() && c.files == old(c.files)[t := Child(stdio, 3)]
    ensures Later(old(c.pipes), old(c.nextPipe), c.pipes)
    ensures c.socks == ShareAll(old(c.socks), stdio, 3)
  {
    hide PipesOk, SocksOk, Slots, Share;
    AddBlank(c.files, c.pipes, c.nextPipe, c.socks, c.pending, t);
    ghost var virt := c.files[t := Blank()];
    assert Child(stdio, 0) == Blank();
    for i := 0 to 3
      invariant c.files == old(c.files) && virt == c.files[t := Child(stdio, i)]
      invariant PipesOk(virt, c.pipes, c.nextPipe) && SocksOk(virt, c.socks, c.pending)
      invariant forall j :: 0 <= j < 3 ==> Copyable(virt, stdio[j])
      invariant Later(old(c.pipes), old(c.nextPipe), c.pipes)
      invariant c.socks == ShareAll(old(c.socks), stdio, i)
    {
      CopyOne(virt, c.pipes, c.nextPipe, c.socks, c.pending, t, i, stdio[i]);
      ghost var next := Put(virt, t, i, stdio[i]);
      assert Child(stdio, i)[i := stdio[i]] == Child(stdio, i + 1);
      FileAddRef(c, stdio[i]);
      virt := next;
    }
    c.files := c.files[t := Child(stdio, 3)];
  }

  /** Every descriptor named is open; a negative one names the caller's own. */
  predicate OpenFds(tab: Table, fds: seq<int>)
  {
    |fds| == 3 && forall i :: 0 <= i < 3 ==> fds[i] < 0 || (fds[i] < MAX_FILES && tab[fds[i]] != NoFile)
  }

  /** What the child's three descriptors name. */
  function Stdio(tab: Table, fds: seq<int>): (r: seq<File>)
    requires OpenFds(tab, fds)
    ensures |r| == 3
  {
    seq(3, i requires 0 <= i < 3 => if fds[i] < 0 then tab[i] else tab[fds[i]])
  }

  /** exec with a map of descriptors: -1 inherits the caller's own. `loads` says whether
      the program could be loaded. */
  method Exec2(c: Files, t: nat, fds: seq<int>, child: nat, loads: bool) returns (ok: bool)
    requires c.Valid() && t in c.files && child !in c.files && child !in c.pending && |fds| == 3
    modifies c`files, c`pipes, c`socks
    ensures c.Valid() && Later(old(c.pipes), old(c.nextPipe), c.pipes)
    ensures ok == (OpenFds(old(c.files)[t], fds) && loads)
    ensures !ok ==> c.files == old(c.files) && c.pipes == old(c.pipes) && c.socks == old(c.socks)
    ensures ok ==> c.files == old(c.files)[child := Child(Stdio(old(c.files)[t], fds), 3)]
                   && c.socks == ShareAll(old(c.socks), Stdio(old(c.files)[t], fds), 3)
  {
    hide PipesOk, SocksOk, Slots, ShareAll;
    var stdio: seq<File> := [];
    for i := 0 to 3
      invariant |stdio| == i
      invariant forall j :: 0 <= j < i ==> fds[j] < 0 || (fds[j] < MAX_FILES && c.files[t][fds[j]] != NoFile)
      invariant forall j :: 0 <= j < i ==> stdio[j] == c.files[t][if fds[j] < 0 then j else fds[j]]
    {
      var fd := fds[i];
      if fd < 0 {
        stdio := stdio + [c.files[t][i]];
      } else {
        if fd >= MAX_FILES || c.files[t][fd] == NoFile { return false; }
        stdio := stdio + [c.files[t][fd]];
      }
    }
    assert stdio == Stdio(c.files[t], fds);
    if !loads { return false; }
    forall j | 0 <= j < 3
      ensures Copyable(c.files, stdio[j])
    {
      Counted(c.files, t, if fds[j] < 0 then j else fds[j]);
    }
    Spawn(c, child, stdio);
    ok := true;
  }

  // --------------------------------------------------------------- making a pipe

  /** First free descriptor from `from` on, past the three standard ones; MAX_FILES if none. */
  method FindFree(tab: Table, from: nat) returns (fd: nat)
    requires 3 <= from <= MAX_FILES
    ensures from <= fd <= MAX_FILES && (fd < MAX_FILES ==> tab[fd] == NoFile)
    ensures forall i :: from <= i < fd ==> tab[i] != NoFile
  {
    fd := from;
    while fd < MAX_FILES && tab[fd] != NoFile
      invariant from <= fd <= MAX_FILES && forall i :: from <= i < fd ==> tab[i] != NoFile
    {
      fd := fd + 1;
    }
  }

  lemma NewPipe(files: Tables, pipes: map<nat, Ends>, n: nat, t: nat, r: nat, w: nat)
    requires PipesOk(files, pipes, n) && t in files && r < w < MAX_FILES && files[t][r] == files[t][w] == NoFile
    ensures PipesOk(Put(Put(files, t, r, PipeEnd(n, false)), t, w, PipeEnd(n, true)), pipes[n := Ends(1, 1)], n + 1)
  {
    NoSlots(files, pipes, n);
    hide Slots;
    var one := Put(files, t, r, PipeEnd(n, false));
    var two := Put(one, t, w, PipeEnd(n, true));
    var more := pipes[n := Ends(1, 1)];
    forall q, v | q in more
      ensures more[q].Count(v) == |Slots(two, PipeEnd(q, v))|
    {
      CountPut(files, t, r, PipeEnd(n, false), PipeEnd(q, v));
      CountPut(one, t, w, PipeEnd(n, true), PipeEnd(q, v));
    }
  }

  lemma NoSlots(files: Tables, pipes: map<nat, Ends>, n: nat)
    requires PipesOk(files, pipes, n)
    ensures forall v :: |Slots(files, PipeEnd(n, v))| == 0
  {
    forall v
      ensures |Slots(files, PipeEnd(n, v))| == 0
    {
      if |Slots(files, PipeEnd(n, v))| > 0 { SomeSlot(files, PipeEnd(n, v)); }
    }
  }

  /** The two lowest free descriptors past the standard three. */
  predicate LowestTwo(tab: Table, r: nat, w: nat)
  {
    && 3 <= r < w < MAX_FILES && tab[r] == tab[w] == NoFile
    && forall i :: 3 <= i < w && i != r ==> tab[i] != NoFile
  }

  method MakePipe(c: Files, t: nat) returns (ok: bool, r: nat, w: nat)
    requires c.Valid() && t in c.files && t !in c.pending
    modifies c`files, c`pipes, c`nextPipe
    ensures c.Valid() && Later(old(c.pipes), old(c.nextPipe), c.pipes) && c.nextPipe >= old(c.nextPipe)
    ensures ok ==> 3 <= r < w < MAX_FILES && old(c.files)[t][r] == old(c.files)[t][w] == NoFile
                   && c.files == Put(Put(old(c.files), t, r, PipeEnd(old(c.nextPipe), false)),
                                     t, w, PipeEnd(old(c.nextPipe), true))
                   && c.pipes == old(c.pipes)[old(c.nextPipe) := Ends(1, 1)] && old(c.nextPipe) !in old(c.pipes)
                   && c.nextPipe == old(c.nextPipe) + 1
    // They are the two lowest that were free.
    ensures ok ==> LowestTwo(old(c.files)[t], r, w)
    ensures !ok ==> c.files == old(c.files) && c.pipes == old(c.pipes) && c.nextPipe == old(c.nextPipe)
    ensures !ok ==> forall r, w :: !LowestTwo(old(c.files)[t], r, w)
  {
    hide PipesOk, SocksOk, Slots;
    OldPipes(c.files, c.pipes, c.nextPipe);
    ok, w := false, MAX_FILES;
    r := FindFree(c.files[t], 3);
    if r < MAX_FILES { w := FindFree(c.files[t], r + 1); }
    if w == MAX_FILES { return; }
    var p := c.nextPipe;
    NewPipe(c.files, c.pipes, p, t, r, w);
    OtherSocks(c.files, c.socks, c.pending, t, r, PipeEnd(p, false));
    OtherSocks(Put(c.files, t, r, PipeEnd(p, false)), c.socks, c.pending, t, w, PipeEnd(p, true));
    c.pipes := c.pipes[p := Ends(1, 1)];
    c.nextPipe := p + 1;
    c.files := Put(c.files, t, r, PipeEnd(p, false));
    c.files := Put(c.files, t, w, PipeEnd(p, true));
    ok := true;
  }

  lemma OldPipes(files: Tables, pipes: map<nat, Ends>, n: nat)
    requires PipesOk(files, pipes, n)
    ensures forall p :: p in pipes ==> p < n
  {}

  // -------------------------------------------------------------------- connect

  /** A lingering socket is given up once its peer has had long enough. */
  function Reclaimed(k: Sock, aged: bool): Sock
  {
    if k.state == Lingering && aged then k.(state := FreeSock) else k
  }

  /** A lingering slot whose peer never finished is reclaimed by age; the first free slot is taken. */
  method PickSlot(c: Files, aged: seq<bool>) returns (idx: nat)
    requires c.Valid() && |aged| == SOCKS
    modifies c`socks
    ensures c.Valid() && idx <= SOCKS && (idx < SOCKS ==> c.socks[idx].state == FreeSock)
    ensures forall s :: 0 <= s < idx ==> c.socks[s].state != FreeSock
    ensures forall s :: 0 <= s < SOCKS ==> c.socks[s] == Reclaimed(old(c.socks)[s], aged[s])
  {
    hide PipesOk, Slots;
    idx := SOCKS;
    for i := 0 to SOCKS
      invariant c.Valid() && idx <= SOCKS && (idx < SOCKS ==> c.socks[idx].state == FreeSock)
      invariant forall s :: 0 <= s < i && s < idx ==> c.socks[s].state != FreeSock
      invariant idx < SOCKS ==> idx < i
      invariant forall s :: 0 <= s < SOCKS ==>
                  c.socks[s] == if s < i then Reclaimed(old(c.socks)[s], aged[s]) else old(c.socks)[s]
    {
      if c.socks[i].state == Lingering && aged[i] {
        assert SockOk(c.files, c.pending, i, c.socks[i]);
        c.socks := c.socks[i := c.socks[i].(state := FreeSock)];
      }
      if c.socks[i].state == FreeSock && idx == SOCKS { idx := i; }
    }
  }

  /** The lowest free descriptor past the standard three. */
  predicate LowestFd(tab: Table, fd: nat)
  {
    3 <= fd < MAX_FILES && tab[fd] == NoFile && forall i :: 3 <= i < fd ==> tab[i] != NoFile
  }

  predicate LowestSock(socks: seq<Sock>, s: nat)
  {
    s < |socks| && socks[s].state == FreeSock && forall i :: 0 <= i < s ==> socks[i].state != FreeSock
  }

  function Reclaim(socks: seq<Sock>, aged: seq<bool>): seq<Sock>
    requires |aged| == |socks|
  {
    seq(|socks|, i requires 0 <= i < |socks| => Reclaimed(socks[i], aged[i]))
  }

  /** What a call of connect does: it needs a free descriptor, a gateway and, after the
      aged sockets are reclaimed, a free socket; the lowest of each are taken. */
  ghost predicate Connects(a: Desk, t: nat, aged: seq<bool>, gateway: bool, b: Desk)
    requires t in a.files && |aged| == |a.socks|
  {
    var socks := Reclaim(a.socks, aged);
    if !gateway || forall i :: 3 <= i < MAX_FILES ==> a.files[t][i] != NoFile then b == a
    else if forall i :: 0 <= i < |socks| ==> socks[i].state != FreeSock then b == a.(socks := socks)
    else exists fd: nat, s: nat :: LowestFd(a.files[t], fd) && LowestSock(socks, s)
           && b == a.(socks := socks[s := Sock(SynSent, 1, false)], pending := a.pending[t := Pending(s, fd)])
  }

  /** sys_connect up to the first SYN: a descriptor and a socket slot are set aside. */
  method ConnectStart(c: Files, t: nat, aged: seq<bool>, gateway: bool) returns (ok: bool)
    requires c.Valid() && t in c.files && t !in c.pending && |aged| == SOCKS
    modifies c`socks, c`pending
    ensures c.Valid() && |old(c.socks)| == SOCKS && Connects(old(c.View()), t, aged, gateway, c.View())
    ensures ok <==> t in c.pending
  {
    hide PipesOk, SocksOk, Slots;
    SocksLength(c.files, c.socks, c.pending);
    ok := false;
    var fd := FindFree(c.files[t], 3);
    if fd == MAX_FILES || !gateway { return; }
    ghost var socks := c.socks;
    var idx := PickSlot(c, aged);
    SocksLength(c.files, c.socks, c.pending);
    assert c.socks == Reclaim(socks, aged);
    if idx == SOCKS { return; }
    assert LowestFd(c.files[t], fd) && LowestSock(c.socks, idx);
    Setup(c.files, c.socks, c.pending, t, fd, idx);
    c.socks := c.socks[idx := Sock(SynSent, 1, false)];
    c.pending := c.pending[t := Pending(idx, fd)];
    ok := true;
  }

  lemma Setup(files: Tables, socks: seq<Sock>, pending: map<nat, Pending>, t: nat, fd: nat, s: nat)
    requires SocksOk(files, socks, pending) && t in files && t !in pending && 3 <= fd < MAX_FILES
    requires files[t][fd] == NoFile
    requires s < SOCKS && socks[s].state == FreeSock
    ensures |socks| == SOCKS && SocksOk(files, socks[s := Sock(SynSent, 1, false)], pending[t := Pending(s, fd)])
  {
    hide Slots;
    var after, wait := socks[s := Sock(SynSent, 1, false)], pending[t := Pending(s, fd)];
    forall x | 0 <= x < SOCKS
      ensures SockOk(files, wait, x, after[x])
    {
      assert SockOk(files, pending, x, socks[x]);
      if x == s {
        assert Waiting(pending, s) == {};
        assert Waiting(wait, s) == {t};
      } else {
        assert Waiting(wait, x) == Waiting(pending, x);
      }
    }
  }

  lemma WaitDone(pending: map<nat, Pending>, t: nat, x: nat)
    requires t in pending
    ensures Waiting(pending - {t}, x) == Waiting(pending, x) - {t}
    ensures |Waiting(pending - {t}, x)| == |Waiting(pending, x)| - One(pending[t].sock == x)
  {
    assert Waiting(pending - {t}, x) == Waiting(pending, x) - {t};
    assert pending[t].sock != x ==> Waiting(pending, x) - {t} == Waiting(pending, x);
  }

  lemma Install(files: Tables, socks: seq<Sock>, pending: map<nat, Pending>, t: nat)
    requires SocksOk(files, socks, pending) && t in files && t in pending && socks[pending[t].sock].state == Established
    ensures SocksOk(Put(files, t, pending[t].fd, Socket(pending[t].sock)), socks, pending - {t})
  {
    hide Slots, Waiting;
    var after, fd, s := Put(files, t, pending[t].fd, Socket(pending[t].sock)), pending[t].fd, pending[t].sock;
    forall x | 0 <= x < SOCKS
      ensures SockOk(after, pending - {t}, x, socks[x])
    {
      assert SockOk(files, pending, x, socks[x]);
      CountPut(files, t, fd, Socket(s), Socket(x));
      WaitDone(pending, t, x);
    }
  }

  /** The handshake succeeded: the socket becomes a descriptor. */
  method ConnectDone(c: Files, t: nat) returns (fd: nat)
    requires c.Valid() && t in c.files && t in c.pending
    requires c.pending[t].sock < |c.socks| && c.socks[c.pending[t].sock].state == Established
    modifies c`files, c`pending
    ensures c.Valid() && fd == old(c.pending)[t].fd < MAX_FILES
    ensures c.files == Put(old(c.files), t, fd, Socket(old(c.pending)[t].sock)) && c.pending == old(c.pending) - {t}
  {
    hide PipesOk, Slots, SockOk;
    fd := c.pending[t].fd;
    Install(c.files, c.socks, c.pending, t);
    OtherPipes(c.files, c.pipes, c.nextPipe, t, fd, Socket(c.pending[t].sock));
    c.files := Put(c.files, t, fd, Socket(c.pending[t].sock));
    c.pending := c.pending - {t};
  }

  /** The handshake timed out or was refused: the slot is free again. */
  method ConnectFail(c: Files, t: nat)
    requires c.Valid() && t in c.files && t in c.pending
    modifies c`socks, c`pending
    ensures c.Valid() && c.pending == old(c.pending) - {t}
    ensures |old(c.socks)| == SOCKS && old(c.pending)[t].sock < SOCKS
    ensures var s := old(c.pending)[t].sock; c.socks == old(c.socks)[s := old(c.socks)[s].(state := FreeSock)]
  {
    hide PipesOk, Slots, Waiting;
    var s := c.pending[t].sock;
    ghost var socks := c.socks;
    c.socks := c.socks[s := c.socks[s].(state := FreeSock)];
    Refused(c.files, socks, c.pending, t);
    c.pending := c.pending - {t};
  }

  lemma Refused(files: Tables, socks: seq<Sock>, pending: map<nat, Pending>, t: nat)
    requires SocksOk(files, socks, pending) && t in pending && t in files
    ensures SocksOk(files, socks[pending[t].sock := socks[pending[t].sock].(state := FreeSock)], pending - {t})
  {
    hide Slots, Waiting;
    var s := pending[t].sock;
    var after := socks[s := socks[s].(state := FreeSock)];
    forall x | 0 <= x < SOCKS
      ensures SockOk(files, pending - {t}, x, after[x])
    {
      assert SockOk(files, pending, x, socks[x]);
      WaitDone(pending, t, x);
    }
  }

  // ------------------------------------------------------- the network and the end

  /** The handshake completes. */
  method NetEstablish(c: Files, s: nat)
    requires c.Valid() && s < SOCKS
    modifies c`socks
    ensures c.Valid() && c.socks == if old(c.socks)[s].state == SynSent
                                    then old(c.socks)[s := old(c.socks)[s].(state := Established)] else old(c.socks)
  {
    hide PipesOk, Slots, Waiting;
    assert SockOk(c.files, c.pending, s, c.socks[s]);
    if c.socks[s].state == SynSent { c.socks := c.socks[s := c.socks[s].(state := Established)]; }
  }

  /** The socket after a reset, or after the last step of its teardown. */
  function Ended(k: Sock, finished: bool): (r: Sock)
    ensures r.state != k.state ==> k.state == Lingering && r.state == FreeSock
    ensures r.refs == k.refs && (r.reset != k.reset ==> !finished && r.reset)
  {
    Sock(if k.state == Lingering then FreeSock else k.state, k.refs, k.reset || (!finished && k.state != FreeSock))
  }

  /** A reset arrives, or (finished) the last step of a teardown: only a lingering slot becomes free. */
  method NetEnd(c: Files, s: nat, finished: bool)
    requires c.Valid() && s < SOCKS
    modifies c`socks
    ensures c.Valid() && |c.socks| == SOCKS && c.socks == old(c.socks)[s := Ended(old(c.socks)[s], finished)]
  {
    hide PipesOk, Slots, Waiting;
    assert SockOk(c.files, c.pending, s, c.socks[s]);
    var k := c.socks[s];
    if !finished { k := k.(reset := k.reset || k.state != FreeSock); }
    if k.state == Lingering { k := k.(state := FreeSock); }
    c.socks := c.socks[s := k];
  }

  /** A task is gone: its descriptors are closed and its table no longer counts.
      A connect it had under way keeps its slot. */
  method Leave(c: Files, t: nat)
    requires c.Valid() && t in c.files
    modifies c`files, c`pipes, c`socks
    ensures c.Valid() && c.files == old(c.files) - {t} && Later(old(c.pipes), old(c.nextPipe), c.pipes)
    ensures c.socks == ShutAll(old(c.socks), old(c.files)[t], MAX_FILES)
  {
    hide PipesOk, SocksOk, Slots, ShutAll;
    CloseAll(c, t);
    Removed(c.files, c.pipes, c.nextPipe, c.socks, c.pending, t);
    c.files := c.files - {t};
  }

  lemma Removed(files: Tables, pipes: map<nat, Ends>, n: nat, socks: seq<Sock>, pending: map<nat, Pending>, t: nat)
    requires PipesOk(files, pipes, n) && SocksOk(files, socks, pending) && t in files
    requires forall i :: 0 <= i < MAX_FILES ==> files[t][i] == NoFile
    ensures PipesOk(files - {t}, pipes, n) && SocksOk(files - {t}, socks, pending)
  {
    var after := files - {t};
    forall f | f != NoFile
      ensures Slots(after, f) == Slots(files, f)
    {
      CountSame(files, after, f);
    }
    forall x | 0 <= x < SOCKS
      ensures SockOk(after, pending, x, socks[x])
    {
      assert SockOk(files, pending, x, socks[x]);
    }
  }
}
