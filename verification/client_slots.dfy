/** Ownership of client sockets in src/sip_media/rtsp_stream.c: the listener, the worker of each
    client, the broadcasters and the video toggle share a small table of slots, and the kernel hands
    out the number of a closed socket again.

    Every step below is what one thread does between two points at which another may run: a
    critical section under clients_mutex, or one system call.  Steps of all threads interleave
    freely.  Connections carry a number of their own, which the C code does not have, so that a
    call on a recycled descriptor can be told from one on the right socket.  That number, the
    `owner` of a slot, the `holder` of a socket and `conns` are history: no step depends on them. */
module ClientSlots {
  import opened Wrappers

  /** Who is going to give a slot back: the listener, or a worker. */
  datatype Owner = Nobody | ByListener | ByWorker(worker: nat)

  /** One entry of `clients`. */
  datatype Slot = Slot(fd: int, active: bool, threadRunning: bool, conn: nat, owner: Owner)

  const FREE := Slot(-1, false, false, 0, Nobody)

  datatype Holder = InListener | InSlot(slot: nat)

  /** An open socket of the kernel. */
  datatype Socket = Socket(conn: nat, holder: Holder)

  /** A connection is open on a descriptor, or was closed by the call at a position of the log. */
  datatype Conn = Open(fd: nat) | Done(at: nat)

  /** A worker thread: its slot, the connection it was made for, and the descriptor it has read from
      the slot for its recv() calls. */
  datatype Worker = Worker(slot: nat, conn: nat, local: Option<nat>)

  datatype Listener = Accepting | Accepted(fd: nat, conn: nat) | Allocated(slot: nat, conn: nat)

  /** A system call on a descriptor: the connection the caller means, and the one it reaches. */
  datatype Call = Used(meant: nat, reached: Option<nat>) | Closed(meant: nat, reached: Option<nat>)

  datatype State = State(slots: seq<Slot>, workers: map<nat, Worker>, spawned: nat, listener: Listener,
                         sockets: map<nat, Socket>, conns: seq<Conn>, log: seq<Call>)

  datatype Event =
    | Accept(fd: nat)
    | Allocate
    | Spawn(ok: bool)
    | Fetch(worker: nat)
    | Receive(worker: nat)
    | Send(worker: nat)
    | Exit(worker: nat)
    | Broadcast(slot: nat, ok: bool)
    | Shutdown(slot: nat)

  // ------------------------------------------------------------------- the steps

  function Start(n: nat): State {
    State(seq(n, _ => FREE), map[], 0, Accepting, map[], [], [])
  }

  /** The connection a descriptor leads to. */
  function At(s: State, fd: int): Option<nat> {
    if fd >= 0 && fd as nat in s.sockets then Some(s.sockets[fd].conn) else None
  }

  function Use(s: State, fd: int, meant: nat): State {
    s.(log := s.log + [Used(meant, At(s, fd))])
  }

  function CloseFd(s: State, fd: nat, meant: nat): State {
    s.(log := s.log + [Closed(meant, At(s, fd))], sockets := s.sockets - {fd},
       conns := if meant < |s.conns| then s.conns[meant := Done(|s.log|)] else s.conns)
  }

  /** The first slot allocate_client takes, or the number of slots. */
  function FirstFree(slots: seq<Slot>): (i: nat)
    ensures i <= |slots|
    ensures i < |slots| ==> !slots[i].active && !slots[i].threadRunning
    ensures forall k | 0 <= k < i :: slots[k].active || slots[k].threadRunning
  {
    if slots == [] then 0
    else if !slots[0].active && !slots[0].threadRunning then 0
    else 1 + FirstFree(slots[1..])
  }

  /** close_client_locked: wake the worker with shutdown(), but leave the descriptor to it. */
  function CloseClient(s: State, i: nat): State
    requires i < |s.slots|
  {
    var t := if s.slots[i].fd >= 0 then Use(s, s.slots[i].fd, s.slots[i].conn) else s;
    t.(slots := s.slots[i := s.slots[i].(active := false)])
  }

  /** close() unless there is no descriptor, and the slot given back. */
  function Vacate(s: State, i: nat, meant: nat): State
    requires i < |s.slots|
  {
    var t := if s.slots[i].fd >= 0 then CloseFd(s, s.slots[i].fd, meant) else s;
    t.(slots := s.slots[i := s.slots[i].(fd := -1, threadRunning := false, owner := Nobody)])
  }

  predicate Enabled(s: State, e: Event) {
    match e
    case Accept(fd) => s.listener == Accepting && fd !in s.sockets
    case Allocate => s.listener.Accepted?
    case Spawn(_) => s.listener.Allocated? && s.listener.slot < |s.slots|
    case Fetch(w) => w in s.workers && s.workers[w].slot < |s.slots| && s.slots[s.workers[w].slot].fd >= 0
    case Receive(w) => w in s.workers && s.workers[w].local.Some?
    case Send(w) => w in s.workers && s.workers[w].slot < |s.slots| && s.slots[s.workers[w].slot].fd >= 0
    case Exit(w) => w in s.workers && s.workers[w].slot < |s.slots|
    case Broadcast(i, _) => i < |s.slots| && s.slots[i].active
    case Shutdown(i) => i < |s.slots|
  }

  function TakeSlot(s: State, i: nat): State
    requires s.listener.Accepted? && i < |s.slots|
  {
    var fd, conn := s.listener.fd, s.listener.conn;
    s.(slots := s.slots[i := Slot(fd, true, true, conn, ByListener)], listener := Allocated(i, conn),
       sockets := s.sockets[fd := Socket(conn, InSlot(i))])
  }

  function StartWorker(s: State): State
    requires s.listener.Allocated? && s.listener.slot < |s.slots|
  {
    var i, w := s.listener.slot, s.spawned;
    s.(workers := s.workers[w := Worker(i, s.listener.conn, None)], spawned := w + 1, listener := Accepting,
       slots := s.slots[i := s.slots[i].(owner := ByWorker(w))])
  }

  function Step(s: State, e: Event): State
    requires Enabled(s, e)
  {
    match e
    case Accept(fd) =>
      s.(listener := Accepted(fd, |s.conns|), sockets := s.sockets[fd := Socket(|s.conns|, InListener)],
         conns := s.conns + [Open(fd)])
    case Allocate =>
      var i := FirstFree(s.slots);
      if i < |s.slots| then TakeSlot(s, i) else CloseFd(s, s.listener.fd, s.listener.conn).(listener := Accepting)
    case Spawn(ok) =>
      if ok then StartWorker(s)
      else Vacate(CloseClient(s, s.listener.slot), s.listener.slot, s.listener.conn).(listener := Accepting)
    case Fetch(w) => s.(workers := s.workers[w := s.workers[w].(local := Some(s.slots[s.workers[w].slot].fd as nat))])
    case Receive(w) => Use(s, s.workers[w].local.value, s.workers[w].conn)
    case Send(w) => Use(s, s.slots[s.workers[w].slot].fd, s.workers[w].conn)
    case Exit(w) =>
      Vacate(CloseClient(s, s.workers[w].slot), s.workers[w].slot, s.workers[w].conn).(workers := s.workers - {w})
    case Broadcast(i, ok) =>
      var t := Use(s, s.slots[i].fd, s.slots[i].conn);
      if ok then t else CloseClient(t, i)
    case Shutdown(i) => CloseClient(s, i)
  }

  ghost predicate Possible(s: State, es: seq<Event>)
    decreases |es|
  {
    es == [] || (Enabled(s, es[0]) && Possible(Step(s, es[0]), es[1..]))
  }

  ghost function Run(s: State, es: seq<Event>): State
    requires Possible(s, es)
    decreases |es|
  {
    if es == [] then s else Run(Step(s, es[0]), es[1..])
  }

  // --------------------------------------------------------------- the invariant

  /** A slot in use holds the open socket of its connection and has an owner. */
  predicate SlotOk(s: State, i: nat)
    requires i < |s.slots|
  {
    var slot := s.slots[i];
    && (slot.threadRunning <==> slot.fd >= 0)
    && (slot.active ==> slot.threadRunning)
    && (slot.threadRunning ==>
          && slot.fd in s.sockets && s.sockets[slot.fd] == Socket(slot.conn, InSlot(i))
          && match slot.owner
             case Nobody => false
             case ByListener => s.listener == Allocated(i, slot.conn)
             case ByWorker(w) => w in s.workers && s.workers[w].slot == i)
  }

  /** A worker owns its slot, which is in use for its connection. */
  predicate WorkerOk(s: State, w: nat)
    requires w in s.workers
  {
    var k := s.workers[w];
    && w < s.spawned && k.slot < |s.slots|
    && s.slots[k.slot].threadRunning && s.slots[k.slot].owner == ByWorker(w) && s.slots[k.slot].conn == k.conn
    && (k.local.Some? ==> k.local.value == s.slots[k.slot].fd)
  }

  predicate ListenerOk(s: State) {
    match s.listener
    case Accepting => true
    case Accepted(fd, conn) => fd in s.sockets && s.sockets[fd] == Socket(conn, InListener)
    case Allocated(i, conn) =>
      i < |s.slots| && s.slots[i].threadRunning && s.slots[i].owner == ByListener && s.slots[i].conn == conn
  }

  /** An open socket is where its history says it is. */
  predicate SocketOk(s: State, f: nat)
    requires f in s.sockets
  {
    var k := s.sockets[f];
    && k.conn < |s.conns| && s.conns[k.conn] == Open(f)
    && match k.holder
       case InListener => s.listener == Accepted(f, k.conn)
       case InSlot(i) => i < |s.slots| && s.slots[i].fd == f
  }

  /** A connection is open, or was closed by the call its history names. */
  predicate ConnOk(s: State, c: nat)
    requires c < |s.conns|
  {
    match s.conns[c]
    case Open(f) => f in s.sockets && s.sockets[f].conn == c
    case Done(at) => at < |s.log| && s.log[at] == Closed(c, Some(c))
  }

  /** A call reached the connection it meant, and a close is the one its connection names. */
  predicate CallOk(s: State, k: nat)
    requires k < |s.log|
  {
    var call := s.log[k];
    && call.reached == Some(call.meant)
    && (call.Closed? ==> call.meant < |s.conns| && s.conns[call.meant] == Done(k))
  }

  ghost predicate Inv(s: State) {
    && (forall i | 0 <= i < |s.slots| :: SlotOk(s, i))
    && (forall w | w in s.workers :: WorkerOk(s, w))
    && ListenerOk(s)
    && (forall f | f in s.sockets :: SocketOk(s, f))
    && (forall c | 0 <= c < |s.conns| :: ConnOk(s, c))
    && (forall k | 0 <= k < |s.log| :: CallOk(s, k))
  }

  // ------------------------------------------------------------------ the proofs

  lemma UseKeepsInv(s: State, fd: int, meant: nat)
    requires Inv(s) && At(s, fd) == Some(meant)
    ensures Inv(Use(s, fd, meant))
  {
    var t := Use(s, fd, meant);
    forall i | 0 <= i < |t.slots| ensures SlotOk(t, i) { assert SlotOk(s, i); }
    forall w | w in t.workers ensures WorkerOk(t, w) { assert WorkerOk(s, w); }
    forall f | f in t.sockets ensures SocketOk(t, f) { assert SocketOk(s, f); }
    forall c | 0 <= c < |t.conns| ensures ConnOk(t, c) { assert ConnOk(s, c); }
    forall k | 0 <= k < |t.log| ensures CallOk(t, k) { assert k < |s.log| ==> CallOk(s, k); }
  }

  lemma DeactivateKeepsInv(s: State, i: nat)
    requires Inv(s) && i < |s.slots|
    ensures Inv(s.(slots := s.slots[i := s.slots[i].(active := false)]))
  {
    var t := s.(slots := s.slots[i := s.slots[i].(active := false)]);
    forall k | 0 <= k < |t.slots| ensures SlotOk(t, k) { assert SlotOk(s, k); }
    forall w | w in t.workers ensures WorkerOk(t, w) { assert WorkerOk(s, w); }
    forall f | f in t.sockets ensures SocketOk(t, f) { assert SocketOk(s, f); }
    forall c | 0 <= c < |t.conns| ensures ConnOk(t, c) { assert ConnOk(s, c); }
    forall k | 0 <= k < |t.log| ensures CallOk(t, k) { assert CallOk(s, k); }
  }

  lemma CloseClientKeepsInv(s: State, i: nat)
    requires Inv(s) && i < |s.slots|
    ensures Inv(CloseClient(s, i))
    ensures SlotOk(CloseClient(s, i), i)
  {
    assert SlotOk(s, i);
    if s.slots[i].fd >= 0 {
      UseKeepsInv(s, s.slots[i].fd, s.slots[i].conn);
      DeactivateKeepsInv(Use(s, s.slots[i].fd, s.slots[i].conn), i);
    } else {
      DeactivateKeepsInv(s, i);
    }
  }

  lemma WorkerLeavesKeepsInv(s: State, w: nat)
    requires Inv(s) && w in s.workers && s.workers[w].slot < |s.slots| && !s.slots[s.workers[w].slot].active
    ensures Inv(Vacate(s, s.workers[w].slot, s.workers[w].conn).(workers := s.workers - {w}))
  {
    var i := s.workers[w].slot;
    var t := Vacate(s, i, s.workers[w].conn).(workers := s.workers - {w});
    assert WorkerOk(s, w) && SlotOk(s, i) && SocketOk(s, s.slots[i].fd);
    forall k | 0 <= k < |t.slots| ensures SlotOk(t, k) { assert SlotOk(s, k); }
    forall v | v in t.workers ensures WorkerOk(t, v) { assert WorkerOk(s, v); }
    forall f | f in t.sockets ensures SocketOk(t, f) { assert SocketOk(s, f); }
    forall c | 0 <= c < |t.conns| ensures ConnOk(t, c) { assert ConnOk(s, c); }
    forall k | 0 <= k < |t.log| ensures CallOk(t, k) { assert k < |s.log| ==> CallOk(s, k); }
  }

  lemma ListenerLeavesKeepsInv(s: State)
    requires Inv(s) && s.listener.Allocated? && s.listener.slot < |s.slots| && !s.slots[s.listener.slot].active
    ensures Inv(Vacate(s, s.listener.slot, s.listener.conn).(listener := Accepting))
  {
    var i := s.listener.slot;
    var t := Vacate(s, i, s.listener.conn).(listener := Accepting);
    assert SlotOk(s, i) && SocketOk(s, s.slots[i].fd);
    forall k | 0 <= k < |t.slots| ensures SlotOk(t, k) { assert SlotOk(s, k); }
    forall v | v in t.workers ensures WorkerOk(t, v) { assert WorkerOk(s, v); }
    forall f | f in t.sockets ensures SocketOk(t, f) { assert SocketOk(s, f); }
    forall c | 0 <= c < |t.conns| ensures ConnOk(t, c) { assert ConnOk(s, c); }
    forall k | 0 <= k < |t.log| ensures CallOk(t, k) { assert k < |s.log| ==> CallOk(s, k); }
  }

  lemma StartWorkerKeepsInv(s: State)
    requires Inv(s) && s.listener.Allocated? && s.listener.slot < |s.slots|
    ensures Inv(StartWorker(s))
  {
    var t := StartWorker(s);
    assert forall w | w in s.workers :: WorkerOk(s, w);
    forall k | 0 <= k < |t.slots| ensures SlotOk(t, k) { assert SlotOk(s, k); }
    forall w | w in t.workers ensures WorkerOk(t, w) { assert w in s.workers ==> WorkerOk(s, w); }
    forall f | f in t.sockets ensures SocketOk(t, f) { assert SocketOk(s, f); }
    forall c | 0 <= c < |t.conns| ensures ConnOk(t, c) { assert ConnOk(s, c); }
    forall k | 0 <= k < |t.log| ensures CallOk(t, k) { assert CallOk(s, k); }
  }

  lemma AcceptKeepsInv(s: State, fd: nat)
    requires Inv(s) && s.listener == Accepting && fd !in s.sockets
    ensures Inv(Step(s, Accept(fd)))
  {
    var t := Step(s, Accept(fd));
    forall k | 0 <= k < |t.slots| ensures SlotOk(t, k) { assert SlotOk(s, k); }
    forall w | w in t.workers ensures WorkerOk(t, w) { assert WorkerOk(s, w); }
    forall f | f in t.sockets ensures SocketOk(t, f) { assert f in s.sockets ==> SocketOk(s, f); }
    forall c | 0 <= c < |t.conns| ensures ConnOk(t, c) { assert c < |s.conns| ==> ConnOk(s, c); }
    forall k | 0 <= k < |t.log| ensures CallOk(t, k) { assert CallOk(s, k); }
  }

  lemma RefuseKeepsInv(s: State)
    requires Inv(s) && s.listener.Accepted?
    ensures Inv(CloseFd(s, s.listener.fd, s.listener.conn).(listener := Accepting))
  {
    var t := CloseFd(s, s.listener.fd, s.listener.conn).(listener := Accepting);
    assert SocketOk(s, s.listener.fd);
    forall k | 0 <= k < |t.slots| ensures SlotOk(t, k) { assert SlotOk(s, k); }
    forall w | w in t.workers ensures WorkerOk(t, w) { assert WorkerOk(s, w); }
    forall f | f in t.sockets ensures SocketOk(t, f) { assert SocketOk(s, f); }
    forall c | 0 <= c < |t.conns| ensures ConnOk(t, c) { assert ConnOk(s, c); }
    forall k | 0 <= k < |t.log| ensures CallOk(t, k) { assert k < |s.log| ==> CallOk(s, k); }
  }

  lemma TakeKeepsInv(s: State, i: nat)
    requires Inv(s) && s.listener.Accepted? && i < |s.slots| && !s.slots[i].threadRunning
    ensures Inv(TakeSlot(s, i))
  {
    var t := TakeSlot(s, i);
    assert SlotOk(s, i) && SocketOk(s, s.listener.fd);
    forall k | 0 <= k < |t.slots| ensures SlotOk(t, k) { assert SlotOk(s, k); }
    forall w | w in t.workers ensures WorkerOk(t, w) { assert WorkerOk(s, w); }
    forall f | f in t.sockets ensures SocketOk(t, f) { assert SocketOk(s, f); }
    forall c | 0 <= c < |t.conns| ensures ConnOk(t, c) { assert ConnOk(s, c); }
    forall k | 0 <= k < |t.log| ensures CallOk(t, k) { assert CallOk(s, k); }
  }

  lemma FetchKeepsInv(s: State, w: nat)
    requires Inv(s) && Enabled(s, Fetch(w))
    ensures Inv(Step(s, Fetch(w)))
  {
    var t := Step(s, Fetch(w));
    forall k | 0 <= k < |t.slots| ensures SlotOk(t, k) { assert SlotOk(s, k); }
    forall v | v in t.workers ensures WorkerOk(t, v) { assert WorkerOk(s, v); }
    forall f | f in t.sockets ensures SocketOk(t, f) { assert SocketOk(s, f); }
    forall c | 0 <= c < |t.conns| ensures ConnOk(t, c) { assert ConnOk(s, c); }
    forall k | 0 <= k < |t.log| ensures CallOk(t, k) { assert CallOk(s, k); }
  }

  lemma StepKeepsInv(s: State, e: Event)
    requires Inv(s) && Enabled(s, e)
    ensures Inv(Step(s, e))
  {
    match e
    case Accept(fd) => AcceptKeepsInv(s, fd);
    case Allocate =>
      if FirstFree(s.slots) < |s.slots| { TakeKeepsInv(s, FirstFree(s.slots)); } else { RefuseKeepsInv(s); }
    case Spawn(ok) =>
      if ok {
        StartWorkerKeepsInv(s);
      } else {
        CloseClientKeepsInv(s, s.listener.slot);
        ListenerLeavesKeepsInv(CloseClient(s, s.listener.slot));
      }
    case Fetch(w) => FetchKeepsInv(s, w);
    case Receive(w) =>
      assert WorkerOk(s, w) && SlotOk(s, s.workers[w].slot);
      UseKeepsInv(s, s.workers[w].local.value, s.workers[w].conn);
    case Send(w) =>
      assert WorkerOk(s, w) && SlotOk(s, s.workers[w].slot);
      UseKeepsInv(s, s.slots[s.workers[w].slot].fd, s.workers[w].conn);
    case Exit(w) =>
      CloseClientKeepsInv(s, s.workers[w].slot);
      WorkerLeavesKeepsInv(CloseClient(s, s.workers[w].slot), w);
    case Broadcast(i, ok) =>
      assert SlotOk(s, i);
      UseKeepsInv(s, s.slots[i].fd, s.slots[i].conn);
      if !ok { CloseClientKeepsInv(Use(s, s.slots[i].fd, s.slots[i].conn), i); }
    case Shutdown(i) => CloseClientKeepsInv(s, i);
  }

  lemma {:induction false} RunKeepsInv(s: State, es: seq<Event>)
    requires Inv(s) && Possible(s, es)
    ensures Inv(Run(s, es))
    decreases |es|
  {
    if es != [] {
      StepKeepsInv(s, es[0]);
      RunKeepsInv(Step(s, es[0]), es[1..]);
    }
  }

  // -------------------------------------------------------------- what it amounts to

  /** In every interleaving, each send, recv, shutdown and close reaches the connection its caller
      means, even though the kernel hands out descriptor numbers again. */
  lemma NoCallOnARecycledDescriptor(n: nat, es: seq<Event>, k: nat)
    requires Possible(Start(n), es) && k < |Run(Start(n), es).log|
    ensures var c := Run(Start(n), es).log[k]; c.reached == Some(c.meant)
  {
    RunKeepsInv(Start(n), es);
    assert CallOk(Run(Start(n), es), k);
  }

  /** In every interleaving, no connection is closed twice. */
  lemma NoConnectionIsClosedTwice(n: nat, es: seq<Event>, j: nat, k: nat)
    requires Possible(Start(n), es) && j < k < |Run(Start(n), es).log|
    ensures var log := Run(Start(n), es).log; log[j].Closed? && log[k].Closed? ==> log[j].meant != log[k].meant
  {
    RunKeepsInv(Start(n), es);
    assert CallOk(Run(Start(n), es), j) && CallOk(Run(Start(n), es), k);
  }

  lemma SocketsHaveWorkers(s: State)
    requires Inv(s) && s.listener == Accepting
    ensures s.sockets == map[] || s.workers != map[]
  {
    if s.sockets != map[] {
      var f :| f in s.sockets;
      assert SocketOk(s, f) && SlotOk(s, s.sockets[f].holder.slot);
      assert s.slots[s.sockets[f].holder.slot].owner.worker in s.workers;
    }
  }

  /** In every interleaving, once the listener and all workers are done, every connection that was
      accepted has been closed. */
  lemma NothingLeaks(n: nat, es: seq<Event>, c: nat)
    requires Possible(Start(n), es)
    requires var s := Run(Start(n), es); s.listener == Accepting && s.workers == map[] && c < |s.conns|
    ensures Closed(c, Some(c)) in Run(Start(n), es).log
  {
    RunKeepsInv(Start(n), es);
    SocketsHaveWorkers(Run(Start(n), es));
    assert ConnOk(Run(Start(n), es), c);
  }

  /** In every interleaving, no slot has two workers, and the one allocate_client takes has none. */
  lemma OneWorkerPerSlot(n: nat, es: seq<Event>, v: nat, w: nat)
    requires Possible(Start(n), es)
    requires v in Run(Start(n), es).workers && w in Run(Start(n), es).workers
    ensures var s := Run(Start(n), es);
            && (s.workers[v].slot == s.workers[w].slot ==> v == w)
            && s.workers[v].slot != FirstFree(s.slots)
  {
    RunKeepsInv(Start(n), es);
    assert WorkerOk(Run(Start(n), es), v) && WorkerOk(Run(Start(n), es), w);
  }

  /** What becomes of an accepted connection: without room it is closed at once; otherwise it gets
      the first free slot and a worker of its own, or, when no thread can be made, it is closed and
      the slot is free again. */
  lemma ServedOrRefused(s: State, fd: nat)
    requires Inv(s) && s.listener == Accepting && fd !in s.sockets
    ensures var conn, i, a := |s.conns|, FirstFree(s.slots), Step(s, Accept(fd));
            var b := Step(a, Allocate);
            if i == |s.slots| then
              b.listener == Accepting && b.slots == s.slots && b.log == s.log + [Closed(conn, Some(conn))]
            else
              && b.log == s.log && Enabled(b, Spawn(true)) && Enabled(b, Spawn(false))
              && (var c := Step(b, Spawn(true));
                  && c.slots == s.slots[i := Slot(fd, true, true, conn, ByWorker(s.spawned))]
                  && c.workers == s.workers[s.spawned := Worker(i, conn, None)]
                  && c.listener == Accepting && c.log == s.log)
              && (var d := Step(b, Spawn(false));
                  && d.slots[i].fd == -1 && !d.slots[i].active && !d.slots[i].threadRunning
                  && d.listener == Accepting && d.workers == s.workers
                  && d.log == s.log + [Used(conn, Some(conn)), Closed(conn, Some(conn))])
  {
  }

  /** A client that is shut down, or that a broadcast could not reach, gets no more broadcasts; its
      worker keeps the socket, and the descriptor is closed only when it leaves. */
  lemma ShutDownClientsAreSkipped(s: State, i: nat, ok: bool)
    requires Inv(s) && i < |s.slots|
    ensures var t := Step(s, Shutdown(i));
            !Enabled(t, Broadcast(i, ok)) && t.sockets == s.sockets && t.workers == s.workers && t.slots[i].fd == s.slots[i].fd
    ensures s.slots[i].active ==>
              var t := Step(s, Broadcast(i, false));
              !Enabled(t, Broadcast(i, ok)) && t.sockets == s.sockets && t.workers == s.workers && t.slots[i].fd == s.slots[i].fd
  {
  }

  /** A worker that leaves closes its connection and gives its slot back. */
  lemma LeavingGivesBack(s: State, w: nat)
    requires Inv(s) && w in s.workers
    ensures Enabled(s, Exit(w))
    ensures var t, k := Step(s, Exit(w)), s.workers[w];
            && w !in t.workers && !t.slots[k.slot].active && !t.slots[k.slot].threadRunning && t.slots[k.slot].fd == -1
            && FirstFree(t.slots) <= k.slot
            && t.log == s.log + [Used(k.conn, Some(k.conn)), Closed(k.conn, Some(k.conn))]
            && s.slots[k.slot].fd !in t.sockets
  {
    var i := s.workers[w].slot;
    assert WorkerOk(s, w) && SlotOk(s, i);
    var t := Step(s, Exit(w));
    assert !t.slots[i].active && !t.slots[i].threadRunning;
  }

  /** rtsp_stream_start wipes the slot table. */
  function Restart(s: State): State {
    s.(slots := seq(|s.slots|, _ => FREE))
  }

  lemma RestartKeepsInv(s: State)
    requires Inv(s) && s.listener == Accepting && s.workers == map[]
    ensures Inv(Restart(s))
  {
    var t := Restart(s);
    SocketsHaveWorkers(s);
    forall c | 0 <= c < |t.conns| ensures ConnOk(t, c) { assert ConnOk(s, c); }
    forall k | 0 <= k < |t.log| ensures CallOk(t, k) { assert CallOk(s, k); }
  }

  /** All calls reached the connection they meant, and no connection is left open once the listener
      and all workers are done. */
  ghost predicate Clean(s: State) {
    && (forall k | 0 <= k < |s.log| :: s.log[k].reached == Some(s.log[k].meant))
    && (s.listener == Accepting && s.workers == map[] ==>
          s.sockets == map[] && forall c | 0 <= c < |s.conns| :: Closed(c, Some(c)) in s.log)
  }

  lemma InvIsClean(s: State)
    requires Inv(s)
    ensures Clean(s)
  {
    forall k | 0 <= k < |s.log| ensures s.log[k].reached == Some(s.log[k].meant) { assert CallOk(s, k); }
    if s.listener == Accepting && s.workers == map[] {
      SocketsHaveWorkers(s);
      forall c | 0 <= c < |s.conns| ensures Closed(c, Some(c)) in s.log {
        assert ConnOk(s, c) && s.conns[c].Done?;
        assert s.log[s.conns[c].at] == Closed(c, Some(c));
      }
    }
  }

  // What goes wrong with a worker left: new clients fill the slots up to its own.

  lemma {:induction false} Above(keys: set<nat>) returns (n: nat)
    ensures forall k | k in keys :: k < n
    decreases |keys|
  {
    if keys == {} {
      n := 0;
    } else {
      var k :| k in keys;
      n := Above(keys - {k});
      assert forall j | j in keys :: j == k || j in keys - {k};
      n := if n > k then n else k + 1;
    }
  }

  lemma {:induction false} FirstFreeIs(slots: seq<Slot>, i: nat)
    requires i <= |slots| && (forall k | 0 <= k < i :: slots[k].threadRunning)
    requires i < |slots| ==> slots[i] == FREE
    ensures FirstFree(slots) == i
    decreases i
  {
    if i > 0 {
      assert forall k | 0 <= k < i - 1 :: slots[1..][k] == slots[k + 1];
      FirstFreeIs(slots[1..], i - 1);
    }
  }

  /** Slots up to i are taken by connections from `since` on, and those behind are free. */
  predicate Filled(s: State, i: nat, since: nat) {
    && i <= |s.slots| && s.listener == Accepting
    && (forall k | 0 <= k < i :: NewClient(s, s.slots[k], since))
    && (forall k | i <= k < |s.slots| :: s.slots[k] == FREE)
    && since <= |s.conns|
  }

  predicate NewClient(s: State, slot: Slot, since: nat) {
    && slot.threadRunning && slot.fd >= 0
    && slot.fd in s.sockets && s.sockets[slot.fd].conn >= since
  }

  /** One more client is accepted and gets its worker. */
  lemma OneMoreClient(s: State, i: nat, since: nat, w: nat) returns (es: seq<Event>)
    requires Filled(s, i, since) && i < |s.slots| && w in s.workers && w < s.spawned
    ensures Possible(s, es)
    ensures var t := Run(s, es);
            && Filled(t, i + 1, since) && |t.slots| == |s.slots| && s.spawned < t.spawned
            && w in t.workers && t.workers[w] == s.workers[w] && |t.log| == |s.log|
  {
    var fd := Above(s.sockets.Keys);
    assert fd !in s.sockets;
    var a := Step(s, Accept(fd));
    FirstFreeIs(a.slots, i);
    var b := Step(a, Allocate);
    assert b == TakeSlot(a, i);
    var c := Step(b, Spawn(true));
    assert forall k | 0 <= k < i :: NewClient(s, s.slots[k], since) && c.slots[k] == s.slots[k];
    assert c.slots[i].fd == fd && c.sockets[fd].conn == |s.conns|;
    es := [Accept(fd), Allocate, Spawn(true)];
    assert es[1..] == [Allocate, Spawn(true)] && es[1..][1..] == [Spawn(true)] && es[1..][1..][1..] == [];
    assert Possible(c, []) && Run(c, []) == c;
    assert Possible(b, [Spawn(true)]) && Run(b, [Spawn(true)]) == c;
    assert Possible(a, es[1..]) && Run(a, es[1..]) == c;
  }

  lemma {:induction false} RunAppend(s: State, es: seq<Event>, more: seq<Event>)
    requires Possible(s, es) && Possible(Run(s, es), more)
    ensures Possible(s, es + more) && Run(s, es + more) == Run(Run(s, es), more)
    decreases |es|
  {
    if es == [] {
      assert es + more == more;
    } else {
      assert (es + more)[1..] == es[1..] + more;
      RunAppend(Step(s, es[0]), es[1..], more);
    }
  }

  lemma {:induction false} FillTo(s: State, i: nat, n: nat, since: nat, w: nat) returns (es: seq<Event>)
    requires Filled(s, i, since) && i <= n <= |s.slots| && w in s.workers && w < s.spawned
    ensures Possible(s, es)
    ensures var t := Run(s, es);
            && Filled(t, n, since) && |t.slots| == |s.slots|
            && w in t.workers && t.workers[w] == s.workers[w] && |t.log| == |s.log|
    decreases n - i
  {
    if i == n {
      es := [];
    } else {
      var first := OneMoreClient(s, i, since, w);
      var rest := FillTo(Run(s, first), i + 1, n, since, w);
      RunAppend(s, first, rest);
      es := first + rest;
    }
  }

  /** A worker that outlived the stop, on whatever slot, can be made to answer a client it was never
      given. */
  lemma LeftWorkerMisdirects(s: State, w: nat) returns (es: seq<Event>)
    requires Inv(s) && s.listener == Accepting && w in s.workers
    ensures Possible(Restart(s), es) && !Clean(Run(Restart(s), es))
  {
    var t, i := Restart(s), s.workers[w].slot;
    assert WorkerOk(s, w) && SlotOk(s, i) && SocketOk(s, s.slots[i].fd);
    var fill := FillTo(t, 0, i + 1, |s.conns|, w);
    var u := Run(t, fill);
    assert NewClient(u, u.slots[i], |s.conns|);
    var v := Step(u, Send(w));
    assert Possible(v, []) && Run(v, []) == v && [Send(w)][1..] == [];
    assert Possible(u, [Send(w)]) && Run(u, [Send(w)]) == v;
    RunAppend(t, fill, [Send(w)]);
    es := fill + [Send(w)];
    assert v.log[|u.log|] == Used(s.workers[w].conn, At(u, u.slots[i].fd));
    assert v.log[|u.log|].reached != Some(v.log[|u.log|].meant);
  }

  /** rtsp_stream_stop joins the listener but waits only so long for the workers.  After starting
      again every run reaches the right connections and leaks none if and only if no worker was
      left by then. */
  lemma RestartNeedsAllWorkersGone(s: State)
    requires Inv(s) && s.listener == Accepting
    ensures (forall es :: Possible(Restart(s), es) ==> Clean(Run(Restart(s), es))) <==> s.workers == map[]
    ensures Inv(Restart(s)) <==> s.workers == map[]
  {
    if s.workers == map[] {
      RestartKeepsInv(s);
      forall es | Possible(Restart(s), es) ensures Clean(Run(Restart(s), es)) {
        RunKeepsInv(Restart(s), es);
        InvIsClean(Run(Restart(s), es));
      }
    } else {
      var w :| w in s.workers;
      var es := LeftWorkerMisdirects(s, w);
      assert WorkerOk(s, w) && !WorkerOk(Restart(s), w);
    }
  }

  // ------------------------------------------------------------------- the C code

  /** allocate_client: the slot with the client in it, or -1 when there is no room. */
  method AllocateClient(clients: array<Slot>, fd: nat, conn: nat) returns (idx: int)
    modifies clients
    ensures var i := FirstFree(old(clients[..]));
            if i == clients.Length then idx == -1 && clients[..] == old(clients[..])
            else idx == i && clients[..] == old(clients[..])[i := Slot(fd, true, true, conn, ByListener)]
  {
    var i := 0;
    while i < clients.Length
      invariant i <= clients.Length && clients[..] == old(clients[..])
      invariant FirstFree(clients[..]) == i + FirstFree(clients[i..])
    {
      if !clients[i].active && !clients[i].threadRunning {
        clients[i] := Slot(fd, true, true, conn, ByListener);
        return i;
      }
      assert clients[i..][1..] == clients[i + 1..];
      i := i + 1;
    }
    return -1;
  }
}
