/** All message queues together: the directory, link and open references, the byte budget
    shared by every queue, and notification registrations, under any interleaving of the
    threads' atomic steps. A queue's lock is held from the start of an operation until its
    thread is idle again; only the budget word is shared between operations in progress. */
module MessageQueues {
  import opened Common
  import opened MessageQueue

  /** The largest message with its header. */
  const LARGEST: nat := HEADER + MSGSIZE_MAX

  /** A directory entry holds at most this much of a name. */
  const NAME_MAX: nat := 127

  /** A node holds one reference for its directory entry and one per open descriptor. `sent`
      and `received` are its history. */
  datatype Node = Node(q: Queue, name: Option<string>, opens: nat, refcount: nat, sent: seq<Msg>, received: seq<Msg>)

  /** Between two steps a thread is rolling back a refused reservation, holds a granted one,
      gives one back after a failed allocation or copy, frees a message it dequeued, or frees
      the messages of a node that lost its last reference. */
  datatype Pc =
    | Idle
    | Refused(i: nat, n: nat)
    | Granted(i: nat, m: Msg)
    | Failed(i: nat, n: nat)
    | Freeing(i: nat, n: nat)
    | Draining(msgs: seq<Msg>)

  /** `pending` maps a queue to the number of its registration; `signalled` lists the
      registrations signalled so far, in order. */
  datatype Sys = Sys(word: u32, nodes: seq<Option<Node>>, threads: seq<Pc>,
                     pending: map<nat, nat>, nextReg: nat, signalled: seq<nat>, cancelled: set<nat>)

  datatype Action =
    | Create(name: string)
    | Delete(name: string)
    | Open(i: nat)
    | Close(i: nat)
    | Configure(i: nat, maxmsg: int, msgsize: int)
    | Send(i: nat, m: Msg)
    | Receive(i: nat)
    | Notify(i: nat, pid: u32, sig: u32)
    | Go(ok: bool)

  // ---------------------------------------------------------------- steps

  predicate Alive(s: Sys, i: nat) { i < |s.nodes| && s.nodes[i].Some? }

  /** The queue whose lock the thread holds. */
  function On(pc: Pc): Option<nat> { if pc.Idle? || pc.Draining? then None else Some(pc.i) }

  ghost predicate Locked(s: Sys, i: nat) { exists t :: 0 <= t < |s.threads| && On(s.threads[t]) == Some(i) }

  /** A descriptor is open on the queue and its lock is free. */
  ghost predicate Ready(s: Sys, i: nat) { Alive(s, i) && s.nodes[i].value.opens > 0 && !Locked(s, i) }

  function Goto(s: Sys, t: nat, pc: Pc): Sys
    requires t < |s.threads|
  { s.(threads := s.threads[t := pc]) }

  function SetNode(s: Sys, i: nat, n: Node): Sys
    requires i < |s.nodes|
  { s.(nodes := s.nodes[i := Some(n)]) }

  /** What strlcpy keeps of a name. */
  function Cut(name: string): string { if |name| > NAME_MAX then name[..NAME_MAX] else name }

  function NameFlags(s: Sys, name: string): (f: seq<bool>)
    ensures |f| == |s.nodes|
  { seq(|s.nodes|, i requires 0 <= i < |s.nodes| => s.nodes[i].Some? && s.nodes[i].value.name == Some(name)) }

  /** The greatest index whose flag is set. */
  function Last(flags: seq<bool>): (r: Option<nat>)
    ensures r.None? ==> forall i | 0 <= i < |flags| :: !flags[i]
    ensures r.Some? ==> r.value < |flags| && flags[r.value] && forall i | r.value < i < |flags| :: !flags[i]
  {
    if flags == [] then None
    else if flags[|flags| - 1] then Some(|flags| - 1)
    else Last(flags[..|flags| - 1])
  }

  /** _find_dirent: new entries go to the head of the list, so the latest of a name is found. The
      whole name is compared with what the entry kept. */
  function Find(s: Sys, name: string): Option<nat> { Last(NameFlags(s, name)) }

  /** The reference count goes down by one; at zero the node is gone and its messages are
      left to this thread to free. */
  function Unref(s: Sys, t: nat, i: nat, n: Node): Sys
    requires t < |s.threads| && i < |s.nodes| && n.refcount > 0
  {
    if n.refcount == 1 then
      s.(nodes := s.nodes[i := None], threads := s.threads[t := Draining(n.q.msgs)], pending := s.pending - {i})
    else SetNode(s, i, n.(refcount := n.refcount - 1))
  }

  function SendStep(s: Sys, t: nat, i: nat, m: Msg): Sys
    requires t < |s.threads| && Alive(s, i)
  {
    var q := s.nodes[i].value.q;
    if m.data == [] || m.prio >= PRIO_MAX || |m.data| > q.msgsize || q.curmsgs >= q.maxmsg then s
    else
      var w := (s.word + SizeOf(m)) % TWO32;
      Goto(s.(word := w), t, if w > BYTES_MAX then Refused(i, SizeOf(m)) else Granted(i, m))
  }

  function ReceiveStep(s: Sys, t: nat, i: nat): Sys
    requires t < |s.threads| && Alive(s, i)
  {
    var n := s.nodes[i].value;
    if n.q.msgs == [] then s
    else
      var m := n.q.msgs[0];
      Goto(SetNode(s, i, n.(q := Dequeued(n.q), received := n.received + [m])), t, Freeing(i, SizeOf(m)))
  }

  function EnqueueStep(s: Sys, t: nat, i: nat, m: Msg): Sys
    requires t < |s.threads| && Alive(s, i)
  {
    var n := s.nodes[i].value;
    var s1 := Goto(SetNode(s, i, n.(q := Enqueued(n.q, m), sent := n.sent + [m])), t, Idle);
    if Wakes(n.q).Some? && i in s.pending then
      s1.(pending := s.pending - {i}, signalled := s.signalled + [s.pending[i]])
    else s1
  }

  function NotifyStep(s: Sys, i: nat, pid: u32, sig: u32): Sys
    requires Alive(s, i)
  {
    var n := s.nodes[i].value;
    var s1 := SetNode(s, i, n.(q := Notified(n.q, pid, sig)));
    match NotifyOutcome(n.q, pid, sig)
    case Cancelled =>
      if i in s.pending then s1.(pending := s.pending - {i}, cancelled := s.cancelled + {s.pending[i]}) else s1
    case AtOnce => s1.(nextReg := s.nextReg + 1, signalled := s.signalled + [s.nextReg])
    case Registered => s1.(nextReg := s.nextReg + 1, pending := s.pending[i := s.nextReg])
    case _ => s1
  }

  /** Thread t gives n bytes back and is idle. */
  function GiveBack(s: Sys, t: nat, n: nat): Sys
    requires t < |s.threads|
  { Goto(s.(word := (s.word - n) % TWO32), t, Idle) }

  function GoStep(s: Sys, t: nat, ok: bool): Sys
    requires t < |s.threads|
  {
    match s.threads[t]
    case Idle => s
    case Refused(_, n) => GiveBack(s, t, n)
    case Granted(i, m) =>
      if !ok then Goto(s, t, Failed(i, SizeOf(m)))
      else if Alive(s, i) then EnqueueStep(s, t, i, m)
      else s
    case Failed(_, n) => GiveBack(s, t, n)
    case Freeing(_, n) => GiveBack(s, t, n)
    case Draining(msgs) =>
      if msgs == [] then Goto(s, t, Idle)
      else Goto(s.(word := (s.word - SizeOf(msgs[0])) % TWO32), t, Draining(msgs[1..]))
  }

  /** One step of thread t; an action that is not possible in this state changes nothing.
      `ok` is the luck of the allocation and of the copy from user memory. */
  ghost function Step(s: Sys, t: nat, a: Action): Sys {
    if t >= |s.threads| then s
    else if a.Go? then GoStep(s, t, a.ok)
    else if !s.threads[t].Idle? then s
    else
      match a
      case Create(name) =>
        if Find(s, name).Some? then s
        else s.(nodes := s.nodes + [Some(Node(NewQueue(), Some(Cut(name)), 0, 1, [], []))])
      case Delete(name) =>
        (match Find(s, name)
         case None => s
         case Some(i) =>
           var n := s.nodes[i].value;
           if n.refcount == 0 then s else Unref(s, t, i, n.(name := None)))
      case Open(i) =>
        if !Alive(s, i) || s.nodes[i].value.name.None? then s
        else
          var n := s.nodes[i].value;
          SetNode(s, i, n.(opens := n.opens + 1, refcount := n.refcount + 1))
      case Close(i) =>
        if !Ready(s, i) || s.nodes[i].value.refcount == 0 then s
        else
          var n := s.nodes[i].value;
          Unref(s, t, i, n.(opens := n.opens - 1))
      case Configure(i, maxmsg, msgsize) =>
        if !Ready(s, i) then s
        else
          var n := s.nodes[i].value;
          SetNode(s, i, n.(q := Configured(n.q, maxmsg, msgsize)))
      case Send(i, m) => if Ready(s, i) then SendStep(s, t, i, m) else s
      case Receive(i) => if Ready(s, i) then ReceiveStep(s, t, i) else s
      case Notify(i, pid, sig) => if Ready(s, i) then NotifyStep(s, i, pid, sig) else s
  }

  // ---------------------------------------------------------------- what every step keeps

  function Total(ns: seq<nat>): nat { if ns == [] then 0 else ns[0] + Total(ns[1..]) }

  function NodeBytes(n: Option<Node>): nat { if n.None? then 0 else Bytes(n.value.q.msgs) }

  /** Bytes of messages the thread holds, or of a grant it has not yet turned into one. */
  function LiveHold(pc: Pc): nat {
    match pc
    case Granted(_, m) => SizeOf(m)
    case Failed(_, n) => n
    case Freeing(_, n) => n
    case Draining(msgs) => Bytes(msgs)
    case _ => 0
  }

  /** Bytes of a reservation that was refused and not yet rolled back. */
  function OverHold(pc: Pc): nat { if pc.Refused? then pc.n else 0 }

  function Queued(s: Sys): nat { Total(seq(|s.nodes|, i requires 0 <= i < |s.nodes| => NodeBytes(s.nodes[i]))) }
  function Held(s: Sys): nat { Total(seq(|s.threads|, t requires 0 <= t < |s.threads| => LiveHold(s.threads[t]))) }
  function Over(s: Sys): nat { Total(seq(|s.threads|, t requires 0 <= t < |s.threads| => OverHold(s.threads[t]))) }

  ghost predicate NodeOk(n: Node) {
    && QueueOk(n.q) && Fifo(n.sent, n.received, n.q.msgs)
    && n.refcount == n.opens + (if n.name.Some? then 1 else 0) && n.refcount > 0
  }

  ghost predicate NodesOk(s: Sys) { forall i: nat | Alive(s, i) :: NodeOk(s.nodes[i].value) }

  ghost predicate PcOk(s: Sys, pc: Pc) {
    match pc
    case Idle => true
    case Draining(msgs) => forall k | 0 <= k < |msgs| :: MsgOk(msgs[k])
    case Granted(i, m) => Alive(s, i) && s.nodes[i].value.opens > 0 && MsgOk(m)
      && |s.nodes[i].value.q.msgs| < MAXMSG_MAX
    case Refused(i, n) => Alive(s, i) && s.nodes[i].value.opens > 0 && n <= LARGEST
    case Failed(i, n) => Alive(s, i) && s.nodes[i].value.opens > 0 && n <= LARGEST
    case Freeing(i, n) => Alive(s, i) && s.nodes[i].value.opens > 0 && n <= LARGEST
  }

  ghost predicate ThreadsOk(s: Sys) { forall t | 0 <= t < |s.threads| :: PcOk(s, s.threads[t]) }

  ghost predicate OneEach(s: Sys) {
    forall t, u | 0 <= t < u < |s.threads| && On(s.threads[t]).Some? :: On(s.threads[t]) != On(s.threads[u])
  }

  function LiveBytes(s: Sys): nat { Queued(s) + Held(s) }

  /** The word is, modulo 2^32, the bytes of live messages plus the reservations still to be
      rolled back. */
  ghost predicate WordOk(s: Sys) { s.word == (LiveBytes(s) + Over(s)) % TWO32 }

  /** A queue has a numbered registration exactly when its own field holds one, and a pending
      registration has been neither signalled nor cancelled. */
  ghost predicate RegsOk(s: Sys) {
    && (forall i: nat :: i in s.pending <==> Alive(s, i) && s.nodes[i].value.q.notify.Some?)
    && Listed(s.pending, s.nextReg, s.signalled, s.cancelled)
  }

  ghost predicate Listed(pending: map<nat, nat>, next: nat, signalled: seq<nat>, cancelled: set<nat>) {
    && (forall i, j | i in pending && j in pending && pending[i] == pending[j] :: i == j)
    && (forall i | i in pending :: pending[i] < next && pending[i] !in signalled && pending[i] !in cancelled)
    && (forall k | 0 <= k < |signalled| :: signalled[k] < next && signalled[k] !in cancelled)
    && (forall r | r in cancelled :: r < next)
    && NoDup(signalled)
  }

  /** What every interleaving keeps, with any number of threads. */
  ghost predicate Inv(s: Sys) { NodesOk(s) && ThreadsOk(s) && OneEach(s) && WordOk(s) && RegsOk(s) }

  // ---------------------------------------------------------------- sums

  lemma {:induction false} TotalUpdate(ns: seq<nat>, k: nat, v: nat)
    requires k < |ns|
    ensures Total(ns[k := v]) == Total(ns) - ns[k] + v
  {
    if k == 0 {
      assert ns[k := v][1..] == ns[1..];
    } else {
      TotalUpdate(ns[1..], k - 1, v);
      assert ns[k := v][1..] == ns[1..][k - 1 := v];
    }
  }

  lemma {:induction false} TotalSnoc(ns: seq<nat>, v: nat)
    ensures Total(ns + [v]) == Total(ns) + v
  {
    if ns != [] {
      TotalSnoc(ns[1..], v);
      assert (ns + [v])[1..] == ns[1..] + [v];
    } else {
      assert (ns + [v])[1..] == [];
    }
  }

  lemma {:induction false} TotalBound(ns: seq<nat>, b: nat)
    requires forall k | 0 <= k < |ns| :: ns[k] <= b
    ensures Total(ns) <= b * |ns|
  { if ns != [] { TotalBound(ns[1..], b); } }

  lemma {:induction false} TotalZero(ns: seq<nat>)
    requires forall k | 0 <= k < |ns| :: ns[k] == 0
    ensures Total(ns) == 0
  { if ns != [] { TotalZero(ns[1..]); } }

  lemma QueuedSet(s: Sys, i: nat, n: Option<Node>)
    requires i < |s.nodes|
    ensures Queued(s.(nodes := s.nodes[i := n])) == Queued(s) - NodeBytes(s.nodes[i]) + NodeBytes(n)
  {
    var s' := s.(nodes := s.nodes[i := n]);
    var f := seq(|s.nodes|, i requires 0 <= i < |s.nodes| => NodeBytes(s.nodes[i]));
    TotalUpdate(f, i, NodeBytes(n));
    assert seq(|s'.nodes|, i requires 0 <= i < |s'.nodes| => NodeBytes(s'.nodes[i])) == f[i := NodeBytes(n)];
  }

  lemma HeldSet(s: Sys, t: nat, pc: Pc)
    requires t < |s.threads|
    ensures Held(s.(threads := s.threads[t := pc])) == Held(s) - LiveHold(s.threads[t]) + LiveHold(pc)
    ensures Over(s.(threads := s.threads[t := pc])) == Over(s) - OverHold(s.threads[t]) + OverHold(pc)
  {
    var s' := s.(threads := s.threads[t := pc]);
    var f := seq(|s.threads|, t requires 0 <= t < |s.threads| => LiveHold(s.threads[t]));
    var g := seq(|s.threads|, t requires 0 <= t < |s.threads| => OverHold(s.threads[t]));
    TotalUpdate(f, t, LiveHold(pc));
    TotalUpdate(g, t, OverHold(pc));
    assert seq(|s'.threads|, t requires 0 <= t < |s'.threads| => LiveHold(s'.threads[t])) == f[t := LiveHold(pc)];
    assert seq(|s'.threads|, t requires 0 <= t < |s'.threads| => OverHold(s'.threads[t])) == g[t := OverHold(pc)];
  }

  lemma ModShift(total: int, d: int)
    ensures (total % TWO32 + d) % TWO32 == (total + d) % TWO32
  {}

  // ---------------------------------------------------------------- one node and one thread move

  /** Thread t goes to pc and node i becomes n; the budget word and registrations may change. */
  predicate Moves(s: Sys, s': Sys, t: nat, pc: Pc, i: nat, n: Option<Node>) {
    && t < |s.threads| && Alive(s, i)
    && s'.threads == s.threads[t := pc] && s'.nodes == s.nodes[i := n]
  }

  ghost predicate NotOn(s: Sys, t: nat, i: nat) {
    forall u | 0 <= u < |s.threads| && u != t :: On(s.threads[u]) != Some(i)
  }

  /** No other thread works on the node, or it keeps its queue and its open descriptors. */
  ghost predicate Undisturbed(s: Sys, t: nat, i: nat, n: Option<Node>)
    requires Alive(s, i)
  { NotOn(s, t, i) || (n.Some? && n.value.q == s.nodes[i].value.q && n.value.opens >= s.nodes[i].value.opens) }

  lemma MoveStructure(s: Sys, s': Sys, t: nat, pc: Pc, i: nat, n: Option<Node>)
    requires Inv(s) && Moves(s, s', t, pc, i, n)
    requires Undisturbed(s, t, i, n) && (n.Some? ==> NodeOk(n.value))
    requires PcOk(s', pc) && (On(pc).Some? ==> On(pc) == Some(i) && NotOn(s, t, i))
    ensures NodesOk(s') && ThreadsOk(s') && OneEach(s')
  {
    hide QueueOk, Fifo, WordOk, RegsOk, MsgOk;
    forall u | 0 <= u < |s'.threads| ensures PcOk(s', s'.threads[u]) { assert PcOk(s, s.threads[u]); }
  }

  lemma MoveSums(s: Sys, s': Sys, t: nat, pc: Pc, i: nat, n: Option<Node>)
    requires Moves(s, s', t, pc, i, n)
    ensures Queued(s') == Queued(s) - NodeBytes(s.nodes[i]) + NodeBytes(n)
    ensures Held(s') == Held(s) - LiveHold(s.threads[t]) + LiveHold(pc)
    ensures Over(s') == Over(s) - OverHold(s.threads[t]) + OverHold(pc)
  {
    hide NodeBytes, LiveHold, OverHold;
    QueuedSet(s, i, n);
    HeldSet(s, t, pc);
    SumsDepend(s', s.(nodes := s.nodes[i := n]), s.(threads := s.threads[t := pc]));
  }

  lemma SumsDepend(a: Sys, b: Sys, c: Sys)
    ensures a.nodes == b.nodes ==> Queued(a) == Queued(b)
    ensures a.threads == c.threads ==> Held(a) == Held(c) && Over(a) == Over(c)
  {}

  /** Registrations are untouched: the node keeps, or lacks, one as before. */
  lemma MoveRegs(s: Sys, s': Sys, t: nat, pc: Pc, i: nat, n: Option<Node>)
    requires RegsOk(s) && Moves(s, s', t, pc, i, n)
    requires s'.nextReg == s.nextReg && s'.signalled == s.signalled && s'.cancelled == s.cancelled
    requires if n.Some? then s'.pending == s.pending && n.value.q.notify == s.nodes[i].value.q.notify
      else s'.pending == s.pending - {i}
    ensures RegsOk(s')
  {}

  /** A move of one node and one thread that keeps the books balanced keeps the invariant. */
  lemma MoveInv(s: Sys, s': Sys, t: nat, pc: Pc, i: nat, n: Option<Node>)
    requires Inv(s) && Moves(s, s', t, pc, i, n) && RegsOk(s')
    requires Undisturbed(s, t, i, n) && (n.Some? ==> NodeOk(n.value))
    requires PcOk(s', pc) && (On(pc).Some? ==> On(pc) == Some(i) && NotOn(s, t, i))
    requires s'.word == (s.word + NodeBytes(n) - NodeBytes(s.nodes[i]) + LiveHold(pc) - LiveHold(s.threads[t])
                         + OverHold(pc) - OverHold(s.threads[t])) % TWO32
    ensures Inv(s')
    ensures LiveBytes(s') == LiveBytes(s) + NodeBytes(n) - NodeBytes(s.nodes[i]) + LiveHold(pc) - LiveHold(s.threads[t])
  {
    hide NodeBytes, LiveHold, OverHold, NodeOk, PcOk, NotOn, Queued, Held, Over;
    MoveStructure(s, s', t, pc, i, n);
    MoveSums(s, s', t, pc, i, n);
    ModShift(LiveBytes(s) + Over(s), NodeBytes(n) - NodeBytes(s.nodes[i]) + LiveHold(pc) - LiveHold(s.threads[t])
                                     + OverHold(pc) - OverHold(s.threads[t]));
  }

  /** The same for a move of the thread alone. */
  lemma ThreadInv(s: Sys, s': Sys, t: nat, pc: Pc)
    requires Inv(s) && t < |s.threads| && s' == s.(threads := s.threads[t := pc], word := s'.word)
    requires PcOk(s', pc) && (On(pc).Some? ==> On(pc) == On(s.threads[t]))
    requires s'.word == (s.word + LiveHold(pc) - LiveHold(s.threads[t]) + OverHold(pc) - OverHold(s.threads[t])) % TWO32
    ensures Inv(s') && LiveBytes(s') == LiveBytes(s) + LiveHold(pc) - LiveHold(s.threads[t])
  {
    hide QueueOk, Fifo, MsgOk, LiveHold, OverHold, Queued, Held, Over;
    HeldSet(s, t, pc);
    SumsDepend(s', s, s.(threads := s.threads[t := pc]));
    ModShift(LiveBytes(s) + Over(s), LiveHold(pc) - LiveHold(s.threads[t]) + OverHold(pc) - OverHold(s.threads[t]));
    forall u | 0 <= u < |s'.threads| ensures PcOk(s', s'.threads[u]) { assert PcOk(s, s.threads[u]); }
  }

  // ---------------------------------------------------------------- each action

  lemma CreateInv(s: Sys, t: nat, name: string)
    requires Inv(s)
    ensures Inv(Step(s, t, Create(name))) && LiveBytes(Step(s, t, Create(name))) <= LiveBytes(s)
  {
    hide MsgOk, Fifo, QueueOk, WordOk, RegsOk, LiveBytes;
    var s' := Step(s, t, Create(name));
    if s' != s {
      var f := NameFlags(s, name);
      CreateSums(s, s');
      assert NodeOk(s'.nodes[|s.nodes|].value) by { NewNode(Cut(name)); }
      assert forall i: nat :: Alive(s, i) ==> Alive(s', i) && s'.nodes[i] == s.nodes[i] && !f[i];
      forall u | 0 <= u < |s'.threads| ensures PcOk(s', s'.threads[u]) { assert PcOk(s, s.threads[u]); }
    }
  }

  lemma NewNode(name: string)
    ensures NodeOk(Node(NewQueue(), Some(name), 0, 1, [], []))
  {}

  lemma CreateSums(s: Sys, s': Sys)
    requires WordOk(s) && RegsOk(s) && |s'.nodes| == |s.nodes| + 1 && s' == s.(nodes := s.nodes + [s'.nodes[|s.nodes|]])
    requires s'.nodes[|s.nodes|].Some? && s'.nodes[|s.nodes|].value.q == NewQueue()
    ensures WordOk(s') && RegsOk(s') && LiveBytes(s') == LiveBytes(s)
  {
    var f := seq(|s.nodes|, i requires 0 <= i < |s.nodes| => NodeBytes(s.nodes[i]));
    TotalSnoc(f, 0);
    assert seq(|s'.nodes|, i requires 0 <= i < |s'.nodes| => NodeBytes(s'.nodes[i])) == f + [0];
    SumsDepend(s', s', s);
    forall j: nat ensures j in s'.pending <==> Alive(s', j) && s'.nodes[j].value.q.notify.Some? {
      assert j in s.pending <==> Alive(s, j) && s.nodes[j].value.q.notify.Some?;
    }
  }

  lemma UnrefInv(s: Sys, t: nat, i: nat, n: Node)
    requires Inv(s) && t < |s.threads| && s.threads[t].Idle? && Alive(s, i)
    requires var o := s.nodes[i].value;
      && n.q == o.q && n.sent == o.sent && n.received == o.received && n.refcount == o.refcount
      && n.refcount - 1 == n.opens + (if n.name.Some? then 1 else 0)
      && ((n.opens == o.opens && n.name.None?) || (n.name == o.name && !Locked(s, i)))
    ensures Inv(Unref(s, t, i, n)) && LiveBytes(Unref(s, t, i, n)) <= LiveBytes(s)
  {
    hide Inv, LiveBytes, NodeBytes, Fifo, QueueOk;
    var s' := Unref(s, t, i, n);
    NodeFacts(s, i);
    RegsFacts(s);
    if n.refcount == 1 {
      WaitingMsgs(s, i);
      forall u | 0 <= u < |s.threads| && u != t ensures On(s.threads[u]) != Some(i) { ThreadFacts(s, u); }
      DrainHolds(n);
      SameBytes(s.nodes[i].value, n);
      MoveRegs(s, s', t, Draining(n.q.msgs), i, None);
      MoveInv(s, s', t, Draining(n.q.msgs), i, None);
    } else {
      var n' := n.(refcount := n.refcount - 1);
      assert s.threads[t := Idle] == s.threads;
      MoveRegs(s, s', t, Idle, i, Some(n'));
      SameBytes(s.nodes[i].value, n');
      MoveInv(s, s', t, Idle, i, Some(n'));
    }
  }

  lemma SameBytes(n: Node, n': Node)
    requires n'.q == n.q
    ensures NodeBytes(Some(n')) == NodeBytes(Some(n))
  {}

  lemma DrainHolds(n: Node)
    ensures LiveHold(Draining(n.q.msgs)) == NodeBytes(Some(n)) && NodeBytes(None) == 0
  {}

  lemma WaitingMsgs(s: Sys, i: nat)
    requires Inv(s) && Alive(s, i)
    ensures forall k | 0 <= k < |s.nodes[i].value.q.msgs| :: MsgOk(s.nodes[i].value.q.msgs[k])
  { NodeFacts(s, i); }

  lemma DeleteInv(s: Sys, t: nat, name: string)
    requires Inv(s)
    ensures Inv(Step(s, t, Delete(name))) && LiveBytes(Step(s, t, Delete(name))) <= LiveBytes(s)
  {
    hide Inv, Unref;
    if t < |s.threads| && s.threads[t].Idle? && Find(s, name).Some? {
      var i := Find(s, name).value;
      NodeFacts(s, i);
      UnrefInv(s, t, i, s.nodes[i].value.(name := None));
    }
  }

  lemma NodeFacts(s: Sys, i: nat)
    requires Inv(s) && Alive(s, i)
    ensures NodeOk(s.nodes[i].value)
  {}

  lemma OpenInv(s: Sys, t: nat, i: nat)
    requires Inv(s)
    ensures Inv(Step(s, t, Open(i))) && LiveBytes(Step(s, t, Open(i))) <= LiveBytes(s)
  {
    hide Inv;
    var s' := Step(s, t, Open(i));
    if s' != s {
      var n := s.nodes[i].value;
      var n' := n.(opens := n.opens + 1, refcount := n.refcount + 1);
      NodeFacts(s, i);
      assert s.threads[t := Idle] == s.threads;
      RegsFacts(s);
      MoveRegs(s, s', t, Idle, i, Some(n'));
      MoveInv(s, s', t, Idle, i, Some(n'));
    }
  }

  lemma RegsFacts(s: Sys)
    requires Inv(s)
    ensures RegsOk(s)
  {}

  lemma CloseInv(s: Sys, t: nat, i: nat)
    requires Inv(s)
    ensures Inv(Step(s, t, Close(i))) && LiveBytes(Step(s, t, Close(i))) <= LiveBytes(s)
  {
    hide Inv, Unref;
    if t < |s.threads| && s.threads[t].Idle? && Ready(s, i) {
      NodeFacts(s, i);
      var n := s.nodes[i].value;
      UnrefInv(s, t, i, n.(opens := n.opens - 1));
    }
  }

  lemma ConfigureInv(s: Sys, t: nat, i: nat, maxmsg: int, msgsize: int)
    requires Inv(s)
    ensures Inv(Step(s, t, Configure(i, maxmsg, msgsize)))
      && LiveBytes(Step(s, t, Configure(i, maxmsg, msgsize))) <= LiveBytes(s)
  {
    hide Inv;
    if t < |s.threads| && s.threads[t].Idle? && Ready(s, i) {
      var s' := Step(s, t, Configure(i, maxmsg, msgsize));
      var n := s.nodes[i].value;
      var n' := n.(q := Configured(n.q, maxmsg, msgsize));
      NodeFacts(s, i);
      RegsFacts(s);
      assert s.threads[t := Idle] == s.threads;
      MoveRegs(s, s', t, Idle, i, Some(n'));
      MoveInv(s, s', t, Idle, i, Some(n'));
    }
  }

  /** A send that gets past the checks is granted or refused by the wrapped word. */
  lemma SendInv(s: Sys, t: nat, i: nat, m: Msg)
    requires Inv(s)
    ensures var s' := Step(s, t, Send(i, m));
      && Inv(s')
      && (LiveBytes(s') <= LiveBytes(s) ||
          (&& t < |s.threads| && s.threads[t].Idle? && SizeOf(m) <= LARGEST
           && LiveBytes(s') == LiveBytes(s) + SizeOf(m) && (s.word + SizeOf(m)) % TWO32 <= BYTES_MAX))
  {
    hide Inv, LiveBytes, NodeBytes, Fifo;
    var s' := Step(s, t, Send(i, m));
    if s' != s {
      NodeFacts(s, i);
      RegsFacts(s);
      assert s.nodes[i := s.nodes[i]] == s.nodes;
      var pc := s'.threads[t];
      MoveRegs(s, s', t, pc, i, s.nodes[i]);
      MoveInv(s, s', t, pc, i, s.nodes[i]);
    }
  }

  lemma ReceiveInv(s: Sys, t: nat, i: nat)
    requires Inv(s)
    ensures Inv(Step(s, t, Receive(i))) && LiveBytes(Step(s, t, Receive(i))) <= LiveBytes(s)
  {
    hide Inv;
    var s' := Step(s, t, Receive(i));
    if s' != s {
      NodeFacts(s, i);
      RegsFacts(s);
      var n := s.nodes[i].value;
      DequeueKeeps(n.q, n.sent, n.received);
      assert MsgOk(n.q.msgs[0]);
      MoveRegs(s, s', t, s'.threads[t], i, s'.nodes[i]);
      MoveInv(s, s', t, s'.threads[t], i, s'.nodes[i]);
    }
  }

  lemma NotifyInv(s: Sys, t: nat, i: nat, pid: u32, sig: u32)
    requires Inv(s)
    ensures Inv(Step(s, t, Notify(i, pid, sig))) && LiveBytes(Step(s, t, Notify(i, pid, sig))) <= LiveBytes(s)
  {
    hide Inv, Fifo, QueueOk, Notified, NotifyStep, RegsOk;
    if t < |s.threads| && s.threads[t].Idle? && Ready(s, i) {
      var s' := Step(s, t, Notify(i, pid, sig));
      NodeFacts(s, i);
      RegsFacts(s);
      assert s.threads[t := Idle] == s.threads;
      NotifyRegs(s, i, pid, sig);
      NotifyIs(s, i, pid, sig);
      MoveInv(s, s', t, Idle, i, s'.nodes[i]);
    }
  }

  lemma NotifyIs(s: Sys, i: nat, pid: u32, sig: u32)
    requires Alive(s, i)
    ensures var n, s' := s.nodes[i].value, NotifyStep(s, i, pid, sig);
      && s'.word == s.word && s'.threads == s.threads
        && s'.nodes == s.nodes[i := Some(n.(q := Notified(n.q, pid, sig)))]
      && Notified(n.q, pid, sig).msgs == n.q.msgs && (QueueOk(n.q) ==> QueueOk(Notified(n.q, pid, sig)))
  {}

  lemma NotifyRegs(s: Sys, i: nat, pid: u32, sig: u32)
    requires RegsOk(s) && Alive(s, i)
    ensures RegsOk(NotifyStep(s, i, pid, sig))
  {
    hide Listed;
    var s' := NotifyStep(s, i, pid, sig);
    assert i in s.pending <==> s.nodes[i].value.q.notify.Some?;
    forall j: nat ensures j in s'.pending <==> Alive(s', j) && s'.nodes[j].value.q.notify.Some? {
      assert j in s.pending <==> Alive(s, j) && s.nodes[j].value.q.notify.Some?;
    }
    if i in s.pending { ListedLess(s.pending, s.nextReg, s.signalled, s.cancelled, i); }
    ListedNext(s.pending, s.nextReg, s.signalled, s.cancelled, i);
  }

  lemma ListedLess(pending: map<nat, nat>, next: nat, signalled: seq<nat>, cancelled: set<nat>, i: nat)
    requires Listed(pending, next, signalled, cancelled) && i in pending
    ensures Listed(pending - {i}, next, signalled, cancelled + {pending[i]})
    ensures Listed(pending - {i}, next, signalled + [pending[i]], cancelled)
  {}

  lemma ListedNext(pending: map<nat, nat>, next: nat, signalled: seq<nat>, cancelled: set<nat>, i: nat)
    requires Listed(pending, next, signalled, cancelled)
    ensures Listed(pending, next + 1, signalled + [next], cancelled)
    ensures Listed(pending[i := next], next + 1, signalled, cancelled)
  {}

  lemma EnqueueInv(s: Sys, t: nat, i: nat, m: Msg)
    requires Inv(s) && t < |s.threads| && s.threads[t] == Granted(i, m) && Alive(s, i)
    ensures Inv(EnqueueStep(s, t, i, m)) && LiveBytes(EnqueueStep(s, t, i, m)) <= LiveBytes(s)
  {
    hide Inv;
    var s' := EnqueueStep(s, t, i, m);
    NodeFacts(s, i);
    RegsFacts(s);
    ThreadFacts(s, t);
    var n := s.nodes[i].value;
    EnqueueKeeps(n.q, m, n.sent, n.received);
    EnqueueRegs(s, t, i, m);
    MoveInv(s, s', t, Idle, i, s'.nodes[i]);
  }

  lemma ThreadFacts(s: Sys, t: nat)
    requires Inv(s) && t < |s.threads|
    ensures PcOk(s, s.threads[t])
    ensures On(s.threads[t]).Some? ==> NotOn(s, t, On(s.threads[t]).value)
  {}

  lemma EnqueueRegs(s: Sys, t: nat, i: nat, m: Msg)
    requires RegsOk(s) && t < |s.threads| && Alive(s, i) && QueueOk(s.nodes[i].value.q)
    ensures RegsOk(EnqueueStep(s, t, i, m))
  {
    hide Ordered, MsgOk, Insert, Listed;
    var s' := EnqueueStep(s, t, i, m);
    if i in s.pending { ListedLess(s.pending, s.nextReg, s.signalled, s.cancelled, i); }
    forall j: nat ensures j in s'.pending <==> Alive(s', j) && s'.nodes[j].value.q.notify.Some? {
      assert j in s.pending <==> Alive(s, j) && s.nodes[j].value.q.notify.Some?;
    }
  }

  lemma GoInv(s: Sys, t: nat, ok: bool)
    requires Inv(s)
    ensures Inv(Step(s, t, Go(ok))) && LiveBytes(Step(s, t, Go(ok))) <= LiveBytes(s)
  {
    hide Inv, EnqueueStep, MsgOk;
    if t < |s.threads| {
      var s', pc := Step(s, t, Go(ok)), s.threads[t];
      ThreadFacts(s, t);
      if pc.Granted? && ok {
        EnqueueInv(s, t, pc.i, pc.m);
      } else if !pc.Idle? {
        if pc.Granted? { MsgSize(pc.m); }
        ThreadInv(s, s', t, s'.threads[t]);
      }
    }
  }

  lemma MsgSize(m: Msg)
    requires MsgOk(m)
    ensures SizeOf(m) <= LARGEST
  {}

  /** Every step keeps the invariant, and only a send that the wrapped word grants adds bytes. */
  lemma StepKeepsInv(s: Sys, t: nat, a: Action)
    requires Inv(s)
    ensures var s' := Step(s, t, a);
      && Inv(s')
      && (LiveBytes(s') <= LiveBytes(s) ||
          (&& a.Send? && t < |s.threads| && s.threads[t].Idle? && SizeOf(a.m) <= LARGEST
           && LiveBytes(s') == LiveBytes(s) + SizeOf(a.m) && (s.word + SizeOf(a.m)) % TWO32 <= BYTES_MAX))
  {
    hide Inv, Step, LiveBytes;
    match a
    case Create(name) => CreateInv(s, t, name);
    case Delete(name) => DeleteInv(s, t, name);
    case Open(i) => OpenInv(s, t, i);
    case Close(i) => CloseInv(s, t, i);
    case Configure(i, maxmsg, msgsize) => ConfigureInv(s, t, i, maxmsg, msgsize);
    case Send(i, m) => SendInv(s, t, i, m);
    case Receive(i) => ReceiveInv(s, t, i);
    case Notify(i, pid, sig) => NotifyInv(s, t, i, pid, sig);
    case Go(ok) => GoInv(s, t, ok);
  }

  // ---------------------------------------------------------------- whole runs

  function Start(threads: nat): Sys { Sys(0, [], seq(threads, _ => Idle), map[], 0, [], {}) }

  ghost function Run(s: Sys, steps: seq<(nat, Action)>): Sys
    decreases |steps|
  { if steps == [] then s else Run(Step(s, steps[0].0, steps[0].1), steps[1..]) }

  lemma StartSums(threads: nat)
    ensures LiveBytes(Start(threads)) == 0 && Over(Start(threads)) == 0
  {
    var s := Start(threads);
    TotalZero(seq(threads, t requires 0 <= t < |s.threads| => LiveHold(s.threads[t])));
    TotalZero(seq(threads, t requires 0 <= t < |s.threads| => OverHold(s.threads[t])));
  }

  lemma StartInv(threads: nat)
    ensures Inv(Start(threads))
  {
    hide LiveBytes, Over;
    StartSums(threads);
  }

  lemma {:induction false} RunKeepsInv(s: Sys, steps: seq<(nat, Action)>)
    requires Inv(s)
    ensures Inv(Run(s, steps))
    decreases |steps|
  {
    hide Inv, Step;
    if steps != [] {
      StepKeepsInv(s, steps[0].0, steps[0].1);
      RunKeepsInv(Step(s, steps[0].0, steps[0].1), steps[1..]);
    }
  }

  /** Every reachable state, with any number of threads: the queues are in order and account for
      their history, the word is exact modulo 2^32, registrations are consistent. */
  lemma Reachable(threads: nat, steps: seq<(nat, Action)>)
    ensures Inv(Run(Start(threads), steps))
  {
    hide Inv;
    StartInv(threads);
    RunKeepsInv(Start(threads), steps);
  }

  ghost predicate AllIdle(s: Sys) { forall t | 0 <= t < |s.threads| :: s.threads[t].Idle? }

  lemma IdleHoldsNothing(s: Sys)
    requires AllIdle(s)
    ensures Held(s) == 0 && Over(s) == 0
    ensures (forall i: nat :: !Alive(s, i)) ==> Queued(s) == 0
  {
    TotalZero(seq(|s.threads|, t requires 0 <= t < |s.threads| => LiveHold(s.threads[t])));
    TotalZero(seq(|s.threads|, t requires 0 <= t < |s.threads| => OverHold(s.threads[t])));
    if forall i: nat :: !Alive(s, i) {
      forall i: nat | i < |s.nodes| ensures NodeBytes(s.nodes[i]) == 0 { assert !Alive(s, i); }
      TotalZero(seq(|s.nodes|, i requires 0 <= i < |s.nodes| => NodeBytes(s.nodes[i])));
    }
  }

  /** With any number of threads, the word is modulo 2^32 the live bytes plus the refused
      reservations in rollback; with every thread idle it is the bytes queued, and zero once no
      queue is left. */
  lemma BudgetConserved(threads: nat, steps: seq<(nat, Action)>)
    ensures var s := Run(Start(threads), steps);
      && s.word == (LiveBytes(s) + Over(s)) % TWO32
      && (AllIdle(s) ==> s.word == Queued(s) % TWO32)
      && (AllIdle(s) && (forall i: nat :: !Alive(s, i)) ==> s.word == 0)
  {
    hide Run, Start, NodesOk, ThreadsOk, OneEach, RegsOk, Queued, Held, Over, AllIdle;
    Reachable(threads, steps);
    var s := Run(Start(threads), steps);
    if AllIdle(s) { IdleHoldsNothing(s); }
  }

  // ---------------------------------------------------------------- names

  ghost predicate Linked(s: Sys, name: string) {
    exists i: nat :: Alive(s, i) && s.nodes[i].value.name == Some(name)
  }

  lemma FindIff(s: Sys, name: string)
    ensures Find(s, name).Some? <==> Linked(s, name)
    ensures Find(s, name).Some? ==>
      Alive(s, Find(s, name).value)
      && s.nodes[Find(s, name).value].value.name == Some(name)
  {
    var f := NameFlags(s, name);
    if Last(f).None? {
      forall i: nat | Alive(s, i) ensures s.nodes[i].value.name != Some(name) { assert !f[i]; }
    }
  }

  /** Creating a name makes an empty, linked, unopened queue, unless a queue is linked under that
      very name; then nothing changes. The new queue is found under the name again if and only if
      the name fits an entry. */
  lemma CreateIff(s: Sys, t: nat, name: string)
    requires t < |s.threads| && s.threads[t].Idle?
    ensures var s', n := Step(s, t, Create(name)), |s.nodes|;
      if Linked(s, name) then s' == s
      else
        && Alive(s', n) && s'.nodes[n].value == Node(NewQueue(), Some(Cut(name)), 0, 1, [], [])
        && Find(s', Cut(name)) == Some(n) && (Find(s', name) == Some(n) <==> |name| <= NAME_MAX)
  {
    FindIff(s, name);
    var s', n := Step(s, t, Create(name)), |s.nodes|;
    if !Linked(s, name) {
      assert NameFlags(s', Cut(name))[n];
      if |name| > NAME_MAX { assert !NameFlags(s', name)[n]; }
    }
  }

  ghost predicate StoredOk(s: Sys) {
    forall i: nat | Alive(s, i) && s.nodes[i].value.name.Some? :: |s.nodes[i].value.name.value| <= NAME_MAX
  }

  /** No two linked queues have one name. */
  ghost predicate NamesOk(s: Sys) {
    forall i: nat, j: nat | Alive(s, i) && Alive(s, j) && s.nodes[i].value.name.Some?
                            && s.nodes[i].value.name == s.nodes[j].value.name :: i == j
  }

  /** A name too long for an entry is created although its beginning is taken. */
  ghost predicate Doubles(s: Sys, t: nat, a: Action) {
    && t < |s.threads| && s.threads[t].Idle? && a.Create?
    && |a.name| > NAME_MAX && Linked(s, Cut(a.name))
  }

  ghost predicate NamesOnlyGo(s: Sys, s': Sys) {
    forall i: nat | Alive(s', i) :: Alive(s, i)
      && (s'.nodes[i].value.name == s.nodes[i].value.name || s'.nodes[i].value.name.None?)
  }

  lemma OthersOnlyGo(s: Sys, t: nat, a: Action)
    requires !a.Create?
    ensures NamesOnlyGo(s, Step(s, t, a))
  {
    hide Insert, Notified, Configured, Locked, Find, GoStep, NotifyStep, SendStep, ReceiveStep;
    if a.Delete? { FindIff(s, a.name); }
    if t < |s.threads| && (a.Go? || a.Notify? || a.Send? || a.Receive?) { WorkKeepsNames(s, t, a); }
  }

  lemma WorkKeepsNames(s: Sys, t: nat, a: Action)
    requires t < |s.threads| && (a.Go? || a.Notify? || a.Send? || a.Receive?)
    ensures NamesOnlyGo(s, Step(s, t, a))
  { hide Insert, Notified, Locked; }

  lemma NamesStep(s: Sys, t: nat, a: Action)
    requires StoredOk(s) && NamesOk(s)
    ensures StoredOk(Step(s, t, a)) && (NamesOk(Step(s, t, a)) <==> !Doubles(s, t, a))
  {
    hide Find;
    if a.Create? { CreateNames(s, t, a.name); } else { OthersOnlyGo(s, t, a); NamesGo(s, Step(s, t, a)); }
  }

  lemma NamesGo(s: Sys, s': Sys)
    requires StoredOk(s) && NamesOk(s) && NamesOnlyGo(s, s')
    ensures StoredOk(s') && NamesOk(s')
  {}

  lemma CreateNames(s: Sys, t: nat, name: string)
    requires StoredOk(s) && NamesOk(s)
    ensures StoredOk(Step(s, t, Create(name))) && (NamesOk(Step(s, t, Create(name))) <==> !Doubles(s, t, Create(name)))
  {
    hide Find;
    FindIff(s, name);
    var s', n := Step(s, t, Create(name)), |s.nodes|;
    if s' != s {
      assert Alive(s', n) && s'.nodes[n].value.name == Some(Cut(name));
      forall i: nat | i < n ensures s'.nodes[i] == s.nodes[i] && (Alive(s', i) <==> Alive(s, i)) {}
      if Linked(s, Cut(name)) {
        var i: nat :| Alive(s, i) && s.nodes[i].value.name == Some(Cut(name));
        assert Alive(s', i) && s'.nodes[i].value.name == s'.nodes[n].value.name;
      }
    }
  }

  ghost predicate NamesAlways(s: Sys, steps: seq<(nat, Action)>)
    decreases |steps|
  { NamesOk(s) && (steps == [] || NamesAlways(Step(s, steps[0].0, steps[0].1), steps[1..])) }

  ghost predicate NeverDoubles(s: Sys, steps: seq<(nat, Action)>)
    decreases |steps|
  { steps == [] || (!Doubles(s, steps[0].0, steps[0].1) && NeverDoubles(Step(s, steps[0].0, steps[0].1), steps[1..])) }

  /** Over every run: linked names stay distinct if and only if no name too long for an entry is
      created while its beginning is linked. */
  lemma {:induction false} NamesIff(s: Sys, steps: seq<(nat, Action)>)
    requires StoredOk(s) && NamesOk(s)
    ensures NamesAlways(s, steps) <==> NeverDoubles(s, steps)
    decreases |steps|
  {
    hide Step, StoredOk, NamesOk, Doubles;
    if steps != [] {
      NamesStep(s, steps[0].0, steps[0].1);
      var s1 := Step(s, steps[0].0, steps[0].1);
      if NamesOk(s1) { NamesIff(s1, steps[1..]); }
    }
  }

  // ---------------------------------------------------------------- sending and receiving

  /** A send that fits is delivered, and takes exactly its size; receiving it from an otherwise
      empty queue gives back exactly that. */
  lemma SendReceive(s: Sys, t: nat, i: nat, m: Msg)
    requires Inv(s) && t < |s.threads| && s.threads[t].Idle? && Ready(s, i)
    requires MsgOk(m) && |m.data| <= s.nodes[i].value.q.msgsize
      && s.nodes[i].value.q.curmsgs < s.nodes[i].value.q.maxmsg
    requires s.word + SizeOf(m) <= BYTES_MAX
    ensures var s2 := Step(Step(s, t, Send(i, m)), t, Go(true));
      && Inv(s2) && Alive(s2, i) && s2.threads == s.threads && s2.word == s.word + SizeOf(m)
      && s2.nodes[i].value.sent == s.nodes[i].value.sent + [m]
      && s2.nodes[i].value.q.msgs == Insert(s.nodes[i].value.q.msgs, m)
      && (s.nodes[i].value.q.msgs == [] ==>
          var s4 := Step(Step(s2, t, Receive(i)), t, Go(true));
          && Alive(s4, i) && s4.word == s.word && s4.nodes[i].value.q.msgs == []
          && s4.nodes[i].value.received == s.nodes[i].value.received + [m])
  {
    hide Inv, QueueOk, Fifo, Insert, MsgOk;
    var s1 := Step(s, t, Send(i, m));
    MsgParts(m);
    StepKeepsInv(s, t, Send(i, m));
    assert s1.threads == s.threads[t := Granted(i, m)] && s1.nodes == s.nodes && s1.word == s.word + SizeOf(m);
    StepKeepsInv(s1, t, Go(true));
    var s2 := Step(s1, t, Go(true));
    assert s.threads[t := Idle] == s.threads;
    if s.nodes[i].value.q.msgs == [] {
      InsertEmpty(m);
      assert !Locked(s2, i);
      var s3 := Step(s2, t, Receive(i));
      assert s3.threads[t] == Freeing(i, SizeOf(m));
    }
  }

  lemma MsgParts(m: Msg)
    requires MsgOk(m)
    ensures m.prio < PRIO_MAX && m.data != []
  {}

  lemma InsertEmpty(m: Msg)
    ensures Insert([], m) == [m]
  {}

  /** In every reachable state the next receive from a queue takes the oldest waiting message of
      the highest priority present, and curmsgs is the number waiting. */
  lemma ReceiveInOrder(threads: nat, steps: seq<(nat, Action)>, i: nat)
    requires Alive(Run(Start(threads), steps), i)
    ensures var n := Run(Start(threads), steps).nodes[i].value;
      && n.q.curmsgs == |n.q.msgs| && Ordered(n.q.msgs)
      && (n.q.msgs != [] ==>
          var m := n.q.msgs[0];
          && (forall k | 0 <= k < |n.q.msgs| :: n.q.msgs[k].prio <= m.prio)
          && |OfPrio(n.received, m.prio)| < |OfPrio(n.sent, m.prio)|
          && OfPrio(n.sent, m.prio)[|OfPrio(n.received, m.prio)|] == m)
  {
    hide Run, Start, Inv;
    Reachable(threads, steps);
    NodeFacts(Run(Start(threads), steps), i);
    var n := Run(Start(threads), steps).nodes[i].value;
    if n.q.msgs != [] { ReceiveTakesBest(n.q, n.sent, n.received); }
  }

  /** A pending registration implies an empty queue; no registration is signalled twice, and
      none that is pending or cancelled has been signalled. */
  lemma SignalledOnce(threads: nat, steps: seq<(nat, Action)>)
    ensures var s := Run(Start(threads), steps);
      && (forall i: nat | Alive(s, i) && s.nodes[i].value.q.notify.Some? :: s.nodes[i].value.q.msgs == [])
      && NoDup(s.signalled)
      && (forall i | i in s.pending :: s.pending[i] !in s.signalled)
      && (forall r | r in s.cancelled :: r !in s.signalled)
  {
    hide Run, Start, Inv;
    Reachable(threads, steps);
    var s := Run(Start(threads), steps);
    RegsFacts(s);
    forall i: nat | Alive(s, i) ensures QueueOk(s.nodes[i].value.q) { NodeFacts(s, i); }
  }

  /** A pending registration is signalled by exactly the step that puts the first message into
      its empty queue. */
  lemma SignalOnFirstSend(s: Sys, t: nat, a: Action, i: nat)
    requires Inv(s) && i in s.pending && t < |s.threads|
    ensures s.pending[i] in Step(s, t, a).signalled <==> a == Go(true) && s.threads[t].Granted? && s.threads[t].i == i
    ensures Alive(s, i) && s.nodes[i].value.q.msgs == []
  {
    hide Inv, QueueOk, Fifo, Insert, Locked, Configured, Notified;
    RegsFacts(s);
    NodeFacts(s, i);
    ThreadFacts(s, t);
    EmptyWhenPending(s.nodes[i].value.q);
    var r := s.pending[i];
    if !a.Go? && !a.Notify? { assert Step(s, t, a).signalled == s.signalled; }
  }

  lemma EmptyWhenPending(q: Queue)
    requires QueueOk(q) && q.notify.Some?
    ensures q.msgs == [] && q.curmsgs == 0
  {}

  /** A node dies with its last reference: an unlink with nothing open, or the close of the last
      descriptor of an unlinked queue. Its messages then belong to the thread that frees them. */
  lemma LastReference(s: Sys, t: nat, a: Action, i: nat)
    requires Inv(s) && Alive(s, i) && !Alive(Step(s, t, a), i)
    ensures var n, s' := s.nodes[i].value, Step(s, t, a);
      && t < |s'.threads| && s'.threads[t] == Draining(n.q.msgs)
      && ((a.Delete? && n.name == Some(a.name) && n.opens == 0) || (a == Close(i) && n.name.None? && n.opens == 1))
  {
    hide Inv, QueueOk, Fifo, Insert, SendStep, ReceiveStep, GoStep, NotifyStep, Configured, Find;
    NodeFacts(s, i);
    if a.Delete? {
      var f := Find(s, a.name);
      FindIff(s, a.name);
      if f.Some? { assert f.value == i; }
    } else if !a.Close? {
      OthersSurvive(s, t, a, i);
    }
  }

  lemma OthersSurvive(s: Sys, t: nat, a: Action, i: nat)
    requires Alive(s, i) && !a.Delete? && !a.Close?
    ensures Alive(Step(s, t, a), i)
  { hide Insert, Notified, Configured, Locked; }
}
