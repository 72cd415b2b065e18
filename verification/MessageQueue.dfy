/** One message queue: its priority list, limits and notification registration, as a value and
    as the object whose operations run under the queue's lock; and the byte budget word. */
module MessageQueue {
  import opened Common

  const PRIO_MAX: nat := 32
  const MAXMSG_MAX: nat := 256
  const MSGSIZE_MAX: nat := 8192
  const BYTES_MAX: nat := 4194304
  const DEFAULT_MAXMSG: nat := 10
  const DEFAULT_MSGSIZE: nat := 8192
  /** sizeof(mq_msg_t): a link, a priority and a length. */
  const HEADER: nat := 12

  const EBADF: int := 9
  const EAGAIN: int := 11
  const ENOMEM: int := 12
  const EFAULT: int := 14
  const EBUSY: int := 16
  const EINVAL: int := 22
  const EMSGSIZE: int := 90

  datatype Msg = Msg(prio: u32, data: seq<byte>)
  datatype Reg = Reg(pid: u32, sig: u32)
  datatype Mode = ReadOnly | WriteOnly | ReadWrite

  datatype Queue = Queue(maxmsg: int, msgsize: int, curmsgs: int, configured: bool, msgs: seq<Msg>, notify: Option<Reg>)

  function SizeOf(m: Msg): nat { HEADER + |m.data| }

  function Bytes(msgs: seq<Msg>): nat {
    if msgs == [] then 0 else SizeOf(msgs[0]) + Bytes(msgs[1..])
  }

  /** Skip every message whose priority is at least the new one. */
  function Insert(msgs: seq<Msg>, m: Msg): seq<Msg> {
    if msgs == [] || msgs[0].prio < m.prio then [m] + msgs else [msgs[0]] + Insert(msgs[1..], m)
  }

  function NewQueue(): Queue { Queue(DEFAULT_MAXMSG, DEFAULT_MSGSIZE, 0, false, [], None) }

  function Enqueued(q: Queue, m: Msg): Queue {
    q.(msgs := Insert(q.msgs, m), curmsgs := q.curmsgs + 1, notify := if q.curmsgs + 1 == 1 then None else q.notify)
  }

  /** The registration a send to this queue signals: the pending one, if the queue was empty. */
  function Wakes(q: Queue): Option<Reg> { if q.curmsgs + 1 == 1 then q.notify else None }

  function Dequeued(q: Queue): Queue
    requires q.msgs != []
  { q.(msgs := q.msgs[1..], curmsgs := q.curmsgs - 1) }

  predicate LimitsOk(q: Queue, maxmsg: int, msgsize: int) {
    !q.configured && 0 < maxmsg <= MAXMSG_MAX && 0 < msgsize <= MSGSIZE_MAX
  }

  function Configured(q: Queue, maxmsg: int, msgsize: int): Queue {
    if LimitsOk(q, maxmsg, msgsize) then q.(maxmsg := maxmsg, msgsize := msgsize, configured := true) else q
  }

  datatype Outcome = Cancelled | NoTask | Busy | AtOnce | Registered

  /** What mq_notify does with this queue. */
  function NotifyOutcome(q: Queue, pid: u32, sig: u32): Outcome {
    if sig == 0 then Cancelled
    else if pid == 0 then NoTask
    else if q.notify.Some? then Busy
    else if q.curmsgs > 0 then AtOnce
    else Registered
  }

  function Notified(q: Queue, pid: u32, sig: u32): Queue {
    match NotifyOutcome(q, pid, sig)
    case Cancelled => q.(notify := None)
    case Registered => q.(notify := Some(Reg(pid, sig)))
    case _ => q
  }

  // ---------------------------------------------------------------- the order law

  /** The messages of one priority, in order. */
  function OfPrio(msgs: seq<Msg>, p: u32): seq<Msg> {
    if msgs == [] then [] else One(msgs[0], p) + OfPrio(msgs[1..], p)
  }

  function One(m: Msg, p: u32): seq<Msg> { if m.prio == p then [m] else [] }

  ghost predicate Ordered(msgs: seq<Msg>) {
    forall i, j | 0 <= i < j < |msgs| :: msgs[i].prio >= msgs[j].prio
  }

  ghost predicate MsgOk(m: Msg) { m.prio < PRIO_MAX && 0 < |m.data| <= MSGSIZE_MAX }

  /** What every operation keeps of a queue. */
  ghost predicate QueueOk(q: Queue) {
    && Ordered(q.msgs)
    && q.curmsgs == |q.msgs| <= MAXMSG_MAX
    && (forall i | 0 <= i < |q.msgs| :: MsgOk(q.msgs[i]))
    && 0 < q.maxmsg <= MAXMSG_MAX && 0 < q.msgsize <= MSGSIZE_MAX
    && (q.notify.Some? ==> q.msgs == [] && q.notify.value.pid != 0)
  }

  /** The queue against its history: for each priority, the messages received so far and then
      those waiting are the messages sent, in sending order. */
  ghost predicate Fifo(sent: seq<Msg>, received: seq<Msg>, msgs: seq<Msg>) {
    forall p: u32 :: OfPrio(received, p) + OfPrio(msgs, p) == OfPrio(sent, p)
  }

  lemma {:induction false} InsertIn(msgs: seq<Msg>, m: Msg, x: Msg)
    ensures x in Insert(msgs, m) <==> x in msgs || x == m
    ensures |Insert(msgs, m)| == |msgs| + 1
  {
    if msgs != [] && msgs[0].prio >= m.prio {
      InsertIn(msgs[1..], m, x);
      assert x in msgs <==> x == msgs[0] || x in msgs[1..];
    }
  }

  lemma {:induction false} InsertAt(msgs: seq<Msg>, m: Msg, i: nat)
    requires i <= |msgs| && (forall j | 0 <= j < i :: msgs[j].prio >= m.prio) && (i < |msgs| ==> msgs[i].prio < m.prio)
    ensures Insert(msgs, m) == msgs[..i] + [m] + msgs[i..]
  {
    if i > 0 { InsertAt(msgs[1..], m, i - 1); }
  }

  lemma {:induction false} InsertOrdered(msgs: seq<Msg>, m: Msg)
    requires Ordered(msgs)
    ensures Ordered(Insert(msgs, m))
  {
    if msgs != [] && msgs[0].prio >= m.prio {
      var rest := Insert(msgs[1..], m);
      InsertOrdered(msgs[1..], m);
      forall j | 0 <= j < |rest| ensures msgs[0].prio >= rest[j].prio { InsertIn(msgs[1..], m, rest[j]); }
    }
  }

  lemma {:induction false} OfPrioAbsent(msgs: seq<Msg>, p: u32)
    requires forall i | 0 <= i < |msgs| :: msgs[i].prio != p
    ensures OfPrio(msgs, p) == []
  { if msgs != [] { OfPrioAbsent(msgs[1..], p); } }

  lemma {:induction false} OfPrioSnoc(msgs: seq<Msg>, m: Msg, p: u32)
    ensures OfPrio(msgs + [m], p) == OfPrio(msgs, p) + One(m, p)
  {
    var all := msgs + [m];
    if msgs == [] {
      assert all[1..] == [] && all[0] == m;
      assert OfPrio(all[1..], p) == [];
    } else {
      assert all[1..] == msgs[1..] + [m] && all[0] == msgs[0];
      OfPrioSnoc(msgs[1..], m, p);
      Shift(One(msgs[0], p), OfPrio(msgs[1..], p), One(m, p));
    }
  }

  /** The inserted message goes behind every waiting message of its own priority. */
  lemma {:induction false} InsertLast(msgs: seq<Msg>, m: Msg, p: u32)
    requires Ordered(msgs)
    ensures OfPrio(Insert(msgs, m), p) == OfPrio(msgs, p) + One(m, p)
  {
    if msgs == [] || msgs[0].prio < m.prio {
      if p == m.prio { OfPrioAbsent(msgs, p); } else { assert One(m, p) == []; }
      assert ([m] + msgs)[1..] == msgs;
      OfPrioHead([m] + msgs, p);
    } else {
      TailOrdered(msgs);
      InsertLast(msgs[1..], m, p);
      assert Insert(msgs, m)[1..] == Insert(msgs[1..], m);
      OfPrioHead(Insert(msgs, m), p);
      OfPrioHead(msgs, p);
      Shift(One(msgs[0], p), OfPrio(msgs[1..], p), One(m, p));
    }
  }

  lemma {:induction false} InsertBytes(msgs: seq<Msg>, m: Msg)
    ensures Bytes(Insert(msgs, m)) == Bytes(msgs) + SizeOf(m)
  {
    if msgs == [] || msgs[0].prio < m.prio {
      assert ([m] + msgs)[1..] == msgs;
    } else {
      InsertBytes(msgs[1..], m);
      assert Insert(msgs, m)[1..] == Insert(msgs[1..], m);
    }
  }

  lemma EnqueueKeeps(q: Queue, m: Msg, sent: seq<Msg>, received: seq<Msg>)
    requires QueueOk(q) && MsgOk(m) && |q.msgs| < MAXMSG_MAX && Fifo(sent, received, q.msgs)
    ensures QueueOk(Enqueued(q, m)) && Fifo(sent + [m], received, Enqueued(q, m).msgs)
    ensures Bytes(Enqueued(q, m).msgs) == Bytes(q.msgs) + SizeOf(m)
  {
    hide Insert, Ordered, MsgOk, OfPrio, Bytes;
    var q' := Enqueued(q, m);
    InsertOrdered(q.msgs, m);
    InsertBytes(q.msgs, m);
    InsertIn(q.msgs, m, m);
    forall i | 0 <= i < |q'.msgs| ensures MsgOk(q'.msgs[i]) { InsertIn(q.msgs, m, q'.msgs[i]); }
    forall p: u32 ensures OfPrio(received, p) + OfPrio(q'.msgs, p) == OfPrio(sent + [m], p) {
      InsertLast(q.msgs, m, p);
      OfPrioSnoc(sent, m, p);
      Shift(OfPrio(received, p), OfPrio(q.msgs, p), One(m, p));
    }
  }

  /** A send that passes the checks leaves a queue that is still in order. */
  lemma Fits(q: Queue, m: Msg)
    requires QueueOk(q) && m.prio < PRIO_MAX && m.data != [] && |m.data| <= q.msgsize && q.curmsgs < q.maxmsg
    ensures QueueOk(Enqueued(q, m)) && q.curmsgs >= 0
  { EnqueueKeeps(q, m, q.msgs, []); }

  lemma DequeueKeeps(q: Queue, sent: seq<Msg>, received: seq<Msg>)
    requires QueueOk(q) && q.msgs != [] && Fifo(sent, received, q.msgs)
    ensures QueueOk(Dequeued(q)) && Fifo(sent, received + [q.msgs[0]], Dequeued(q).msgs)
    ensures Bytes(q.msgs) == SizeOf(q.msgs[0]) + Bytes(Dequeued(q).msgs)
  {
    hide OfPrio, Bytes, MsgOk;
    var m := q.msgs[0];
    TailOrdered(q.msgs);
    BytesHead(q.msgs);
    forall p: u32 ensures OfPrio(received + [m], p) + OfPrio(q.msgs[1..], p) == OfPrio(sent, p) {
      OfPrioSnoc(received, m, p);
      OfPrioHead(q.msgs, p);
      Shift(OfPrio(received, p), One(m, p), OfPrio(q.msgs[1..], p));
    }
  }

  lemma Shift(a: seq<Msg>, b: seq<Msg>, c: seq<Msg>)
    ensures a + (b + c) == (a + b) + c
  {}

  lemma TailOrdered(msgs: seq<Msg>)
    requires msgs != [] && Ordered(msgs)
    ensures Ordered(msgs[1..])
  {}

  lemma BytesHead(msgs: seq<Msg>)
    requires msgs != []
    ensures Bytes(msgs) == SizeOf(msgs[0]) + Bytes(msgs[1..])
  {}

  lemma OfPrioHead(msgs: seq<Msg>, p: u32)
    requires msgs != []
    ensures OfPrio(msgs, p) == One(msgs[0], p) + OfPrio(msgs[1..], p)
  {}

  /** A receive takes the oldest message of the highest priority present: nothing waiting has a
      higher priority, and of its own priority it is the first sent and not yet received. */
  lemma ReceiveTakesBest(q: Queue, sent: seq<Msg>, received: seq<Msg>)
    requires QueueOk(q) && q.msgs != [] && Fifo(sent, received, q.msgs)
    ensures forall i | 0 <= i < |q.msgs| :: q.msgs[i].prio <= q.msgs[0].prio
    ensures var p := q.msgs[0].prio;
      |OfPrio(received, p)| < |OfPrio(sent, p)| && OfPrio(sent, p)[|OfPrio(received, p)|] == q.msgs[0]
  {
    var p := q.msgs[0].prio;
    assert OfPrio(received, p) + OfPrio(q.msgs, p) == OfPrio(sent, p);
  }

  // ---------------------------------------------------------------- messages and the caller's buffer

  /** Every waiting message fits a buffer of msgsize bytes, the least a receiver must offer. */
  ghost predicate AllFit(q: Queue) { forall i | 0 <= i < |q.msgs| :: |q.msgs[i].data| <= q.msgsize }

  datatype Op = SendOp(m: Msg) | ReceiveOp | InitOp(maxmsg: int, msgsize: int)

  predicate SendFits(q: Queue, m: Msg) {
    m.data != [] && m.prio < PRIO_MAX && |m.data| <= q.msgsize && q.curmsgs < q.maxmsg
  }

  /** The queue after an operation; one that is refused changes nothing. */
  function Apply(q: Queue, op: Op): Queue {
    match op
    case SendOp(m) => if SendFits(q, m) then Enqueued(q, m) else q
    case ReceiveOp => if q.msgs == [] then q else Dequeued(q)
    case InitOp(maxmsg, msgsize) => Configured(q, maxmsg, msgsize)
  }

  /** The limits are set while a message longer than the new msgsize waits. */
  ghost predicate Shrinks(q: Queue, op: Op) {
    op.InitOp? && LimitsOk(q, op.maxmsg, op.msgsize) && exists i :: 0 <= i < |q.msgs| && |q.msgs[i].data| > op.msgsize
  }

  lemma ApplyFits(q: Queue, op: Op)
    requires AllFit(q)
    ensures AllFit(Apply(q, op)) <==> !Shrinks(q, op)
  {
    hide Insert;
    match op
    case SendOp(m) =>
      var q' := Apply(q, op);
      if SendFits(q, m) {
        forall i | 0 <= i < |q'.msgs| ensures |q'.msgs[i].data| <= q'.msgsize { InsertIn(q.msgs, m, q'.msgs[i]); }
      }
    case ReceiveOp =>
    case InitOp(_, _) =>
  }

  /** Some receive of the history is given a message longer than the least buffer it had to offer. */
  predicate Overruns(q: Queue, ops: seq<Op>)
    decreases |ops|
  {
    && ops != []
    && ((ops[0].ReceiveOp? && q.msgs != [] && |q.msgs[0].data| > q.msgsize) || Overruns(Apply(q, ops[0]), ops[1..]))
  }

  ghost predicate NeverShrinks(q: Queue, ops: seq<Op>)
    decreases |ops|
  { ops == [] || (!Shrinks(q, ops[0]) && NeverShrinks(Apply(q, ops[0]), ops[1..])) }

  function Receives(n: nat): seq<Op> { seq(n, _ => ReceiveOp) }

  lemma OverrunsFirst(q: Queue, op: Op, rest: seq<Op>)
    ensures Overruns(q, [op] + rest) <==>
      (op.ReceiveOp? && q.msgs != [] && |q.msgs[0].data| > q.msgsize) || Overruns(Apply(q, op), rest)
  {
    hide Apply;
    assert ([op] + rest)[1..] == rest;
  }

  lemma {:induction false} FittingNeverOverruns(q: Queue, n: nat)
    requires AllFit(q)
    ensures !Overruns(q, Receives(n))
    decreases n
  {
    hide Apply, Overruns;
    if n == 0 {
      NothingOverruns(q);
    } else {
      ApplyFits(q, ReceiveOp);
      FittingNeverOverruns(Apply(q, ReceiveOp), n - 1);
      assert Receives(n) == [ReceiveOp] + Receives(n - 1);
      OverrunsFirst(q, ReceiveOp, Receives(n - 1));
    }
  }

  lemma NothingOverruns(q: Queue)
    ensures !Overruns(q, Receives(0))
  {}

  /** A message that does not fit is received in the end. */
  lemma {:induction false} LongIsReceived(q: Queue, i: nat)
    requires i < |q.msgs| && |q.msgs[i].data| > q.msgsize
    ensures Overruns(q, Receives(i + 1))
    decreases i
  {
    hide Overruns;
    assert Receives(i + 1) == [ReceiveOp] + Receives(i);
    OverrunsFirst(q, ReceiveOp, Receives(i));
    if i > 0 { LongIsReceived(Apply(q, ReceiveOp), i - 1); }
  }

  /** Once the limits are set they stay, and so does a waiting message that does not fit them, until
      it is received. */
  lemma LongStays(q: Queue, op: Op)
    requires q.configured && !AllFit(q) && !(op.ReceiveOp? && q.msgs != [] && |q.msgs[0].data| > q.msgsize)
    ensures Apply(q, op).configured && !AllFit(Apply(q, op))
  {
    hide Insert;
    var i :| 0 <= i < |q.msgs| && |q.msgs[i].data| > q.msgsize;
    var q' := Apply(q, op);
    match op
    case SendOp(m) =>
      if SendFits(q, m) {
        InsertIn(q.msgs, m, q.msgs[i]);
        var j :| 0 <= j < |q'.msgs| && q'.msgs[j] == q.msgs[i];
      }
    case ReceiveOp => assert q'.msgs[i - 1] == q.msgs[i];
    case InitOp(_, _) =>
  }

  lemma {:induction false} LongOverruns(q: Queue, ops: seq<Op>)
    requires q.configured && !AllFit(q)
    ensures exists n :: Overruns(q, ops + Receives(n))
    decreases |ops|
  {
    hide Apply, Overruns;
    if ops == [] {
      var i :| 0 <= i < |q.msgs| && |q.msgs[i].data| > q.msgsize;
      LongIsReceived(q, i);
      assert ops + Receives(i + 1) == Receives(i + 1);
    } else {
      var op, rest := ops[0], ops[1..];
      if op.ReceiveOp? && q.msgs != [] && |q.msgs[0].data| > q.msgsize {
        OverrunsFirst(q, op, rest + Receives(0));
        assert ops + Receives(0) == [op] + (rest + Receives(0));
      } else {
        LongStays(q, op);
        LongOverruns(Apply(q, op), rest);
        var n :| Overruns(Apply(q, op), rest + Receives(n));
        OverrunsFirst(q, op, rest + Receives(n));
        assert ops + Receives(n) == [op] + (rest + Receives(n));
      }
    }
  }

  lemma ShrinkConfigures(q: Queue, op: Op)
    requires AllFit(q) && Shrinks(q, op)
    ensures Apply(q, op).configured && !AllFit(Apply(q, op))
  { ApplyFits(q, op); }

  /** Over every history: some receive, in it or after it when the queue is then emptied, is given
      more than the least buffer it had to offer, if and only if the limits were set while a longer
      message waited. */
  lemma {:induction false} FitsIff(q: Queue, ops: seq<Op>)
    requires AllFit(q)
    ensures (exists n :: Overruns(q, ops + Receives(n))) <==> !NeverShrinks(q, ops)
    decreases |ops|
  {
    hide AllFit, Shrinks, Apply, Overruns;
    if ops == [] {
      forall n ensures !Overruns(q, ops + Receives(n)) {
        FittingNeverOverruns(q, n);
        assert ops + Receives(n) == Receives(n);
      }
    } else {
      var op, rest := ops[0], ops[1..];
      forall n ensures Overruns(q, ops + Receives(n)) <==> Overruns(Apply(q, op), rest + Receives(n)) {
        OverrunsFirst(q, op, rest + Receives(n));
        HeadFits(q);
        assert ops + Receives(n) == [op] + (rest + Receives(n));
      }
      ApplyFits(q, op);
      if Shrinks(q, op) {
        ShrinkConfigures(q, op);
        LongOverruns(Apply(q, op), rest);
      } else {
        FitsIff(Apply(q, op), rest);
      }
    }
  }

  lemma HeadFits(q: Queue)
    requires AllFit(q)
    ensures q.msgs != [] ==> |q.msgs[0].data| <= q.msgsize
  {}

  /** The other case, from a new queue: a full-size message waits, the limits are then set to one
      byte, and a receiver that offers one byte is given the message. */
  lemma LongMessageWaits(m: Msg)
    requires MsgOk(m) && |m.data| > 1
    ensures var q := Apply(Apply(NewQueue(), SendOp(m)), InitOp(1, 1)); q.msgsize == 1 && q.msgs == [m] && !AllFit(q)
  {
    var q1 := Apply(NewQueue(), SendOp(m));
    assert q1.msgs == [m];
    assert Shrinks(q1, InitOp(1, 1)) by { assert |q1.msgs[0].data| > 1; }
    ApplyFits(q1, InitOp(1, 1));
  }

  // ---------------------------------------------------------------- the budget word

  lemma SubMod(a: int, b: int)
    ensures (a % TWO32 - b) % TWO32 == (a - b) % TWO32
  {}

  /** What was reserved, given back, leaves the word as it was, whether or not it wrapped. */
  lemma AddSub(a: u32, n: nat)
    ensures ((a + n) % TWO32 - n) % TWO32 == a
  { SubMod(a + n, n); }

  /** The shared counter, updated by atomic add and subtract on a 32-bit word. */
  class Budget {
    var bytes: u32

    constructor ()
      ensures bytes == 0
    { bytes := 0; }

    method AddAndFetch(n: u32) returns (r: u32)
      modifies this
      ensures r == bytes == (old(bytes) + n) % TWO32
    { bytes := (bytes + n) % TWO32; r := bytes; }

    method SubAndFetch(n: u32)
      modifies this
      ensures bytes == (old(bytes) - n) % TWO32
    { bytes := (bytes - n) % TWO32; }

    /** _mq_reserve_bytes: a refused reservation leaves the word as it was. */
    method Reserve(n: u32) returns (ok: bool)
      modifies this
      ensures ok <==> (old(bytes) + n) % TWO32 <= BYTES_MAX
      ensures bytes == if ok then (old(bytes) + n) % TWO32 else old(bytes)
    {
      var r := AddAndFetch(n);
      if r > BYTES_MAX {
        AddSub(old(bytes), n);
        SubAndFetch(n);
        return false;
      }
      return true;
    }

    /** _mq_release_bytes */
    method Release(n: u32)
      modifies this
      ensures bytes == (old(bytes) - n) % TWO32
    { SubAndFetch(n); }
  }

  // ---------------------------------------------------------------- the queue object

  class MQueue {
    const budget: Budget
    var maxmsg: int
    var msgsize: int
    var curmsgs: int
    var configured: bool
    var msgs: seq<Msg>
    var notify: Option<Reg>

    ghost function Value(): Queue
      reads this
    { Queue(maxmsg, msgsize, curmsgs, configured, msgs, notify) }

    constructor (b: Budget)
      ensures Value() == NewQueue() && QueueOk(Value()) && budget == b
    {
      budget, maxmsg, msgsize, curmsgs, configured, msgs, notify := b, DEFAULT_MAXMSG, DEFAULT_MSGSIZE, 0, false, [],
        None;
    }

    /** _mq_enqueue: walk past every message whose priority is at least the new one. */
    method Enqueue(m: Msg)
      modifies this`msgs
      ensures msgs == Insert(old(msgs), m)
    {
      var i := 0;
      while i < |msgs| && msgs[i].prio >= m.prio
        invariant 0 <= i <= |msgs| && msgs == old(msgs)
        invariant forall j | 0 <= j < i :: msgs[j].prio >= m.prio
      {
        i := i + 1;
      }
      InsertAt(msgs, m, i);
      msgs := msgs[..i] + [m] + msgs[i..];
    }

    /** _mq_dequeue */
    method Dequeue() returns (m: Option<Msg>)
      modifies this`msgs, this`curmsgs
      ensures old(msgs) == [] ==> m == None && Value() == old(Value())
      ensures old(msgs) != [] ==> m == Some(old(msgs)[0]) && Value() == Dequeued(old(Value()))
    {
      if msgs == [] { return None; }
      m := Some(msgs[0]);
      msgs, curmsgs := msgs[1..], curmsgs - 1;
    }

    /** The outcome of one attempt to send, in the order the checks are made. */
    ghost function SendResult(prio: u32, data: seq<byte>, mode: Mode, kmallocOk: bool, copyOk: bool): int
      reads this, budget
      requires HEADER + |data| < TWO32
    {
      if data == [] || prio >= PRIO_MAX then -EINVAL
      else if mode.ReadOnly? then -EBADF
      else if |data| > msgsize then -EMSGSIZE
      else if curmsgs >= maxmsg then -EAGAIN
      else if (budget.bytes + HEADER + |data|) % TWO32 > BYTES_MAX || !kmallocOk then -ENOMEM
      else if !copyOk then -EFAULT
      else 0
    }

    /** _mq_do_send on a non-blocking descriptor. A send that fails changes neither the queue
        nor the budget word; one that succeeds takes exactly its message's size. */
    method Send(prio: u32, data: seq<byte>, mode: Mode, kmallocOk: bool, copyOk: bool)
      returns (rc: int, signal: Option<Reg>)
      requires QueueOk(Value()) && HEADER + |data| < TWO32
      modifies this, budget
      ensures rc == old(SendResult(prio, data, mode, kmallocOk, copyOk))
      ensures rc != 0 ==> Value() == old(Value()) && budget.bytes == old(budget.bytes) && signal == None
      ensures rc == 0 ==>
        && Value() == Enqueued(old(Value()), Msg(prio, data)) && QueueOk(Value())
        && budget.bytes == (old(budget.bytes) + SizeOf(Msg(prio, data))) % TWO32 && signal == Wakes(old(Value()))
    {
      hide QueueOk, Insert;
      signal := None;
      if data == [] || prio >= PRIO_MAX { return -EINVAL, None; }
      if mode.ReadOnly? { return -EBADF, None; }
      if |data| > msgsize { return -EMSGSIZE, None; }
      if curmsgs >= maxmsg { return -EAGAIN, None; }
      var total: u32 := HEADER + |data|;
      AddSub(budget.bytes, total);
      Fits(Value(), Msg(prio, data));
      var ok := budget.Reserve(total);
      if !ok { return -ENOMEM, None; }
      if !kmallocOk { budget.Release(total); return -ENOMEM, None; }
      if !copyOk { budget.Release(total); return -EFAULT, None; }
      Enqueue(Msg(prio, data));
      curmsgs := curmsgs + 1;
      if curmsgs == 1 && notify.Some? {
        signal := notify;
        notify := None;
      }
      return 0, signal;
    }

    /** _mq_do_receive on a non-blocking descriptor: the head message, whose bytes go back. */
    method Receive(room: u32, mode: Mode, copyOk: bool) returns (rc: int, m: Option<Msg>)
      requires QueueOk(Value())
      modifies this, budget
      ensures rc == if room == 0 then -EINVAL else if mode.WriteOnly? then -EBADF else if room < old(msgsize) then
        -EMSGSIZE
                    else if old(msgs) == [] then -EAGAIN else if !copyOk then -EFAULT else 0
      ensures rc == 0 ==> m == Some(old(msgs)[0]) && (AllFit(old(Value())) ==> |m.value.data| <= room)
      ensures rc == 0 || rc == -EFAULT ==>
        Value() == Dequeued(old(Value())) && QueueOk(Value())
          && budget.bytes == (old(budget.bytes) - SizeOf(old(msgs)[0])) % TWO32
      ensures rc != 0 && rc != -EFAULT ==> Value() == old(Value()) && budget.bytes == old(budget.bytes)
      ensures rc != 0 ==> m == None
    {
      m := None;
      if room == 0 { return -EINVAL, None; }
      if mode.WriteOnly? { return -EBADF, None; }
      if room < msgsize { return -EMSGSIZE, None; }
      if msgs != [] { DequeueKeeps(Value(), msgs, []); }
      var head := Dequeue();
      if head.None? { return -EAGAIN, None; }
      budget.Release(HEADER + |head.value.data|);
      if !copyOk { return -EFAULT, None; }
      return 0, head;
    }

    /** _mq_do_init: the limits are set once. */
    method Init(newMaxmsg: int, newMsgsize: int) returns (rc: int)
      requires QueueOk(Value())
      modifies this`maxmsg, this`msgsize, this`configured
      ensures Value() == Configured(old(Value()), newMaxmsg, newMsgsize) && QueueOk(Value())
      ensures rc == if LimitsOk(old(Value()), newMaxmsg, newMsgsize) then 0 else -EINVAL
    {
      rc := 0;
      if configured { rc := -EINVAL; }
      else if newMaxmsg <= 0 || newMaxmsg > MAXMSG_MAX { rc := -EINVAL; }
      else if newMsgsize <= 0 || newMsgsize > MSGSIZE_MAX { rc := -EINVAL; }
      else { maxmsg, msgsize, configured := newMaxmsg, newMsgsize, true; }
    }

    /** _mq_do_notify */
    method Notify(pid: u32, sig: u32) returns (rc: int, signal: Option<Reg>)
      requires QueueOk(Value())
      modifies this`notify
      ensures Value() == Notified(old(Value()), pid, sig) && QueueOk(Value())
      ensures rc == match NotifyOutcome(old(Value()), pid, sig) case NoTask => -EINVAL case Busy => -EBUSY case _ => 0
      ensures signal == if NotifyOutcome(old(Value()), pid, sig).AtOnce? then Some(Reg(pid, sig)) else None
    {
      signal := None;
      if sig == 0 { notify := None; return 0, None; }
      if pid == 0 { return -EINVAL, None; }
      if notify.Some? { return -EBUSY, None; }
      if curmsgs > 0 { return 0, Some(Reg(pid, sig)); }
      notify := Some(Reg(pid, sig));
      return 0, None;
    }

    /** The loop of _mq_free_node: every message's bytes go back. */
    method FreeAll()
      requires QueueOk(Value())
      modifies this`msgs, budget
      ensures msgs == [] && budget.bytes == (old(budget.bytes) - Bytes(old(msgs))) % TWO32
    {
      while msgs != []
        invariant forall i | 0 <= i < |msgs| :: MsgOk(msgs[i])
        invariant budget.bytes == (old(budget.bytes) - (Bytes(old(msgs)) - Bytes(msgs))) % TWO32
        decreases |msgs|
      {
        SubMod(old(budget.bytes) - (Bytes(old(msgs)) - Bytes(msgs)), SizeOf(msgs[0]));
        budget.Release(HEADER + |msgs[0].data|);
        msgs := msgs[1..];
      }
    }
  }
}
