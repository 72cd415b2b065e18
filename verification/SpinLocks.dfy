/** The interrupt-safe spin mutex: any number of threads, one atomic step at a time. */
module SpinMutex {
  import opened Common

  /** Where a thread stands. `own` is the flags word its own save returned. */
  datatype Pc =
    | Idle
    | Spin(own: u32)
    | Won(own: u32)
    | Held(own: u32)
    | Leaving(own: u32, read: u32)
    | Restoring(own: u32, read: u32)

  /** `irq` is the interrupt-flags word of the thread's processor. */
  datatype Thread = Thread(pc: Pc, irq: u32)

  datatype Lock = Lock(locked: bool, cell: u32, threads: seq<Thread>)

  /** A thread advances by one atomic step, or an idle thread's flags become f. */
  datatype Action = Go(t: nat, masked: u32) | SetIrq(t: nat, f: u32)

  function Put(s: Lock, t: nat, pc: Pc): Lock
    requires t < |s.threads|
  { s.(threads := s.threads[t := s.threads[t].(pc := pc)]) }

  /** Save and mask, try the CAS, store the cell, (hold,) read the cell, unlock, restore.
      Nothing happens where the action is not possible. */
  function Step(s: Lock, a: Action): Lock {
    if a.t >= |s.threads| then s
    else
      var th := s.threads[a.t];
      match a
      case SetIrq(t, f) => if th.pc.Idle? then s.(threads := s.threads[t := Thread(Idle, f)]) else s
      case Go(t, masked) =>
        match th.pc
        case Idle => s.(threads := s.threads[t := Thread(Spin(th.irq), masked)])
        case Spin(own) => if s.locked then s else Put(s.(locked := true), t, Won(own))
        case Won(own) => Put(s.(cell := own), t, Held(own))
        case Held(own) => Put(s, t, Leaving(own, s.cell))
        case Leaving(own, read) => Put(s.(locked := false), t, Restoring(own, read))
        case Restoring(own, read) => s.(threads := s.threads[t := Thread(Idle, read)])
  }

  predicate Inside(pc: Pc) { pc.Won? || pc.Held? || pc.Leaving? }

  ghost predicate PcOk(s: Lock, pc: Pc) {
    && (pc.Held? ==> s.cell == pc.own)
    && (pc.Leaving? || pc.Restoring? ==> pc.read == pc.own)
  }

  /** At most one thread is inside, the word says whether one is, and the flags read back are
      the thread's own. */
  ghost predicate Inv(s: Lock) {
    && (forall t, u | 0 <= t < |s.threads| && 0 <= u < |s.threads| && Inside(s.threads[t].pc)
      && Inside(s.threads[u].pc) :: t == u)
    && (s.locked <==> exists t :: 0 <= t < |s.threads| && Inside(s.threads[t].pc))
    && (forall t | 0 <= t < |s.threads| :: PcOk(s, s.threads[t].pc))
  }

  ghost predicate Initial(s: Lock) {
    !s.locked && forall t | 0 <= t < |s.threads| :: s.threads[t].pc.Idle?
  }

  lemma StepKeepsInv(s: Lock, a: Action)
    requires Inv(s)
    ensures Inv(Step(s, a)) && |Step(s, a).threads| == |s.threads|
  {
    var s' := Step(s, a);
    if a.t < |s.threads| {
      var before, after := s.threads[a.t].pc, s'.threads[a.t].pc;
      assert forall u | 0 <= u < |s.threads| && u != a.t :: s'.threads[u] == s.threads[u];
      if Inside(after) {
        assert s'.locked;
      } else if Inside(before) {
        assert !s'.locked;
      } else if s.locked {
        var w :| 0 <= w < |s.threads| && Inside(s.threads[w].pc);
        assert Inside(s'.threads[w].pc);
      }
    }
  }

  function Run(s: Lock, acts: seq<Action>): Lock
    decreases |acts|
  {
    if acts == [] then s else Run(Step(s, acts[0]), acts[1..])
  }

  lemma {:induction false} RunKeepsInv(s: Lock, acts: seq<Action>)
    requires Inv(s)
    ensures Inv(Run(s, acts)) && |Run(s, acts).threads| == |s.threads|
    decreases |acts|
  {
    if acts != [] { StepKeepsInv(s, acts[0]); RunKeepsInv(Step(s, acts[0]), acts[1..]); }
  }

  /** In every reachable state at most one thread is inside, and the word tells. */
  lemma Exclusion(s: Lock, acts: seq<Action>, t: nat, u: nat)
    requires Initial(s) && t < |s.threads| && u < |s.threads|
    ensures |Run(s, acts).threads| == |s.threads|
    ensures Inside(Run(s, acts).threads[t].pc) && Inside(Run(s, acts).threads[u].pc) ==> t == u
    ensures Inside(Run(s, acts).threads[t].pc) ==> Run(s, acts).locked
  { RunKeepsInv(s, acts); }

  /** The same action n times. */
  function Times(a: Action, n: nat): seq<Action> { seq(n, _ => a) }

  /** A thread left alone with a free lock gets it in three steps, and six steps are a whole
      lock and unlock, after which everything but the cell is as before. */
  lemma Solo(s: Lock, t: nat, masked: u32)
    requires !s.locked && t < |s.threads| && s.threads[t].pc.Idle?
    ensures var own := s.threads[t].irq;
      && Run(s, Times(Go(t, masked), 3)) == Lock(true, own, s.threads[t := Thread(Held(own), masked)])
      && Run(s, Times(Go(t, masked), 6)) == s.(cell := own)
  {
    var a, own := Go(t, masked), s.threads[t].irq;
    RunThree(s, a);
    var m := Run(s, Times(a, 3));
    assert m == Lock(true, own, s.threads[t := Thread(Held(own), masked)]);
    RunThree(m, a);
    assert Times(a, 3) + Times(a, 3) == Times(a, 6);
    RunTwice(s, Times(a, 3), Times(a, 3));
    assert s.threads[t := Thread(Idle, own)] == s.threads;
  }

  lemma RunThree(s: Lock, a: Action)
    ensures Run(s, Times(a, 3)) == Step(Step(Step(s, a), a), a)
  {
    hide Step;
    assert Times(a, 3)[1..] == Times(a, 2) && Times(a, 2)[1..] == Times(a, 1) && Times(a, 1)[1..] == [];
    assert Run(s, Times(a, 3)) == Run(Step(s, a), Times(a, 2));
    assert Run(Step(s, a), Times(a, 2)) == Run(Step(Step(s, a), a), Times(a, 1));
    assert Run(Step(Step(s, a), a), Times(a, 1)) == Run(Step(Step(Step(s, a), a), a), []);
  }

  lemma {:induction false} RunTwice(s: Lock, a: seq<Action>, b: seq<Action>)
    ensures Run(Run(s, a), b) == Run(s, a + b)
    decreases |a|
  {
    hide Step;
    if a == [] {
      assert a + b == b;
    } else {
      RunTwice(Step(s, a[0]), a[1..], b);
      assert (a + b)[1..] == a[1..] + b;
    }
  }

  /** The run up to the first moment thread t is idle. */
  function UntilIdle(s: Lock, acts: seq<Action>, t: nat): Lock
    decreases |acts|
  {
    if acts == [] || (t < |s.threads| && s.threads[t].pc.Idle?) then s
    else UntilIdle(Step(s, acts[0]), acts[1..], t)
  }

  lemma {:induction false} BusyKeepsOwn(s: Lock, acts: seq<Action>, t: nat)
    requires Inv(s) && t < |s.threads| && !s.threads[t].pc.Idle?
    ensures var r := UntilIdle(s, acts, t);
      && |r.threads| == |s.threads|
      && (r.threads[t].pc.Idle? ==> r.threads[t].irq == s.threads[t].pc.own)
      && (!r.threads[t].pc.Idle? ==> r.threads[t].pc.own == s.threads[t].pc.own)
    decreases |acts|
  {
    if acts != [] {
      var s' := Step(s, acts[0]);
      StepKeepsInv(s, acts[0]);
      assert PcOk(s, s.threads[t].pc);
      if !s'.threads[t].pc.Idle? {
        assert s'.threads[t].pc.own == s.threads[t].pc.own;
        BusyKeepsOwn(s', acts[1..], t);
      } else {
        assert UntilIdle(s', acts[1..], t) == s';
      }
    }
  }

  /** A thread that locks and unlocks ends with the interrupt flags it had before, whatever
      the other threads do meanwhile. */
  lemma FlagsRestored(s0: Lock, past: seq<Action>, t: nat, masked: u32, acts: seq<Action>)
    requires Initial(s0) && t < |s0.threads|
    ensures |Run(s0, past).threads| == |s0.threads|
    ensures var s := Run(s0, past);
      var r := UntilIdle(Step(s, Go(t, masked)), acts, t);
      s.threads[t].pc.Idle? && |r.threads| == |s.threads| && r.threads[t].pc.Idle? ==>
        r.threads[t].irq == s.threads[t].irq
  {
    RunKeepsInv(s0, past);
    var s := Run(s0, past);
    if s.threads[t].pc.Idle? {
      StepKeepsInv(s, Go(t, masked));
      BusyKeepsOwn(Step(s, Go(t, masked)), acts, t);
    }
  }
}

/** The reader-writer spin lock: one 32-bit word, bit 31 for a writer, the rest a reader count. */
module SpinRwLock {
  import opened Common

  const WRITE_BIT: int := 0x8000_0000

  datatype Pc =
    | Idle
    | ReadSpin(own: u32)
    | ReadLoaded(own: u32, seen: u32)
    | ReadWon(own: u32)
    | Reading(own: u32)
    | ReadLeaving(own: u32, read: u32)
    | WriteSpin(own: u32)
    | WriteWon(own: u32)
    | Writing(own: u32)
    | WriteLeaving(own: u32, read: u32)
    | Restoring(own: u32, read: u32)

  datatype Thread = Thread(pc: Pc, irq: u32)

  datatype Lock = Lock(word: u32, cell: u32, threads: seq<Thread>)

  datatype Action = Read(t: nat, masked: u32) | Write(t: nat, masked: u32) | Go(t: nat) | SetIrq(t: nat, f: u32)

  function Put(s: Lock, t: nat, pc: Pc): Lock
    requires t < |s.threads|
  { s.(threads := s.threads[t := s.threads[t].(pc := pc)]) }

  /** Each load, compare-exchange, fetch_sub and store is one step; fetch_sub wraps. */
  function Step(s: Lock, a: Action): Lock {
    if a.t >= |s.threads| then s
    else
      var t, th := a.t, s.threads[a.t];
      match a
      case SetIrq(_, f) => if th.pc.Idle? then s.(threads := s.threads[t := Thread(Idle, f)]) else s
      case Read(_, m) => if th.pc.Idle? then s.(threads := s.threads[t := Thread(ReadSpin(th.irq), m)]) else s
      case Write(_, m) => if th.pc.Idle? then s.(threads := s.threads[t := Thread(WriteSpin(th.irq), m)]) else s
      case Go(_) =>
        match th.pc
        case Idle => s
        case ReadSpin(own) => Put(s, t, ReadLoaded(own, s.word))
        case ReadLoaded(own, seen) =>
          if seen < WRITE_BIT && s.word == seen then Put(s.(word := seen + 1), t, ReadWon(own))
          else Put(s, t, ReadSpin(own))
        case ReadWon(own) => Put(s.(cell := own), t, Reading(own))
        case Reading(own) => Put(s, t, ReadLeaving(own, s.cell))
        case ReadLeaving(own, read) => Put(s.(word := (s.word - 1) % TWO32), t, Restoring(own, read))
        case WriteSpin(own) => if s.word == 0 then Put(s.(word := WRITE_BIT), t, WriteWon(own)) else s
        case WriteWon(own) => Put(s.(cell := own), t, Writing(own))
        case Writing(own) => Put(s, t, WriteLeaving(own, s.cell))
        case WriteLeaving(own, read) => Put(s.(word := 0), t, Restoring(own, read))
        case Restoring(own, read) => s.(threads := s.threads[t := Thread(Idle, read)])
  }

  predicate ReadsIn(pc: Pc) { pc.ReadWon? || pc.Reading? || pc.ReadLeaving? }
  predicate WritesIn(pc: Pc) { pc.WriteWon? || pc.Writing? || pc.WriteLeaving? }

  function ReaderFlags(s: Lock): (f: seq<bool>)
    ensures |f| == |s.threads|
  { seq(|s.threads|, t requires 0 <= t < |s.threads| => ReadsIn(s.threads[t].pc)) }

  function Readers(s: Lock): nat { Count(ReaderFlags(s)) }

  ghost predicate WriterIn(s: Lock) { exists t :: 0 <= t < |s.threads| && WritesIn(s.threads[t].pc) }

  ghost predicate PcOk(s: Lock, pc: Pc) {
    && (pc.Writing? ==> s.cell == pc.own)
    && (pc.WriteLeaving? ==> pc.read == pc.own)
  }

  /** With a writer inside there is exactly one, no reader, and the word is WRITE_BIT;
      otherwise the word is the number of readers. */
  ghost predicate Inv(s: Lock) {
    && (forall t, u | 0 <= t < |s.threads| && 0 <= u < |s.threads| && WritesIn(s.threads[t].pc)
      && WritesIn(s.threads[u].pc) :: t == u)
    && (WriterIn(s) ==> s.word == WRITE_BIT && Readers(s) == 0)
    && (!WriterIn(s) ==> s.word == Readers(s) <= WRITE_BIT)
    && (forall t | 0 <= t < |s.threads| :: PcOk(s, s.threads[t].pc))
  }

  ghost predicate Initial(s: Lock) {
    s.word == 0 && forall t | 0 <= t < |s.threads| :: s.threads[t].pc.Idle?
  }

  lemma InitialInv(s: Lock)
    requires Initial(s)
    ensures Inv(s)
  { CountNone(ReaderFlags(s)); }

  /** A step changes the reader count by what its thread's own position changes. */
  lemma ReadersStep(s: Lock, a: Action)
    requires a.t < |s.threads|
    ensures var s' := Step(s, a);
      && |s'.threads| == |s.threads|
      && (forall u | 0 <= u < |s.threads| && u != a.t :: s'.threads[u] == s.threads[u])
      && Readers(s') == Readers(s) - (if ReadsIn(s.threads[a.t].pc) then 1 else 0)
        + (if ReadsIn(s'.threads[a.t].pc) then 1 else 0)
  {
    var s' := Step(s, a);
    CountUpdate(ReaderFlags(s), a.t, ReadsIn(s'.threads[a.t].pc));
    assert ReaderFlags(s') == ReaderFlags(s)[a.t := ReadsIn(s'.threads[a.t].pc)];
  }

  lemma InsideCounts(s: Lock, t: nat)
    requires t < |s.threads| && ReadsIn(s.threads[t].pc)
    ensures Readers(s) > 0
  {
    var f := ReaderFlags(s);
    CountUpdate(f, t, false);
  }

  lemma StepKeepsInv(s: Lock, a: Action)
    requires Inv(s)
    ensures Inv(Step(s, a)) && |Step(s, a).threads| == |s.threads|
  {
    hide Readers;
    if a.t < |s.threads| {
      var s', th := Step(s, a), s.threads[a.t];
      ReadersStep(s, a);
      if ReadsIn(th.pc) { InsideCounts(s, a.t); }
      if WritesIn(th.pc) { assert WriterIn(s); }
      if WritesIn(s'.threads[a.t].pc) { assert WriterIn(s'); }
      if WriterIn(s) && !WritesIn(th.pc) {
        var w :| 0 <= w < |s.threads| && WritesIn(s.threads[w].pc);
        assert WritesIn(s'.threads[w].pc);
      }
      assert PcOk(s, th.pc);
    }
  }

  function Run(s: Lock, acts: seq<Action>): Lock
    decreases |acts|
  {
    if acts == [] then s else Run(Step(s, acts[0]), acts[1..])
  }

  lemma {:induction false} RunKeepsInv(s: Lock, acts: seq<Action>)
    requires Inv(s)
    ensures Inv(Run(s, acts)) && |Run(s, acts).threads| == |s.threads|
    decreases |acts|
  {
    if acts != [] { StepKeepsInv(s, acts[0]); RunKeepsInv(Step(s, acts[0]), acts[1..]); }
  }

  /** For any number of threads and any schedule: a writer excludes every other thread. */
  lemma Exclusion(s: Lock, acts: seq<Action>, t: nat, u: nat)
    requires Initial(s) && t < |s.threads| && u < |s.threads| && t != u
    ensures |Run(s, acts).threads| == |s.threads|
    ensures var r := Run(s, acts);
      WritesIn(r.threads[t].pc) ==> !WritesIn(r.threads[u].pc) && !ReadsIn(r.threads[u].pc) && r.word == WRITE_BIT
  {
    InitialInv(s);
    RunKeepsInv(s, acts);
    var r := Run(s, acts);
    if WritesIn(r.threads[t].pc) && ReadsIn(r.threads[u].pc) { InsideCounts(r, u); }
  }

  /** The word is WRITE_BIT exactly while a writer is inside, and otherwise the number of
      readers, as long as fewer than 2^31 threads read at once. */
  lemma WordMeaning(s: Lock, acts: seq<Action>)
    requires Initial(s)
    ensures var r := Run(s, acts);
      && (!WriterIn(r) ==> r.word == Readers(r))
      && (Readers(r) < WRITE_BIT <==> (r.word == WRITE_BIT <==> WriterIn(r)))
  {
    InitialInv(s);
    RunKeepsInv(s, acts);
  }

  lemma {:induction false} CountBound(f: seq<bool>)
    ensures Count(f) <= |f|
  { if f != [] { CountBound(f[1..]); } }

  /** Fewer than 2^31 threads is enough for the reader count to stay below the bit. */
  lemma FewThreads(s: Lock, acts: seq<Action>)
    requires Initial(s) && |s.threads| < WRITE_BIT
    ensures var r := Run(s, acts);
      (r.word == WRITE_BIT <==> WriterIn(r)) && (!WriterIn(r) ==> r.word == Readers(r) < WRITE_BIT)
  {
    InitialInv(s);
    RunKeepsInv(s, acts);
    CountBound(ReaderFlags(Run(s, acts)));
  }

  function UntilIdle(s: Lock, acts: seq<Action>, t: nat): Lock
    decreases |acts|
  {
    if acts == [] || (t < |s.threads| && s.threads[t].pc.Idle?) then s
    else UntilIdle(Step(s, acts[0]), acts[1..], t)
  }

  /** Alone, a thread that meets no writer and fewer than 2^31 readers joins them in four steps,
      raising the count by one. */
  lemma SoloRead(s: Lock, t: nat, masked: u32)
    requires s.word < WRITE_BIT && t < |s.threads| && s.threads[t].pc.Idle?
    ensures var own := s.threads[t].irq;
      Step(Step(Step(Step(s, Read(t, masked)), Go(t)), Go(t)), Go(t)) ==
        Lock(s.word + 1, own, s.threads[t := Thread(Reading(own), masked)])
  {}

  /** And a reader alone that leaves takes one off again. */
  lemma SoloReadEnd(s: Lock, t: nat)
    requires s.word > 0 && t < |s.threads| && s.threads[t].pc.Reading?
    ensures Step(Step(Step(s, Go(t)), Go(t)), Go(t)) == Lock(s.word - 1, s.cell, s.threads[t := Thread(Idle, s.cell)])
  {}

  /** Alone with a free lock, a writer takes it in three steps and leaves it free in three. */
  lemma SoloWrite(s: Lock, t: nat, masked: u32)
    requires s.word == 0 && t < |s.threads| && s.threads[t].pc.Idle?
    ensures var own := s.threads[t].irq;
      var m := Step(Step(Step(s, Write(t, masked)), Go(t)), Go(t));
      && m == Lock(WRITE_BIT, own, s.threads[t := Thread(Writing(own), masked)])
      && Step(Step(Step(m, Go(t)), Go(t)), Go(t)) == s.(cell := own)
  { assert s.threads[t := s.threads[t]] == s.threads; }

  predicate WriterPath(pc: Pc) { pc.WriteSpin? || WritesIn(pc) || (pc.Restoring? && pc.read == pc.own) }

  lemma {:induction false} WriterKeepsOwn(s: Lock, acts: seq<Action>, t: nat)
    requires Inv(s) && t < |s.threads| && WriterPath(s.threads[t].pc)
    ensures var r := UntilIdle(s, acts, t);
      && |r.threads| == |s.threads|
      && (r.threads[t].pc.Idle? ==> r.threads[t].irq == s.threads[t].pc.own)
    decreases |acts|
  {
    if acts != [] {
      var s' := Step(s, acts[0]);
      StepKeepsInv(s, acts[0]);
      assert PcOk(s, s.threads[t].pc);
      if !s'.threads[t].pc.Idle? {
        assert s'.threads[t].pc.own == s.threads[t].pc.own;
        WriterKeepsOwn(s', acts[1..], t);
      } else {
        assert UntilIdle(s', acts[1..], t) == s';
      }
    }
  }

  /** A writer too gets back the interrupt flags it saved itself. */
  lemma WriterFlagsRestored(s0: Lock, past: seq<Action>, t: nat, masked: u32, acts: seq<Action>)
    requires Initial(s0) && t < |s0.threads|
    ensures |Run(s0, past).threads| == |s0.threads|
    ensures var s := Run(s0, past);
      var r := UntilIdle(Step(s, Write(t, masked)), acts, t);
      s.threads[t].pc.Idle? && |r.threads| == |s.threads| && r.threads[t].pc.Idle? ==>
        r.threads[t].irq == s.threads[t].irq
  {
    InitialInv(s0);
    RunKeepsInv(s0, past);
    var s := Run(s0, past);
    if s.threads[t].pc.Idle? {
      StepKeepsInv(s, Write(t, masked));
      WriterKeepsOwn(Step(s, Write(t, masked)), acts, t);
    }
  }

  // ---------------------------------------------------------------- the readers' flags

  /** Another reader stores its flags into the shared cell. */
  predicate Stores(s: Lock, a: Action, t: nat) {
    a.Go? && a.t != t && a.t < |s.threads| && s.threads[a.t].pc.ReadWon?
  }

  /** What the last other reader stored between now and the moment t loads the cell. */
  function LastStore(s: Lock, acts: seq<Action>, t: nat): Option<u32>
    decreases |acts|
  {
    if acts == [] || t >= |s.threads| || !s.threads[t].pc.Reading? then None
    else
      var later := LastStore(Step(s, acts[0]), acts[1..], t);
      if later.Some? then later
      else if Stores(s, acts[0], t) then Some(s.threads[acts[0].t].pc.own)
      else None
  }

  predicate Carries(pc: Pc, v: u32) { (pc.ReadLeaving? || pc.Restoring?) && pc.read == v }

  lemma {:induction false} LeavesWith(s: Lock, acts: seq<Action>, t: nat, v: u32)
    requires t < |s.threads| && Carries(s.threads[t].pc, v)
    ensures var r := UntilIdle(s, acts, t);
      |r.threads| == |s.threads| && (r.threads[t].pc.Idle? ==> r.threads[t].irq == v)
    decreases |acts|
  {
    if acts != [] {
      var s' := Step(s, acts[0]);
      if s'.threads[t].pc.Idle? {
        assert UntilIdle(s', acts[1..], t) == s';
      } else {
        LeavesWith(s', acts[1..], t, v);
      }
    }
  }

  /** While a reader is inside only readers store the cell. */
  lemma CellStep(s: Lock, a: Action, t: nat)
    requires Inv(s) && t < |s.threads| && s.threads[t].pc.Reading? && a.t != t
    ensures var s' := Step(s, a);
      && |s'.threads| == |s.threads| && s'.threads[t] == s.threads[t]
      && s'.cell == if Stores(s, a, t) then s.threads[a.t].pc.own else s.cell
  {
    hide Readers;
    InsideCounts(s, t);
    assert a.t < |s.threads| && s.threads[a.t].pc.WriteWon? ==> WriterIn(s);
  }

  lemma {:induction false} ReaderGets(s: Lock, acts: seq<Action>, t: nat)
    requires Inv(s) && t < |s.threads| && s.threads[t].pc.Reading?
    ensures var r := UntilIdle(s, acts, t);
      && |r.threads| == |s.threads|
      && (r.threads[t].pc.Idle? ==>
          r.threads[t].irq == match LastStore(s, acts, t) case None => s.cell case Some(v) => v)
    decreases |acts|
  {
    hide Inv;
    if acts != [] {
      var s' := Step(s, acts[0]);
      StepKeepsInv(s, acts[0]);
      if s'.threads[t].pc.Reading? {
        if acts[0].t != t { CellStep(s, acts[0], t); }
        ReaderGets(s', acts[1..], t);
      } else {
        LeavesWith(s', acts[1..], t, s.cell);
      }
    }
  }

  /** A reader that has just stored its flags gets them back, over any schedule, if and only if no
      other reader stored the cell before it loads it, or the last that did had the same flags. */
  lemma ReaderFlagsIff(s: Lock, acts: seq<Action>, t: nat)
    requires Inv(s) && t < |s.threads| && s.threads[t].pc == Reading(s.cell)
    ensures var r, own := UntilIdle(s, acts, t), s.cell;
      && |r.threads| == |s.threads|
      && (r.threads[t].pc.Idle? ==>
          (r.threads[t].irq == own <==> LastStore(s, acts, t) == None || LastStore(s, acts, t) == Some(own)))
  { ReaderGets(s, acts, t); }

  predicate ReaderPath(s: Lock, pc: Pc, own: u32) {
    || pc == ReadSpin(own) || (pc.ReadLoaded? && pc.own == own) || pc == ReadWon(own)
    || (pc == Reading(own) && s.cell == own) || Carries(pc, own)
  }

  lemma {:induction false} AloneKeepsOwn(s: Lock, acts: seq<Action>, own: u32)
    requires |s.threads| == 1 && ReaderPath(s, s.threads[0].pc, own)
    ensures var r := UntilIdle(s, acts, 0); |r.threads| == 1 && (r.threads[0].pc.Idle? ==> r.threads[0].irq == own)
    decreases |acts|
  {
    if acts != [] {
      var s' := Step(s, acts[0]);
      if s'.threads[0].pc.Idle? {
        assert UntilIdle(s', acts[1..], 0) == s';
      } else {
        AloneKeepsOwn(s', acts[1..], own);
      }
    }
  }

  /** A read that begins after `past` and is completed in `acts` ends with the flags it began with. */
  ghost predicate Restores(s0: Lock, past: seq<Action>, t: nat, masked: u32, acts: seq<Action>) {
    var s := Run(s0, past);
    var r := UntilIdle(Step(s, Read(t, masked)), acts, t);
    t < |s.threads| && t < |r.threads| && s.threads[t].pc.Idle? && r.threads[t].pc.Idle? ==>
      r.threads[t].irq == s.threads[t].irq
  }

  ghost predicate ReadersRestored(s0: Lock) {
    forall past: seq<Action>, t: nat, masked: u32, acts: seq<Action> :: Restores(s0, past, t, masked, acts)
  }

  lemma NotYet(s: Lock, acts: seq<Action>, i: nat, t: nat)
    requires i < |acts| && t < |s.threads| && !s.threads[t].pc.Idle?
    ensures UntilIdle(s, acts[i..], t) == UntilIdle(Step(s, acts[i]), acts[i + 1..], t)
  { assert acts[i..][1..] == acts[i + 1..]; }

  function Overlap(masked: u32, f: u32): seq<Action> {
    [Go(0), Go(0), Go(0), SetIrq(1, f), Read(1, masked), Go(1), Go(1), Go(1), Go(0), Go(0), Go(0)]
  }

  /** Two readers that overlap: the second stores its flags over the first's, which the first then
      takes for its own. */
  lemma ReadersMix(s: Lock, masked: u32, f: u32)
    requires Initial(s) && |s.threads| >= 2
    ensures var r := UntilIdle(Step(s, Read(0, masked)), Overlap(masked, f), 0);
      |r.threads| == |s.threads| && r.threads[0] == Thread(Idle, f)
  {
    hide UntilIdle;
    var acts, own := Overlap(masked, f), s.threads[0].irq;
    var s1 := Step(s, Read(0, masked));
    assert acts[0..] == acts;
    NotYet(s1, acts, 0, 0);
    var s2 := Step(s1, Go(0));
    NotYet(s2, acts, 1, 0);
    var s3 := Step(s2, Go(0));
    NotYet(s3, acts, 2, 0);
    var s4 := Step(s3, Go(0));
    assert s4 == Lock(1, own, s.threads[0 := Thread(Reading(own), masked)]);
    NotYet(s4, acts, 3, 0);
    MixEnds(Step(s4, SetIrq(1, f)), acts, masked, f, own);
  }

  lemma MixEnds(s: Lock, acts: seq<Action>, masked: u32, f: u32, own: u32)
    requires acts == Overlap(masked, f) && |s.threads| >= 2 && s.word == 1
    requires s.threads[0] == Thread(Reading(own), masked) && s.threads[1] == Thread(Idle, f)
    ensures var r := UntilIdle(s, acts[4..], 0); |r.threads| == |s.threads| && r.threads[0] == Thread(Idle, f)
  {
    hide UntilIdle;
    NotYet(s, acts, 4, 0);
    var s1 := Step(s, Read(1, masked));
    NotYet(s1, acts, 5, 0);
    var s2 := Step(s1, Go(1));
    NotYet(s2, acts, 6, 0);
    var s3 := Step(s2, Go(1));
    NotYet(s3, acts, 7, 0);
    var s4 := Step(s3, Go(1));
    assert s4 == Lock(2, f, s.threads[1 := Thread(Reading(f), masked)]);
    NotYet(s4, acts, 8, 0);
    var s5 := Step(s4, Go(0));
    NotYet(s5, acts, 9, 0);
    var s6 := Step(s5, Go(0));
    NotYet(s6, acts, 10, 0);
    var s7 := Step(s6, Go(0));
    Over(s7, acts, 0);
  }

  lemma Over(s: Lock, acts: seq<Action>, t: nat)
    ensures UntilIdle(s, acts[|acts|..], t) == s
  {}

  lemma {:induction false} SameCount(s: Lock, acts: seq<Action>)
    ensures |Run(s, acts).threads| == |s.threads|
    decreases |acts|
  { if acts != [] { SameCount(Step(s, acts[0]), acts[1..]); } }

  /** So readers have their flags restored in all schedules if and only if there is no second
      thread. */
  lemma RestoredIff(s0: Lock)
    requires Initial(s0)
    ensures ReadersRestored(s0) <==> |s0.threads| <= 1
  {
    hide Run, UntilIdle, Step;
    if |s0.threads| <= 1 {
      forall past: seq<Action>, t: nat, masked: u32, acts: seq<Action>
        ensures Restores(s0, past, t, masked, acts)
      {
        AloneRestores(s0, past, t, masked, acts);
      }
    } else {
      var f := if s0.threads[0].irq == 0 then 1 else 0;
      ReadersMix(s0, 0, f);
      NothingPast(s0);
      assert !Restores(s0, [], 0, 0, Overlap(0, f));
    }
  }

  lemma NothingPast(s: Lock)
    ensures Run(s, []) == s
  {}

  lemma AloneRestores(s0: Lock, past: seq<Action>, t: nat, masked: u32, acts: seq<Action>)
    requires |s0.threads| <= 1
    ensures Restores(s0, past, t, masked, acts)
  {
    SameCount(s0, past);
    var s := Run(s0, past);
    if t < |s.threads| && s.threads[t].pc.Idle? {
      AloneKeepsOwn(Step(s, Read(t, masked)), acts, s.threads[t].irq);
    }
  }
}
