/** timerfd: expirations are counted lazily, when someone looks. The lazy timer is compared
    with an eager one that counts each deadline as its tick comes. */
module TimerFd {
  import opened Common

  const TWO31: int := 0x8000_0000
  const MS_PER_TICK: nat := 10
  const GUARD: nat := 100000
  const EAGAIN: int := 11
  const EINVAL: int := 22

  /** `expiry` 0 is a disarmed timer, `interval` 0 a one-shot. */
  datatype State = State(expiry: u32, interval: u32, count: nat)

  /** Signed comparison of wrapping tick counts. */
  predicate Expired(now: u32, deadline: u32) { (now - deadline) % TWO32 < TWO31 }

  /** _tfd_sweep */
  function SweepFrom(s: State, now: u32, guard: nat): State
    requires guard <= GUARD
    decreases GUARD - guard
  {
    if s.expiry == 0 || !Expired(now, s.expiry) then s
    else if s.interval == 0 then s.(count := s.count + 1, expiry := 0)
    else
      var next := (s.expiry + s.interval) % TWO32;
      if next <= s.expiry || guard + 1 > GUARD then s.(count := s.count + 1, expiry := 0)
      else SweepFrom(s.(count := s.count + 1, expiry := next), now, guard + 1)
  }

  function Sweep(s: State, now: u32): State { SweepFrom(s, now, 0) }

  // ---------------------------------------------------------------- the eager timer

  /** A timer that is driven by every tick, with ticks that never wrap. */
  datatype Clock = Clock(next: nat, interval: nat, count: nat)

  function Tick(e: Clock, tick: nat): Clock {
    if e.next != 0 && tick == e.next then
      Clock(if e.interval == 0 then 0 else e.next + e.interval, e.interval, e.count + 1) else e
  }

  /** The ticks after `from` up to `now`. */
  function Ticked(e: Clock, from: nat, now: nat): Clock
    requires from <= now
    decreases now
  { if from == now then e else Tick(Ticked(e, from, now - 1), now) }

  lemma {:induction false} TickedTwice(e: Clock, a: nat, b: nat, c: nat)
    requires a <= b <= c
    ensures Ticked(Ticked(e, a, b), b, c) == Ticked(e, a, c)
    decreases c
  { if b < c { TickedTwice(e, a, b, c - 1); } }

  lemma {:induction false} NothingDue(e: Clock, from: nat, now: nat)
    requires from <= now && (e.next == 0 || e.next > now || e.next <= from)
    ensures Ticked(e, from, now) == e
    decreases now
  { if from < now { NothingDue(e, from, now - 1); } }

  lemma {:induction false} TickedGrows(e: Clock, from: nat, now: nat)
    requires from <= now
    ensures var r := Ticked(e, from, now);
      && r.interval == e.interval && r.count >= e.count && (e.next == 0 ==> r.next == 0)
      && (e.next != 0 && e.interval > 0 ==> r.next >= e.next)
    decreases now
  { if from < now { TickedGrows(e, from, now - 1); } }

  /** The deadline with number k: first, first + interval, ... */
  function Nth(first: nat, interval: nat, k: nat): nat
    { if k == 0 then first else Nth(first, interval, k - 1) + interval }

  /** The eager count is the number of deadlines at or before now, and its next deadline is the
      first one after now. */
  lemma {:induction false} EagerCounts(first: nat, interval: nat, from: nat, now: nat)
    requires from < first && from <= now && interval > 0
    ensures var r := Ticked(Clock(first, interval, 0), from, now);
      && r.interval == interval && r.next == Nth(first, interval, r.count) > now
      && (r.count > 0 ==> Nth(first, interval, r.count - 1) <= now)
    decreases now
  { if from < now { EagerCounts(first, interval, from, now - 1); } }

  /** The first deadline comes up. */
  lemma Due(e: Clock, from: nat, now: nat)
    requires from < e.next <= now
    ensures Ticked(e, from, now) == Ticked(Tick(e, e.next), e.next, now)
  {
    NothingDue(e, from, e.next - 1);
    TickedTwice(e, from, e.next, now);
  }

  // ---------------------------------------------------------------- one sweep

  function ClockOf(s: State): Clock { Clock(s.expiry, s.interval, s.count) }

  /** The timer's deadline is still ahead of `from`, and 32-bit comparison is sound. */
  predicate InStep(s: State, from: nat, now: nat) {
    && from <= now < TWO32 && now - from < TWO31 && s.interval <= TWO31
    && (s.expiry != 0 ==> from < s.expiry && s.expiry - now <= TWO31)
  }

  lemma NextFire(s: State, from: nat, now: nat)
    requires InStep(s, from, now) && s.expiry != 0 && s.expiry <= now && s.interval != 0
    requires Ticked(ClockOf(s), from, now).next < TWO32
    ensures Expired(now, s.expiry) && s.expiry + s.interval < TWO32
    ensures var s' := s.(count := s.count + 1, expiry := s.expiry + s.interval);
      && InStep(s', s.expiry, now) && Ticked(ClockOf(s), from, now) == Ticked(ClockOf(s'), s.expiry, now)
      && Ticked(ClockOf(s), from, now).count >= s.count + 1
  {
    Due(ClockOf(s), from, now);
    TickedGrows(Tick(ClockOf(s), s.expiry), s.expiry, now);
  }

  lemma NotYet(s: State, from: nat, now: u32)
    requires InStep(s, from, now) && s.expiry > now
    ensures !Expired(now, s.expiry)
  {}

  lemma Now(s: State, from: nat, now: u32)
    requires InStep(s, from, now) && 0 < s.expiry <= now
    ensures Expired(now, s.expiry)
  {}

  /** A sweep does at once what the eager timer did tick by tick, up to the guard's number of
      expirations. */
  lemma {:induction false} SweepIsTicked(s: State, from: nat, now: u32, guard: nat)
    requires InStep(s, from, now) && guard <= GUARD
    requires var e := Ticked(ClockOf(s), from, now); e.next < TWO32 && guard + (e.count - s.count) <= GUARD
    ensures ClockOf(SweepFrom(s, now, guard)) == Ticked(ClockOf(s), from, now)
    decreases GUARD - guard
  {
    hide Ticked, Expired;
    if s.expiry == 0 || s.expiry > now {
      NothingDue(ClockOf(s), from, now);
      if s.expiry != 0 { NotYet(s, from, now); }
    } else if s.interval == 0 {
      Now(s, from, now);
      Due(ClockOf(s), from, now);
      NothingDue(Tick(ClockOf(s), s.expiry), s.expiry, now);
    } else {
      NextFire(s, from, now);
      SweepIsTicked(s.(count := s.count + 1, expiry := s.expiry + s.interval), s.expiry, now, guard + 1);
    }
  }

  /** A sweep that meets more expirations than that disarms a periodic timer. */
  lemma {:induction false} SweepStops(s: State, from: nat, now: u32, guard: nat)
    requires InStep(s, from, now) && guard <= GUARD && s.interval != 0
    requires var e := Ticked(ClockOf(s), from, now); e.next < TWO32 && guard + (e.count - s.count) > GUARD
    ensures SweepFrom(s, now, guard).expiry == 0
    decreases GUARD - guard
  {
    hide Ticked, Expired;
    if s.expiry == 0 || s.expiry > now {
      NothingDue(ClockOf(s), from, now);
    } else {
      NextFire(s, from, now);
      var next := s.(count := s.count + 1, expiry := s.expiry + s.interval);
      if guard + 1 <= GUARD { SweepStops(next, s.expiry, now, guard + 1); }
    }
  }

  /** The guard is exact: a periodic timer's sweep agrees with the eager timer if and only if it
      meets at most 100000 expirations. */
  lemma GuardIff(s: State, from: nat, now: u32)
    requires InStep(s, from, now) && s.interval != 0 && s.expiry != 0 && Ticked(ClockOf(s), from, now).next < TWO32
    ensures ClockOf(Sweep(s, now)) == Ticked(ClockOf(s), from, now) <==>
      Ticked(ClockOf(s), from, now).count - s.count <= GUARD
  {
    TickedGrows(ClockOf(s), from, now);
    if Ticked(ClockOf(s), from, now).count - s.count <= GUARD {
      SweepIsTicked(s, from, now, 0);
    } else {
      SweepStops(s, from, now, 0);
    }
  }

  // ---------------------------------------------------------------- whole runs

  /** Someone looks at the timer; a read takes the pending count. */
  datatype Look = Poll(now: u32) | Read(now: u32)

  datatype Client = Client(s: State, got: nat)

  function Act(c: Client, l: Look): Client {
    var s := Sweep(c.s, l.now);
    if l.Read? then Client(s.(count := 0), c.got + s.count) else c.(s := s)
  }

  function Run(c: Client, looks: seq<Look>): Client
    decreases |looks|
  { if looks == [] then c else Run(Act(c, looks[0]), looks[1..]) }

  /** The looks come in time order and less than 2^31 ticks apart, deadlines do not wrap, and no
      look finds more expirations than the guard allows. */
  ghost predicate Calm(e: Clock, from: nat, looks: seq<Look>)
    decreases |looks|
  {
    looks == [] ||
    (var now := looks[0].now;
     && from <= now && now - from < TWO31
     && var e' := Ticked(e, from, now);
        && e'.next < TWO32 && e'.count - e.count <= GUARD
        && Calm(e', now, looks[1..]))
  }

  /** Where the eager timer stands after the looks. */
  function At(e: Clock, from: nat, looks: seq<Look>): (Clock, nat)
    decreases |looks|
  {
    if looks == [] then (e, from)
    else if looks[0].now < from then (e, from)
    else At(Ticked(e, from, looks[0].now), looks[0].now, looks[1..])
  }

  /** The values read plus the pending count are the eager count, and the stored deadline is the
      eager timer's. */
  ghost predicate Agrees(c: Client, e: Clock) {
    c.s.interval == e.interval && c.got + c.s.count == e.count && c.s.expiry == e.next
  }

  lemma LookAgrees(c: Client, e: Clock, from: nat, l: Look)
    requires Agrees(c, e) && from <= l.now && l.now - from < TWO31 && e.interval <= TWO31
    requires e.next != 0 ==> from < e.next && e.next - from <= TWO31
    requires var e' := Ticked(e, from, l.now); e'.next < TWO32 && e'.count - e.count <= GUARD
    ensures Agrees(Act(c, l), Ticked(e, from, l.now))
  {
    var d := ClockOf(c.s);
    Shifted(d, e, from, l.now);
    SweepIsTicked(c.s, from, l.now, 0);
  }

  /** Two clocks that differ only in their counts stay so. */
  lemma {:induction false} Shifted(d: Clock, e: Clock, from: nat, now: nat)
    requires from <= now && d.next == e.next && d.interval == e.interval
    ensures var a, b := Ticked(d, from, now), Ticked(e, from, now);
      a.next == b.next && a.interval == b.interval && a.count - d.count == b.count - e.count
    decreases now
  { if from < now { Shifted(d, e, from, now - 1); } }

  /** The next deadline stays ahead of now, by no more than one interval or as before. */
  lemma {:induction false} StaysAhead(e: Clock, from: nat, now: nat)
    requires from <= now && e.interval <= TWO31 && (e.next != 0 ==> from < e.next && e.next - from <= TWO31)
    ensures var r := Ticked(e, from, now);
      r.interval == e.interval
      && (r.next != 0 ==> now < r.next && r.next - now <= TWO31)
    decreases now
  { if from < now { StaysAhead(e, from, now - 1); } }

  /** Lazy equals eager, whatever the times of the looks. */
  lemma {:induction false} LazyIsEager(c: Client, e: Clock, from: nat, looks: seq<Look>)
    requires Agrees(c, e) && Calm(e, from, looks) && e.interval <= TWO31
      && (e.next != 0 ==> from < e.next && e.next - from <= TWO31)
    ensures Agrees(Run(c, looks), At(e, from, looks).0)
    decreases |looks|
  {
    hide Agrees, Act, Ticked;
    if looks != [] {
      LookAgrees(c, e, from, looks[0]);
      StaysAhead(e, from, looks[0].now);
      LazyIsEager(Act(c, looks[0]), Ticked(e, from, looks[0].now), looks[0].now, looks[1..]);
    }
  }

  // ---------------------------------------------------------------- arming

  /** Milliseconds to ticks, rounded up; the sum is computed in 32 bits. */
  function Ticks(ms: u32): nat {
    if ms == 0 then 0
    else
      var t := (ms + MS_PER_TICK - 1) % TWO32 / MS_PER_TICK;
      if t == 0 then 1 else t
  }

  /** The rounding is right exactly when the sum does not wrap. */
  lemma TicksIff(ms: u32)
    ensures (ms <= MS_PER_TICK * Ticks(ms) < ms + MS_PER_TICK) <==> ms + MS_PER_TICK - 1 < TWO32
  {}

  /** _spec_to_state */
  function Arm(valueMs: u32, intervalMs: u32, absolute: bool, now: u32): State {
    var v := Ticks(valueMs);
    State(
      if v == 0 then 0
      else if absolute then (if Expired(now, v) then (now - 1) % TWO32 else v)
      else (now + v) % TWO32,
      Ticks(intervalMs), 0)
  }

  /** What was read plus what is pending is the number of deadlines first + k * step that have
      passed, and the stored deadline is the next of them. */
  ghost predicate Reports(c: Client, first: nat, step: nat, now: nat) {
    var n := c.got + c.s.count;
    c.s.expiry == Nth(first, step, n) > now && (n > 0 ==> Nth(first, step, n - 1) <= now)
  }

  function LastLook(t0: nat, looks: seq<Look>): nat { if looks == [] then t0 else looks[|looks| - 1].now }

  /** After a relative arming at t0 that does not wrap: over every calm run of looks the timer
      reports the deadlines t0 + value + k * interval. */
  lemma RelativeTimer(valueMs: u32, intervalMs: u32, t0: u32, looks: seq<Look>)
    requires valueMs > 0 && intervalMs > 0 && t0 + Ticks(valueMs) < TWO32
    requires Calm(Clock(t0 + Ticks(valueMs), Ticks(intervalMs), 0), t0, looks)
    ensures var c := Run(Client(Arm(valueMs, intervalMs, false, t0), 0), looks);
      Reports(c, t0 + Ticks(valueMs), Ticks(intervalMs), LastLook(t0, looks))
  {
    hide Agrees, Run, Calm, Reports;
    ArmRelative(valueMs, intervalMs, t0);
    TicksPositive(intervalMs);
    ArmedReports(Arm(valueMs, intervalMs, false, t0), t0, looks);
  }

  /** After an absolute arming at t0 for a later tick: over every calm run of looks the timer
      reports the deadlines value + k * interval, whenever it was armed. */
  lemma AbsoluteTimer(valueMs: u32, intervalMs: u32, t0: u32, looks: seq<Look>)
    requires valueMs > 0 && intervalMs > 0 && t0 < Ticks(valueMs)
    requires Calm(Clock(Ticks(valueMs), Ticks(intervalMs), 0), t0, looks)
    ensures var c := Run(Client(Arm(valueMs, intervalMs, true, t0), 0), looks);
      Reports(c, Ticks(valueMs), Ticks(intervalMs), LastLook(t0, looks))
  {
    hide Agrees, Run, Calm, Reports;
    ArmAbsolute(valueMs, intervalMs, t0);
    TicksPositive(intervalMs);
    ArmedReports(Arm(valueMs, intervalMs, true, t0), t0, looks);
  }

  lemma ArmedReports(s: State, t0: u32, looks: seq<Look>)
    requires s.count == 0 && 0 < s.interval <= TWO31 && t0 < s.expiry && s.expiry - t0 <= TWO31
    requires Calm(ClockOf(s), t0, looks)
    ensures Reports(Run(Client(s, 0), looks), s.expiry, s.interval, LastLook(t0, looks))
  {
    hide Agrees, Run;
    var e, c := ClockOf(s), Client(s, 0);
    Fold(c, e);
    LazyIsEager(c, e, t0, looks);
    AtIsTicked(e, t0, t0, looks);
    EagerCounts(e.next, e.interval, t0, LastLook(t0, looks));
    Unfold(Run(c, looks), At(e, t0, looks).0);
  }

  lemma Fold(c: Client, e: Clock)
    requires c.s.interval == e.interval && c.got + c.s.count == e.count && c.s.expiry == e.next
    ensures Agrees(c, e)
  {}

  lemma ArmRelative(valueMs: u32, intervalMs: u32, t0: u32)
    requires valueMs > 0 && t0 + Ticks(valueMs) < TWO32
    ensures Arm(valueMs, intervalMs, false, t0) == State(t0 + Ticks(valueMs), Ticks(intervalMs), 0)
    ensures 0 < Ticks(valueMs) <= TWO31 && Ticks(intervalMs) <= TWO31
  {}

  lemma ArmAbsolute(valueMs: u32, intervalMs: u32, t0: u32)
    requires valueMs > 0 && t0 < Ticks(valueMs)
    ensures Arm(valueMs, intervalMs, true, t0) == State(Ticks(valueMs), Ticks(intervalMs), 0)
    ensures Ticks(valueMs) - t0 <= TWO31 && Ticks(intervalMs) <= TWO31
  {}

  // ---------------------------------------------------------------- the remaining time

  /** The old value that _timerfd_settime reports, in milliseconds. */
  function Remaining(s: State, now: u32): u32 {
    if s.expiry == 0 || Expired(now, s.expiry) then 0
    else
      var ms := (s.expiry - now) % TWO32 * MS_PER_TICK % TWO32;
      if ms == 0 then 1 else ms
  }

  function IntervalMs(s: State): u32 { s.interval * MS_PER_TICK % TWO32 }

  /** Setting a pending timer back to the old value it reported restores its deadline, if and only
      if the milliseconds, rounded up, still fit 32 bits. */
  lemma RestoreIff(s: State, now: u32)
    requires s.expiry != 0 && !Expired(now, s.expiry)
    ensures Arm(Remaining(s, now), IntervalMs(s), false, now).expiry == s.expiry <==>
      (s.expiry - now) % TWO32 * MS_PER_TICK + MS_PER_TICK - 1 < TWO32
  {
    hide Ticks, Expired;
    var left := (s.expiry - now) % TWO32;
    var v := Ticks(Remaining(s, now));
    NotAtOnce(s, now);
    TicksPositive(Remaining(s, now));
    TicksBound(Remaining(s, now));
    SameDeadline(now, s.expiry, v);
    if left * MS_PER_TICK + MS_PER_TICK - 1 < TWO32 { TicksOfLeft(left); }
    else if left * MS_PER_TICK < TWO32 { TicksWrap(left); }
  }

  lemma NotAtOnce(s: State, now: u32)
    requires s.expiry != 0 && !Expired(now, s.expiry)
    ensures (s.expiry - now) % TWO32 > 0
  {}

  lemma SameDeadline(now: u32, expiry: u32, v: u32)
    ensures (now + v) % TWO32 == expiry <==> v == (expiry - now) % TWO32
  {}

  lemma TicksBound(ms: u32)
    ensures Ticks(ms) <= 429496729
  {}

  lemma TicksOfLeft(left: nat)
    requires 0 < left && left * MS_PER_TICK + MS_PER_TICK - 1 < TWO32
    ensures Ticks(left * MS_PER_TICK) == left
  {}

  lemma TicksWrap(left: nat)
    requires left * MS_PER_TICK < TWO32 <= left * MS_PER_TICK + MS_PER_TICK - 1
    ensures Ticks(left * MS_PER_TICK) < left
  {}

  lemma Unfold(c: Client, e: Clock)
    requires Agrees(c, e)
    ensures c.got + c.s.count == e.count && c.s.expiry == e.next
  {}

  /** The eager timer after the looks has ticked from the start to the last of them. */
  lemma {:induction false} AtIsTicked(e: Clock, t0: nat, from: nat, looks: seq<Look>)
    requires t0 <= from && Calm(Ticked(e, t0, from), from, looks)
    ensures var now := if looks == [] then from else looks[|looks| - 1].now;
      now >= t0 && At(Ticked(e, t0, from), from, looks).0 == Ticked(e, t0, now)
    decreases |looks|
  {
    if looks != [] {
      TickedTwice(e, t0, from, looks[0].now);
      AtIsTicked(e, t0, looks[0].now, looks[1..]);
    }
  }

  /** An absolute deadline that has passed expires at the next look, unless it is set at tick 1,
      where the stored deadline is 0 and the timer is disarmed. */
  lemma PastDeadlineFires(valueMs: u32, intervalMs: u32, now: u32)
    requires valueMs > 0 && Expired(now, Ticks(valueMs))
    ensures Sweep(Arm(valueMs, intervalMs, true, now), now).count > 0 <==> now != 1
  {
    hide Ticks, SweepFrom;
    var s := Arm(valueMs, intervalMs, true, now);
    TicksPositive(valueMs);
    JustPast(now);
    SweepCounts(s, now, 0);
    if now == 1 { SweepDisarmed(s, now); }
  }

  lemma TicksPositive(ms: u32)
    requires ms > 0
    ensures Ticks(ms) > 0
  {}

  lemma JustPast(now: u32)
    ensures Expired(now, (now - 1) % TWO32) && ((now - 1) % TWO32 == 0 <==> now == 1)
  { if now == 0 { assert (now - 1) % TWO32 == TWO32 - 1; } else { assert (now - 1) % TWO32 == now - 1; } }

  lemma SweepDisarmed(s: State, now: u32)
    requires s.expiry == 0
    ensures Sweep(s, now) == s
  {}

  lemma {:induction false} SweepCounts(s: State, now: u32, guard: nat)
    requires guard <= GUARD
    ensures SweepFrom(s, now, guard).count >= s.count
    ensures s.expiry != 0 && Expired(now, s.expiry) ==> SweepFrom(s, now, guard).count > s.count
    decreases GUARD - guard
  {
    if s.expiry != 0 && Expired(now, s.expiry) && s.interval != 0 {
      var next := (s.expiry + s.interval) % TWO32;
      if next > s.expiry && guard + 1 <= GUARD { SweepCounts(s.(count := s.count + 1, expiry := next), now, guard + 1);
        }
    }
  }

  // ---------------------------------------------------------------- the timer object

  class Timer {
    var expiryAt: u32
    var interval: u32
    var count: nat
    const nonblock: bool

    ghost function Value(): State
      reads this
    { State(expiryAt, interval, count) }

    constructor (nb: bool)
      ensures Value() == State(0, 0, 0)
    { expiryAt, interval, count, nonblock := 0, 0, 0, nb; }

    /** _tfd_sweep */
    method SweepNow(now: u32)
      modifies this
      ensures Value() == Sweep(old(Value()), now)
    {
      hide Expired;
      var guard := 0;
      while expiryAt != 0 && Expired(now, expiryAt)
        invariant guard <= GUARD && SweepFrom(Value(), now, guard) == Sweep(old(Value()), now)
        decreases GUARD - guard, expiryAt != 0
      {
        count := count + 1;
        if interval == 0 {
          expiryAt := 0;
          return;
        }
        var next := (expiryAt + interval) % TWO32;
        guard := guard + (if next <= expiryAt then 0 else 1);
        if next <= expiryAt || guard > GUARD {
          expiryAt := 0;
          return;
        }
        expiryAt := next;
      }
    }

    /** _timerfd_read on a non-blocking descriptor. */
    method ReadCount(size: u32, now: u32) returns (rc: int, v: nat)
      modifies this
      ensures size < 8 ==> rc == -EINVAL && Value() == old(Value())
      ensures size >= 8 ==>
        var s := Sweep(old(Value()), now);
        if s.count > 0 then rc == 8 && v == s.count && Value() == s.(count := 0)
        else rc == -EAGAIN && Value() == s
    {
      v := 0;
      if size < 8 { return -EINVAL, 0; }
      SweepNow(now);
      if count > 0 {
        v := count;
        count := 0;
        return 8, v;
      }
      return -EAGAIN, 0;
    }

    /** _timerfd_settime */
    method SetTime(valueMs: u32, intervalMs: u32, absolute: bool, now: u32)
      returns (oldValueMs: u32, oldIntervalMs: u32)
      modifies this
      ensures Value() == Arm(valueMs, intervalMs, absolute, now)
      ensures oldValueMs == Remaining(old(Value()), now) && oldIntervalMs == IntervalMs(old(Value()))
    {
      hide Expired;
      oldValueMs := 0;
      if expiryAt != 0 && !Expired(now, expiryAt) {
        oldValueMs := (expiryAt - now) % TWO32 * MS_PER_TICK % TWO32;
        if oldValueMs == 0 { oldValueMs := 1; }
      }
      oldIntervalMs := interval * MS_PER_TICK % TWO32;
      var v := Ticks(valueMs);
      interval := Ticks(intervalMs);
      count := 0;
      if v == 0 { expiryAt := 0; return; }
      if absolute {
        expiryAt := if Expired(now, v) then (now - 1) % TWO32 else v;
      } else {
        expiryAt := (now + v) % TWO32;
      }
    }
  }
}
