/** When the shared byte budget holds. The 32-bit word is exact, and live messages stay within the
    limit in every run, if and only if no more than THREADS_MAX threads are at work: one thread
    more, and refused reservations can carry the word past 2^32. */
module MessageQueueBudget {
  import opened Common
  import opened MessageQueue
  import opened MessageQueues

  /** The most threads for which BYTES_MAX + threads * LARGEST is below 2^32. */
  const THREADS_MAX: nat := 523009

  /** The word counts every byte, and live messages are within the limit. */
  ghost predicate Exact(s: Sys) { s.word == LiveBytes(s) + Over(s) && LiveBytes(s) <= BYTES_MAX }

  // ---------------------------------------------------------------- few threads

  lemma ByThreads(n: nat, over: nat)
    requires n <= THREADS_MAX && over <= LARGEST * n
    ensures over + BYTES_MAX < TWO32
  { assert LARGEST * n <= LARGEST * THREADS_MAX; }

  lemma OverBound(s: Sys)
    requires ThreadsOk(s)
    ensures Over(s) <= LARGEST * |s.threads|
  {
    var g := seq(|s.threads|, t requires 0 <= t < |s.threads| => OverHold(s.threads[t]));
    forall t | 0 <= t < |g| ensures g[t] <= LARGEST { assert PcOk(s, s.threads[t]); }
    TotalBound(g, LARGEST);
  }

  /** An idle thread leaves room for one more reservation. */
  lemma OverBoundIdle(s: Sys, t: nat)
    requires ThreadsOk(s) && t < |s.threads| && s.threads[t].Idle?
    ensures Over(s) + LARGEST <= LARGEST * |s.threads|
  {
    var g := seq(|s.threads|, t requires 0 <= t < |s.threads| => OverHold(s.threads[t]));
    forall t | 0 <= t < |g| ensures g[t] <= LARGEST { assert PcOk(s, s.threads[t]); }
    TotalUpdate(g, t, LARGEST);
    TotalBound(g[t := LARGEST], LARGEST);
  }

  lemma SameThreads(s: Sys, t: nat, a: Action)
    ensures |Step(s, t, a).threads| == |s.threads|
  { hide Insert, Find, Notified, Configured, Locked; }

  lemma ThreadsPart(s: Sys)
    requires Inv(s)
    ensures ThreadsOk(s) && WordOk(s)
  {}

  lemma StepKeepsExact(s: Sys, t: nat, a: Action)
    requires Inv(s) && Exact(s) && |s.threads| <= THREADS_MAX
    ensures Exact(Step(s, t, a))
  {
    hide Inv, Step, LiveBytes, Over, ThreadsOk;
    StepKeepsInv(s, t, a);
    SameThreads(s, t, a);
    var s' := Step(s, t, a);
    ThreadsPart(s);
    ThreadsPart(s');
    if LiveBytes(s') > LiveBytes(s) {
      OverBoundIdle(s, t);
      ByThreads(|s.threads|, Over(s) + LARGEST);
    }
    OverBound(s');
    ByThreads(|s.threads|, Over(s'));
  }

  lemma {:induction false} RunKeepsExact(s: Sys, steps: seq<(nat, Action)>)
    requires Inv(s) && Exact(s) && |s.threads| <= THREADS_MAX
    ensures Exact(Run(s, steps))
    decreases |steps|
  {
    hide Inv, Step, Exact;
    if steps != [] {
      StepKeepsInv(s, steps[0].0, steps[0].1);
      StepKeepsExact(s, steps[0].0, steps[0].1);
      SameThreads(s, steps[0].0, steps[0].1);
      RunKeepsExact(Step(s, steps[0].0, steps[0].1), steps[1..]);
    }
  }

  // ---------------------------------------------------------------- many threads

  const CROWD: nat := THREADS_MAX + 1

  function Blank(): Option<Node> { Some(Node(NewQueue(), None, 1, 1, [], [])) }

  /** 512 of these fill the budget to the last byte. */
  function Filler(): Msg { Msg(0, seq(8180, _ => 0)) }

  function Full(): Option<Node> { Some(Node(Enqueued(NewQueue(), Filler()), None, 1, 1, [Filler()], [])) }

  function Big(): Msg { Msg(0, seq(MSGSIZE_MAX, _ => 0)) }

  /** n open, unlinked, empty queues. */
  function Opened(threads: nat, n: nat): Sys { Start(threads).(nodes := seq(n, _ => Blank())) }

  /** The first m of them hold a message. */
  function Filled(threads: nat, m: nat): Sys
    requires m <= 512
  { Start(threads).(word := 8192 * m, nodes := seq(CROWD, i requires 0 <= i < CROWD => Slot(i, m))) }

  function Slot(i: nat, m: nat): Option<Node> { if i < m then Full() else Blank() }

  function Seat(t: nat, k: nat): Pc { if t < k then Refused(t, LARGEST) else Idle }

  /** The budget is used up and the first k threads have been refused, each on its own queue. */
  function Crowded(threads: nat, k: nat): Sys
    requires k <= THREADS_MAX
  {
    Filled(threads, 512).(word := BYTES_MAX + LARGEST * k,
      threads := seq(threads, t requires 0 <= t < threads => Seat(t, k)))
  }

  lemma FullFacts()
    ensures Full().value.q.msgsize == MSGSIZE_MAX && Full().value.q.curmsgs == 1
      && Full().value.q.maxmsg == DEFAULT_MAXMSG
    ensures Full().value.q.notify == None && Full().value.opens == 1 && Blank().value.opens == 1
      && NodeBytes(Full()) == 8192 && NodeBytes(Blank()) == 0
  { InsertBytes([], Filler()); }

  lemma {:induction false} RunSnoc(s: Sys, steps: seq<(nat, Action)>, t: nat, a: Action)
    ensures Run(s, steps + [(t, a)]) == Step(Run(s, steps), t, a)
    decreases |steps|
  {
    hide Step;
    if steps == [] {
      assert steps + [(t, a)] == [(t, a)] && [(t, a)][1..] == [];
    } else {
      assert (steps + [(t, a)])[1..] == steps[1..] + [(t, a)];
      RunSnoc(Step(s, steps[0].0, steps[0].1), steps[1..], t, a);
    }
  }

  lemma OpenOne(threads: nat, n: nat)
    requires threads > 0
    ensures var s := Opened(threads, n);
      Step(Step(Step(s, 0, Create("q")), 0, Open(n)), 0, Delete("q")) == Opened(threads, n + 1)
  {
    hide Find;
    var s := Opened(threads, n);
    FindIff(s, "q");
    var s1 := Step(s, 0, Create("q"));
    assert s1 == s.(nodes := s.nodes + [Some(Node(NewQueue(), Some("q"), 0, 1, [], []))]);
    var s2 := Step(s1, 0, Open(n));
    assert s2 == s.(nodes := s.nodes + [Some(Node(NewQueue(), Some("q"), 1, 2, [], []))]);
    FindIff(s2, "q");
    assert Alive(s2, n) && s2.nodes[n].value.name == Some("q");
    assert Find(s2, "q") == Some(n);
    assert Step(s2, 0, Delete("q")).nodes == Opened(threads, n + 1).nodes;
  }

  lemma {:induction false} ReachOpened(threads: nat, n: nat) returns (steps: seq<(nat, Action)>)
    requires threads > 0
    ensures Run(Start(threads), steps) == Opened(threads, n)
  {
    hide Step;
    if n == 0 {
      steps := [];
    } else {
      steps := ReachOpened(threads, n - 1);
      var s := Start(threads);
      RunSnoc(s, steps, 0, Create("q"));
      RunSnoc(s, steps + [(0, Create("q"))], 0, Open(n - 1));
      RunSnoc(s, steps + [(0, Create("q"))] + [(0, Open(n - 1))], 0, Delete("q"));
      OpenOne(threads, n - 1);
      steps := steps + [(0, Create("q"))] + [(0, Open(n - 1))] + [(0, Delete("q"))];
    }
  }

  lemma FillOne(threads: nat, m: nat)
    requires threads > 0 && m < 512
    ensures var s := Filled(threads, m); Step(Step(s, 0, Send(m, Filler())), 0, Go(true)) == Filled(threads, m + 1)
  {
    hide Insert;
    var s := Filled(threads, m);
    assert s.nodes[m] == Blank();
    var s1 := Step(s, 0, Send(m, Filler()));
    assert !Locked(s, m);
    assert s1 == s.(word := 8192 * (m + 1), threads := s.threads[0 := Granted(m, Filler())]);
    var s2 := Step(s1, 0, Go(true));
    assert s2.threads == s.threads;
    assert [] + [Filler()] == [Filler()];
    assert s2.nodes[m] == Full();
    forall i | 0 <= i < CROWD ensures s2.nodes[i] == Filled(threads, m + 1).nodes[i]
      { assert s.nodes[i] == Slot(i, m); }
  }

  lemma {:induction false} ReachFilled(threads: nat, m: nat) returns (steps: seq<(nat, Action)>)
    requires threads > 0 && m <= 512
    ensures Run(Start(threads), steps) == Filled(threads, m)
  {
    hide Step, Run;
    if m == 0 {
      steps := ReachOpened(threads, CROWD);
      assert Opened(threads, CROWD).nodes == Filled(threads, 0).nodes;
    } else {
      steps := ReachFilled(threads, m - 1);
      RunSnoc(Start(threads), steps, 0, Send(m - 1, Filler()));
      RunSnoc(Start(threads), steps + [(0, Send(m - 1, Filler()))], 0, Go(true));
      FillOne(threads, m - 1);
      steps := steps + [(0, Send(m - 1, Filler()))] + [(0, Go(true))];
    }
  }

  lemma FreeQueue(threads: nat, k: nat)
    requires k <= THREADS_MAX < threads
    ensures Ready(Crowded(threads, k), k) && Crowded(threads, k).threads[k].Idle?
    ensures var q := Crowded(threads, k).nodes[k].value.q; q.msgsize == MSGSIZE_MAX && q.curmsgs < q.maxmsg
  {
    hide Full;
    FullFacts();
    var s := Crowded(threads, k);
    assert s.nodes[k] == Slot(k, 512) && s.threads[k] == Idle;
    forall t | 0 <= t < |s.threads| ensures On(s.threads[t]) != Some(k) { assert s.threads[t] == Seat(t, k); }
  }

  lemma RefuseOne(threads: nat, k: nat)
    requires k < THREADS_MAX < threads
    ensures Step(Crowded(threads, k), k, Send(k, Big())) == Crowded(threads, k + 1)
  {
    hide Insert, MessageQueues.Ready;
    var s := Crowded(threads, k);
    FreeQueue(threads, k);
    assert Step(s, k, Send(k, Big())).threads == Crowded(threads, k + 1).threads;
  }

  lemma {:induction false} ReachCrowded(threads: nat, k: nat) returns (steps: seq<(nat, Action)>)
    requires k <= THREADS_MAX < threads
    ensures Run(Start(threads), steps) == Crowded(threads, k)
  {
    hide Step, Run;
    if k == 0 {
      steps := ReachFilled(threads, 512);
      assert Filled(threads, 512).threads == Crowded(threads, 0).threads;
    } else {
      steps := ReachCrowded(threads, k - 1);
      RunSnoc(Start(threads), steps, k - 1, Send(k - 1, Big()));
      RefuseOne(threads, k - 1);
      steps := steps + [(k - 1, Send(k - 1, Big()))];
    }
  }

  lemma {:induction false} FilledBytes(threads: nat, m: nat)
    requires m <= 512
    ensures Queued(Filled(threads, m)) == 8192 * m
  {
    hide NodeBytes, Full, Blank;
    FullFacts();
    var s := Filled(threads, m);
    if m == 0 {
      forall i | 0 <= i < |s.nodes| ensures NodeBytes(s.nodes[i]) == 0 { assert s.nodes[i] == Slot(i, 0); }
      TotalZero(seq(|s.nodes|, i requires 0 <= i < |s.nodes| => NodeBytes(s.nodes[i])));
    } else {
      var o := Filled(threads, m - 1);
      FilledBytes(threads, m - 1);
      assert o.nodes[m - 1] == Slot(m - 1, m - 1);
      QueuedSet(o, m - 1, Full());
      assert s.nodes == o.nodes[m - 1 := Full()];
      SumsDepend(s, o.(nodes := o.nodes[m - 1 := Full()]), s);
    }
  }

  lemma CrowdedBytes(threads: nat)
    requires THREADS_MAX < threads
    ensures LiveBytes(Crowded(threads, THREADS_MAX)) == BYTES_MAX
  {
    hide NodeBytes;
    var s := Crowded(threads, THREADS_MAX);
    FilledBytes(threads, 512);
    SumsDepend(s, Filled(threads, 512), s);
    TotalZero(seq(|s.threads|, t requires 0 <= t < |s.threads| => LiveHold(s.threads[t])));
  }

  /** The thread after the last that fits finds the word wrapped, and is granted its bytes on top
      of a full budget. */
  lemma GrantOverLimit(threads: nat) returns (steps: seq<(nat, Action)>)
    requires threads > THREADS_MAX
    ensures var s := Run(Start(threads), steps); s.word == 1048 && LiveBytes(s) == BYTES_MAX + LARGEST
  {
    hide Run, Insert, MessageQueues.Ready, LiveBytes, Crowded;
    var k := THREADS_MAX;
    steps := ReachCrowded(threads, k);
    RunSnoc(Start(threads), steps, k, Send(k, Big()));
    FreeQueue(threads, k);
    CrowdedBytes(threads);
    WrapsTo(threads);
    steps := steps + [(k, Send(k, Big()))];
  }

  lemma WrapsTo(threads: nat)
    requires threads > THREADS_MAX
    ensures var s' := Step(Crowded(threads, THREADS_MAX), THREADS_MAX, Send(THREADS_MAX, Big()));
      s'.word == 1048 && LiveBytes(s') == LiveBytes(Crowded(threads, THREADS_MAX)) + LARGEST
  {
    hide Insert, MessageQueues.Ready, Queued, Held, Over;
    var k, s := THREADS_MAX, Crowded(threads, THREADS_MAX);
    FreeQueue(threads, k);
    HeldSet(s, k, Granted(k, Big()));
    var s' := Step(s, k, Send(k, Big()));
    assert s' == s.(word := 1048, threads := s.threads[k := Granted(k, Big())]);
    SumsDepend(s', s, s.(threads := s.threads[k := Granted(k, Big())]));
  }

  /** The budget holds over every run if and only if there are at most THREADS_MAX threads. */
  lemma BudgetIff(threads: nat)
    ensures (forall steps: seq<(nat, Action)> :: Exact(Run(Start(threads), steps))) <==> threads <= THREADS_MAX
  {
    hide Run, Inv, LiveBytes, Over;
    if threads <= THREADS_MAX {
      forall steps: seq<(nat, Action)> ensures Exact(Run(Start(threads), steps)) {
        StartInv(threads);
        StartSums(threads);
        RunKeepsExact(Start(threads), steps);
      }
    } else {
      var steps := GrantOverLimit(threads);
      assert !Exact(Run(Start(threads), steps));
    }
  }

  /** With so few threads: the word never exceeds the live bytes plus what is being rolled back,
      live messages never exceed the limit, and once all threads are idle the word is the bytes
      queued. */
  lemma FewThreads(threads: nat, steps: seq<(nat, Action)>)
    requires threads <= THREADS_MAX
    ensures var s := Run(Start(threads), steps);
      && s.word == LiveBytes(s) + Over(s) && LiveBytes(s) <= BYTES_MAX
      && (AllIdle(s) ==> s.word == Queued(s))
  {
    hide Run, AllIdle, Queued, Held, Over, Inv;
    StartInv(threads);
    StartSums(threads);
    RunKeepsExact(Start(threads), steps);
    var s := Run(Start(threads), steps);
    if AllIdle(s) { IdleHoldsNothing(s); }
  }
}
