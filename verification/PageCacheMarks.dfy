/** What a returned pc_mark_dirty means when several threads mark one page: the page is sure to be
    written between the mark and the return if and only if no other writeback of it stands between
    its own write and its clearing of the flag when the mark is made. */
module PageCacheMarks {
  import opened Common
  import B = BlkDev
  import opened PageCacheModel
  import opened PageCacheSteps
  import opened PageCacheProtocol
  import opened PageCacheRaces

  /** Thread t has page x pinned for a writeback that has not looked at the flag yet. */
  ghost predicate Awaits(s: Sys, t: nat, x: nat) {
    t in s.threads && s.threads[t].WbStart? && s.threads[t].page == x
  }

  /** The step sets or clears the flag of page x. */
  ghost predicate Marks(s: Sys, u: nat, a: Action, x: nat) {
    u !in s.threads && a.Mark? && Live(s.cache, x) && s.cache.pool[x].key == a.k
  }

  ghost predicate Clears(s: Sys, u: nat, a: Action, x: nat) {
    u in s.threads && s.threads[u].WbStore? && s.threads[u].page == x && a.WbClean?
  }

  lemma AwaitedPage(s: Sys, t: nat, x: nat)
    requires Inv(s) && Awaits(s, t, x)
    ensures Live(s.cache, x) && s.cache.pool[x].pin > 0 && s.cache.pool[x].used && x < POOL
  {
    hide Wf;
    ThreadFact(s, t);
    assert t in Writers(s.threads, x);
    LiveUsed(s, x);
  }

  // ---------------------------------------------------------------- the flag, step by step

  ghost predicate SameFlag(s: Sys, s': Sys, x: nat) {
    && x < |s.cache.pool| && x < |s'.cache.pool| && s'.cache.pool[x].dirty == s.cache.pool[x].dirty
    && s'.cache.pool[x].key == s.cache.pool[x].key && s'.cache.pool[x].data == s.cache.pool[x].data
  }

  /** The step is a client's write into page x. */
  ghost predicate Pokes(s: Sys, a: Action, x: nat) {
    x < |s.cache.pool| && a.Poke? && a.k == s.cache.pool[x].key
  }

  lemma IdleFlag(s: Sys, u: nat, a: Action, x: nat)
    requires Inv(s) && u !in s.threads && Live(s.cache, x) && s.cache.pool[x].pin > 0 && !a.Mark?
    ensures Base(s)
    ensures Pokes(s, a, x) || SameFlag(s, Step(s, u, a), x)
    ensures x < |s.cache.pool| && x < |Step(s, u, a).cache.pool|
    ensures var s' := Step(s, u, a);
      s'.cache.pool[x].dirty == s.cache.pool[x].dirty && s'.cache.pool[x].key == s.cache.pool[x].key
  {
    hide Wf, Inv, Base, LookupStep, PutStep, PokeStep, FlushScan, InvalidateStep;
    Basics(s);
    match a {
      case Lookup(k, size) => LookupFlag(s, u, k, size, x);
      case Put(k) => if k in s.pins { PutFlag(s, k, x); }
      case Poke(k, d) => PokeFlag(s, k, d, x);
      case Flush(dev, inv) => FlushFlag(s, u, dev, 0, inv, x);
      case Invalidate(k) => InvalidateFlag(s, u, k, x);
      case _ =>
    }
  }

  lemma LookupFlag(s: Sys, u: nat, k: Key, size: u32, x: nat)
    requires Wf(s.cache) && x < |s.cache.pool|
    ensures SameFlag(s, LookupStep(s, u, k, size), x)
  {
    hide Wf, Find, Without;
    FindOk(s.cache, k);
  }

  lemma PutFlag(s: Sys, k: Key, x: nat)
    requires Wf(s.cache) && x < |s.cache.pool| && k in s.pins
    ensures SameFlag(s, PutStep(s, k), x)
  {
    hide Wf, Find;
    FindOk(s.cache, k);
  }

  lemma PokeFlag(s: Sys, k: Key, d: Block, x: nat)
    requires Wf(s.cache) && x < |s.cache.pool|
    ensures s.cache.pool[x].key == k || SameFlag(s, PokeStep(s, k, d), x)
    ensures var s' := PokeStep(s, k, d);
      && x < |s'.cache.pool| && s'.cache.pool[x].dirty == s.cache.pool[x].dirty
      && s'.cache.pool[x].key == s.cache.pool[x].key
  {
    hide Wf, Find;
    FindOk(s.cache, k);
  }

  lemma FlushFlag(s: Sys, u: nat, dev: u32, i: nat, inv: bool, x: nat)
    requires x < |s.cache.pool|
    ensures SameFlag(s, FlushScan(s, u, dev, i, inv), x)
  { hide First, FlushFlags; }

  lemma InvalidateFlag(s: Sys, u: nat, k: Key, x: nat)
    requires Wf(s.cache) && Live(s.cache, x) && s.cache.pool[x].pin > 0
    ensures SameFlag(s, InvalidateStep(s, u, k), x)
  {
    hide Wf, Find, Drop;
    SizesOf(s.cache);
    FindOk(s.cache, k);
    if Find(s.cache, k).Some? { DropsOne(s.cache, Find(s.cache, k).value, x); }
  }

  lemma DropsOne(c: Cache, j: nat, x: nat)
    requires Sizes(c) && j < POOL && x < POOL
    ensures |Drop(c, j).pool| == |c.pool| && (j != x ==> Drop(c, j).pool[x] == c.pool[x])
  { hide Without; }

  lemma MarkFlag(s: Sys, u: nat, k: Key, x: nat)
    requires Inv(s) && u !in s.threads && Live(s.cache, x)
    ensures Base(s)
    ensures var s' := Step(s, u, Mark(k));
      && x < |s'.cache.pool| && s'.cache.pool[x].dirty == (s.cache.pool[x].dirty || s.cache.pool[x].key == k)
      && s'.cache.pool[x].key == s.cache.pool[x].key && s'.cache.pool[x].data == s.cache.pool[x].data
  {
    hide Wf, Inv, Base, Find;
    Basics(s);
    FindOk(s.cache, k);
    LiveUsed(s, x);
  }

  lemma BusyFlag(s: Sys, u: nat, a: Action, x: nat)
    requires Inv(s) && u in s.threads && Live(s.cache, x) && s.cache.pool[x].pin > 0 && s.cache.pool[x].used
    requires !Clears(s, u, a, x)
    ensures Base(s) && SameFlag(s, Step(s, u, a), x)
  {
    hide Wf, Inv, Base, ReserveStep, PublishStep, FillStep, WbFinishStep, DropStep, WritebackStore;
    Basics(s);
    ThreadFact(s, u);
    match s.threads[u] {
      case Missed(k, size) => ReserveFlag(s, u, k, size, x);
      case Filling(y, k, size) => if a.Fill? { FillFlag(s, u, y, k, size, a.kallocOk, x); }
      case Filled(y, k, _) => PublishFlag(s, u, y, k, x);
      case WbEnd(y, cont) => FinishFlag(s, u, y, cont, x);
      case Dropping(dev, i) => DropFlag(s, u, dev, i, x);
      case _ =>
    }
  }

  lemma ReserveFlag(s: Sys, u: nat, k: Key, size: u32, x: nat)
    requires Wf(s.cache) && Live(s.cache, x) && s.cache.pool[x].pin > 0 && s.cache.pool[x].used
    ensures SameFlag(s, ReserveStep(s, u, k, size), x)
  {
    hide Wf, AllocPage, GetChecks, Remove;
    AllocOk(s.cache, s.store);
    SizesOf(AllocPage(s.cache, s.store).cache);
    SizesOf(s.cache);
  }

  lemma FillFlag(s: Sys, u: nat, y: nat, k: Key, size: u32, ok: bool, x: nat)
    requires y < |s.cache.pool| && x < |s.cache.pool| && y != x
    ensures SameFlag(s, FillStep(s, u, y, k, size, ok), x)
  { hide ReadBlock; }

  lemma PublishFlag(s: Sys, u: nat, y: nat, k: Key, x: nat)
    requires Wf(s.cache) && y < POOL && x < |s.cache.pool|
    ensures SameFlag(s, PublishStep(s, u, y, k), x)
  {
    hide Wf, Find, Without, Hash;
    FindOk(s.cache, k);
    SizesOf(s.cache);
  }

  lemma FinishFlag(s: Sys, u: nat, y: nat, cont: Cont, x: nat)
    requires Wf(s.cache) && y < POOL && x < |s.cache.pool| && !cont.DropBlock?
    ensures SameFlag(s, WbFinishStep(s, u, y, cont), x)
  {
    hide Wf, Drop, First, FlushFlags;
    SizesOf(s.cache);
  }

  lemma DropFlag(s: Sys, u: nat, dev: u32, i: nat, x: nat)
    requires Wf(s.cache) && Live(s.cache, x) && s.cache.pool[x].pin > 0
    ensures SameFlag(s, DropStep(s, u, dev, i), x)
  {
    hide Wf, Drop, First;
    SizesOf(s.cache);
    var f := DropFlags(s.cache, dev, i);
    if First(f).Some? {
      assert f[First(f).value];
      DropsOne(s.cache, First(f).value, x);
    }
  }

  // ---------------------------------------------------------------- the flag over a run

  /** Is a mark the last thing that happened to the flag? `was` before the run. */
  ghost predicate Marked(s: Sys, script: seq<(nat, Action)>, x: nat, was: bool)
    requires Base(s)
    decreases script
  {
    if script == [] then was
    else
      var (u, a) := script[0];
      if Breaks(s, u, a) then was
      else
        StepKeepsBase(s, u, a);
        Marked(Step(s, u, a), script[1..], x, if Marks(s, u, a, x) then true else if Clears(s, u, a, x) then false
          else was)
  }

  ghost predicate NotBy(t: nat, script: seq<(nat, Action)>) { forall i | 0 <= i < |script| :: script[i].0 != t }

  lemma FlagStep(s: Sys, t: nat, u: nat, a: Action, x: nat)
    requires Inv(s) && Awaits(s, t, x) && u != t && !Races(s, u, a)
    ensures Base(s) && Inv(Step(s, u, a)) && x < |s.cache.pool|
    ensures var s' := Step(s, u, a);
      && Awaits(s', t, x) && x < |s'.cache.pool|
      && s'.cache.pool[x].key == s.cache.pool[x].key
      && (Pokes(s, a, x) || s'.cache.pool[x].data == s.cache.pool[x].data)
      && s'.cache.pool[x].dirty == (if Marks(s, u, a, x) then true else if Clears(s, u, a, x) then false
        else s.cache.pool[x].dirty)
  {
    hide Inv, Base, Step, Races;
    Basics(s);
    AwaitedPage(s, t, x);
    StepKeepsInv(s, u, a);
    StepOthers(s, u, a);
    if u in s.threads {
      if Clears(s, u, a, x) { ClearsFlag(s, u, a, x); } else { BusyFlag(s, u, a, x); }
    } else if a.Mark? {
      MarkFlag(s, u, a.k, x);
    } else {
      IdleFlag(s, u, a, x);
    }
  }

  lemma ClearsFlag(s: Sys, u: nat, a: Action, x: nat)
    requires Base(s) && Clears(s, u, a, x)
    ensures x < |s.cache.pool| && x < |Step(s, u, a).cache.pool| && !Step(s, u, a).cache.pool[x].dirty
    ensures Step(s, u, a).cache.pool[x].key == s.cache.pool[x].key
    ensures Step(s, u, a).cache.pool[x].data == s.cache.pool[x].data
  { hide Wf; }

  /** While a marking thread waits, the flag is set exactly when the last event was a mark. */
  lemma {:induction false} DirtyIff(s: Sys, t: nat, script: seq<(nat, Action)>, x: nat)
    requires Inv(s) && Awaits(s, t, x) && NotBy(t, script) && NoRace(s, script)
    ensures var r := Run(s, script);
      && Inv(r) && Awaits(r, t, x) && Live(s.cache, x) && Live(r.cache, x)
      && r.cache.pool[x].dirty == Marked(s, script, x, s.cache.pool[x].dirty)
    decreases script
  {
    hide Inv, Base, Step, Races, Breaks, Marks, Clears, Awaits;
    Basics(s);
    AwaitedPage(s, t, x);
    if script != [] {
      var (u, a) := script[0];
      NeverBreaks(s, u, a);
      FlagStep(s, t, u, a, x);
      DirtyIff(Step(s, u, a), t, script[1..], x);
    }
  }

  /** A thread marks a page; others work; then its writeback looks at the page. The contents of
      that moment go to the disk if the last event on the flag was a mark, and nothing is written
      if another thread's writeback has cleared it. */
  lemma MarkReachesDisk(s: Sys, t: nat, k: Key, x: nat, script: seq<(nat, Action)>)
    requires Inv(s) && t !in s.threads && Find(s.cache, k) == Some(x) && Base(Step(s, t, Mark(k)))
    requires NotBy(t, script) && NoRace(Step(s, t, Mark(k)), script)
    ensures var r := Run(Step(s, t, Mark(k)), script);
      && Live(r.cache, x)
      && Step(r, t, WbIo).store ==
         if Marked(Step(s, t, Mark(k)), script, x, true) then WritebackStore(r.store, r.cache.pool[x]) else r.store
  {
    hide Inv, Base, Run, NoRace, Races, Marked, WritebackStore, Find;
    Basics(s);
    FindOk(s.cache, k);
    CannotRace(s, t, Mark(k));
    StepKeepsInv(s, t, Mark(k));
    var s1 := Step(s, t, Mark(k));
    DirtyIff(s1, t, script, x);
  }

  lemma CannotRace(s: Sys, t: nat, a: Action)
    requires Base(s) && !a.Reserve?
    ensures !Races(s, t, a)
  {}

  // ---------------------------------------------------------------- when a mark is durable

  lemma WritesContents(s: Sys, u: nat, a: Action, x: nat)
    requires Base(s) && WritesPage(s, u, a, x)
    ensures Step(s, u, a).store == WritebackStore(s.store, s.cache.pool[x])
  { hide Wf, WritebackStore; }

  /** Some step of the run writes page x; with contents d, if one is asked for. */
  ghost predicate WrittenIn(s: Sys, script: seq<(nat, Action)>, x: nat, d: Option<Block>)
    requires Base(s)
    decreases script
  {
    script != [] &&
    var (u, a) := script[0];
    || (WritesPage(s, u, a, x) && (d.Some? ==> s.cache.pool[x].data == d))
    || (!Breaks(s, u, a) && (StepKeepsBase(s, u, a); WrittenIn(Step(s, u, a), script[1..], x, d)))
  }

  /** No thread stands between its write of page x and its clearing of the flag. */
  ghost predicate NoClearer(s: Sys, x: nat) { forall u | u in s.threads :: !Clearing(s.threads[u], x) }

  lemma StillNoClearer(s: Sys, u: nat, a: Action, x: nat)
    requires Base(s) && NoClearer(s, x) && !WritesPage(s, u, a, x)
    ensures NoClearer(Step(s, u, a), x)
  {
    hide Base, Step, WritesPage;
    StepOthers(s, u, a);
  }

  lemma WrittenFirst(s: Sys, u: nat, a: Action, rest: seq<(nat, Action)>, x: nat, d: Option<Block>)
    requires Base(s) && !Breaks(s, u, a)
    ensures Base(Step(s, u, a))
    ensures WrittenIn(s, [(u, a)] + rest, x, d) <==>
      (WritesPage(s, u, a, x) && (d.Some? ==> s.cache.pool[x].data == d)) || WrittenIn(Step(s, u, a), rest, x, d)
  {
    hide Base, Step, Breaks, WritesPage;
    StepKeepsBase(s, u, a);
    assert ([(u, a)] + rest)[1..] == rest;
  }

  /** No client writes to the block in the run. */
  predicate NoPoke(script: seq<(nat, Action)>, k: Key) {
    forall i | 0 <= i < |script| :: script[i].1.Poke? ==> script[i].1.k != k
  }

  /** A dirty page that no thread is about to clear is written by the time the waiting thread has
      looked, whatever the others do; with the contents it has, if no client changes them. */
  lemma {:induction false} DirtyIsWritten(s: Sys, t: nat, script: seq<(nat, Action)>, x: nat, d: Option<Block>)
    requires Inv(s) && Awaits(s, t, x) && NotBy(t, script) && NoRace(s, script)
    requires NoClearer(s, x) && Live(s.cache, x) && s.cache.pool[x].dirty
    requires d.Some? ==> s.cache.pool[x].data == d && NoPoke(script, s.cache.pool[x].key)
    ensures Base(s) && WrittenIn(s, script + [(t, WbIo)], x, d)
    decreases script
  {
    hide Inv, Base, Step, Races, Breaks, NoClearer;
    Basics(s);
    if script == [] {
      NotFinishing(s, t, WbIo);
      WrittenFirst(s, t, WbIo, [], x, d);
      assert script + [(t, WbIo)] == [(t, WbIo)] + [];
    } else {
      var (u, a) := script[0];
      var rest := script[1..];
      NeverBreaks(s, u, a);
      WrittenFirst(s, u, a, rest + [(t, WbIo)], x, d);
      assert script + [(t, WbIo)] == [(u, a)] + (rest + [(t, WbIo)]);
      if !WritesPage(s, u, a, x) {
        StillNoClearer(s, u, a, x);
        NotCleared(s, u, a, x);
        FlagStep(s, t, u, a, x);
        AwaitedPage(Step(s, u, a), t, x);
        DirtyIsWritten(Step(s, u, a), t, rest, x, d);
      }
    }
  }

  lemma NotCleared(s: Sys, u: nat, a: Action, x: nat)
    requires NoClearer(s, x)
    ensures !Clears(s, u, a, x)
  {}

  /** The other half: a thread that is about to clear the flag does so, and nothing is written. */
  lemma ClearerUndoes(s: Sys, t: nat, u: nat, x: nat, k: Key, d: Option<Block>) returns (script: seq<(nat, Action)>)
    requires Inv(s) && Awaits(s, t, x) && u in s.threads && u != t && Clearing(s.threads[u], x)
    ensures Base(s) && NotBy(t, script) && NoPoke(script, k) && NoRace(s, script)
    ensures !WrittenIn(s, script + [(t, WbIo)], x, d)
  {
    hide Inv, Base, Step, Races, Breaks, NoRace, WrittenIn;
    Basics(s);
    if s.threads[u].WbStore? {
      StoreUndoes(s, t, u, x, d);
      script := [(u, WbClean)];
    } else {
      CannotRace(s, u, WbLoad);
      NeverBreaks(s, u, WbLoad);
      StepKeepsInv(s, u, WbLoad);
      StepOthers(s, u, WbLoad);
      LoadsFlags(s, u, x);
      var s1 := Step(s, u, WbLoad);
      StoreUndoes(s1, t, u, x, d);
      script := [(u, WbLoad)] + [(u, WbClean)];
      NoRaceFirst(s, u, WbLoad, [(u, WbClean)]);
      WrittenFirst(s, u, WbLoad, [(u, WbClean)] + [(t, WbIo)], x, d);
      assert script + [(t, WbIo)] == [(u, WbLoad)] + ([(u, WbClean)] + [(t, WbIo)]);
    }
  }

  lemma LoadsFlags(s: Sys, u: nat, x: nat)
    requires Base(s) && u in s.threads && s.threads[u].WbClear? && s.threads[u].page == x
    ensures var s' := Step(s, u, WbLoad); u in s'.threads && s'.threads[u].WbStore? && s'.threads[u].page == x
  { hide Wf; }

  lemma NoRaceFirst(s: Sys, u: nat, a: Action, rest: seq<(nat, Action)>)
    requires Base(s) && !Breaks(s, u, a) && !Races(s, u, a) && Base(Step(s, u, a)) && NoRace(Step(s, u, a), rest)
    ensures NoRace(s, [(u, a)] + rest)
  {
    hide Base, Step, Races, Breaks;
    assert ([(u, a)] + rest)[1..] == rest;
  }

  lemma StoreUndoes(s: Sys, t: nat, u: nat, x: nat, d: Option<Block>)
    requires Inv(s) && Awaits(s, t, x) && u in s.threads && u != t && s.threads[u].WbStore? && s.threads[u].page == x
    ensures Base(s) && NoRace(s, [(u, WbClean)]) && !WrittenIn(s, [(u, WbClean)] + [(t, WbIo)], x, d)
  {
    hide Inv, Base, Step, Races, Breaks;
    Basics(s);
    CannotRace(s, u, WbClean);
    NeverBreaks(s, u, WbClean);
    StepKeepsInv(s, u, WbClean);
    StepOthers(s, u, WbClean);
    ClearsFlag(s, u, WbClean, x);
    var s1 := Step(s, u, WbClean);
    NotFinishing(s1, t, WbIo);
    WrittenFirst(s, u, WbClean, [(t, WbIo)], x, d);
    Basics(s1);
    WrittenFirst(s1, t, WbIo, [], x, d);
    assert [(t, WbIo)] + [] == [(t, WbIo)];
  }

  /** A returned pc_mark_dirty means that the page was written since the mark, whatever other threads
      did in every run without a race, if and only if at the mark no thread stood between its write
      of the page and its clearing of the flag. */
  lemma MarkDurableIff(s: Sys, t: nat, k: Key, x: nat)
    requires Inv(s) && t !in s.threads && Find(s.cache, k) == Some(x)
    ensures Base(s) && Base(Step(s, t, Mark(k)))
    ensures (forall script: seq<(nat, Action)> |
               NotBy(t, script) && NoRace(Step(s, t, Mark(k)), script) ::
               WrittenIn(Step(s, t, Mark(k)), script + [(t, WbIo)], x, None)) <==> NoClearer(s, x)
  {
    hide Inv, Base, Step, Races, Breaks, NoRace, WrittenIn, Find;
    AfterMark(s, t, k, x);
    var s1 := Step(s, t, Mark(k));
    if NoClearer(s, x) {
      forall script: seq<(nat, Action)> | NotBy(t, script) && NoRace(s1, script)
        ensures WrittenIn(s1, script + [(t, WbIo)], x, None)
      {
        DirtyIsWritten(s1, t, script, x, None);
      }
    } else {
      var u :| u in s.threads && Clearing(s.threads[u], x);
      var script := ClearerUndoes(s1, t, u, x, k, None);
    }
  }

  /** The same for the contents at the mark, in runs in which no client writes to the block: they
      have been written when the call returns, if and only if the same condition holds. */
  lemma ContentsDurableIff(s: Sys, t: nat, k: Key, x: nat)
    requires Inv(s) && t !in s.threads && Find(s.cache, k) == Some(x)
    ensures Base(s) && Base(Step(s, t, Mark(k))) && x < |s.cache.pool| && s.cache.pool[x].data.Some?
    ensures (forall script: seq<(nat, Action)> |
               NotBy(t, script) && NoPoke(script, k) && NoRace(Step(s, t, Mark(k)), script) ::
               WrittenIn(Step(s, t, Mark(k)), script + [(t, WbIo)], x, s.cache.pool[x].data)) <==> NoClearer(s, x)
  {
    hide Inv, Base, Step, Races, Breaks, NoRace, WrittenIn, Find;
    AfterMark(s, t, k, x);
    var s1, d := Step(s, t, Mark(k)), s.cache.pool[x].data;
    if NoClearer(s, x) {
      forall script: seq<(nat, Action)> | NotBy(t, script) && NoPoke(script, k) && NoRace(s1, script)
        ensures WrittenIn(s1, script + [(t, WbIo)], x, d)
      {
        DirtyIsWritten(s1, t, script, x, d);
      }
    } else {
      var u :| u in s.threads && Clearing(s.threads[u], x);
      var script := ClearerUndoes(s1, t, u, x, k, d);
    }
  }

  lemma AfterMark(s: Sys, t: nat, k: Key, x: nat)
    requires Inv(s) && t !in s.threads && Find(s.cache, k) == Some(x)
    ensures Base(s) && Inv(Step(s, t, Mark(k))) && Base(Step(s, t, Mark(k)))
    ensures x < |s.cache.pool| && s.cache.pool[x].data.Some?
    ensures var s' := Step(s, t, Mark(k));
      && Awaits(s', t, x) && Live(s'.cache, x) && s'.cache.pool[x].dirty
      && s'.cache.pool[x].key == k && s'.cache.pool[x].data == s.cache.pool[x].data
      && OthersSame(s, s', t) && (NoClearer(s, x) ==> NoClearer(s', x))
  {
    hide Inv, Base, Step, Races, Find, NoClearer;
    Basics(s);
    CannotRace(s, t, Mark(k));
    StepKeepsInv(s, t, Mark(k));
    Basics(Step(s, t, Mark(k)));
    MarkedPage(s, t, k, x);
    StepOthers(s, t, Mark(k));
    if NoClearer(s, x) { StillNoClearer(s, t, Mark(k), x); }
  }

  lemma MarkedPage(s: Sys, t: nat, k: Key, x: nat)
    requires Base(s) && t !in s.threads && Find(s.cache, k) == Some(x)
    ensures x < |s.cache.pool| && s.cache.pool[x].data.Some?
    ensures var s' := Step(s, t, Mark(k));
      && Awaits(s', t, x) && Live(s'.cache, x) && s'.cache.pool[x].dirty
      && s'.cache.pool[x].key == k && s'.cache.pool[x].data == s.cache.pool[x].data
  {
    hide Wf, Find;
    FindOk(s.cache, k);
    PoolPageOk(s, x);
  }

  // ---------------------------------------------------------------- a lost mark

  /** A clean page with the given contents, and where threads a and b stand. */
  ghost predicate Scene(s: Sys, x: nat, k: Key, dirty: bool, data: Option<Block>, store: Store) {
    && Base(s) && k in s.pins && s.store == store && Live(s.cache, x)
    && s.cache.pool[x].key == k && s.cache.pool[x].dirty == dirty && s.cache.pool[x].data == data
  }

  lemma ScenePage(s: Sys, x: nat, k: Key, dirty: bool, data: Option<Block>, st: Store)
    requires Scene(s, x, k, dirty, data, st)
    ensures Wf(s.cache) && Sizes(s.cache) && Find(s.cache, k) == Some(x)
  {
    FindOk(s.cache, k);
    LiveUsed(s, x);
  }

  lemma SceneMark(s: Sys, t: nat, x: nat, k: Key, dirty: bool, data: Option<Block>, st: Store)
    requires Scene(s, x, k, dirty, data, st) && t !in s.threads
    ensures Scene(Step(s, t, Mark(k)), x, k, true, data, st)
    ensures Step(s, t, Mark(k)).threads == s.threads[t := WbStart(x, MarkDone)]
  {
    hide Wf, Base, Find;
    ScenePage(s, x, k, dirty, data, st);
    StepKeepsBase(s, t, Mark(k));
  }

  lemma ScenePoke(s: Sys, t: nat, x: nat, k: Key, dirty: bool, data: Option<Block>, st: Store, d: Block)
    requires Scene(s, x, k, dirty, data, st) && t !in s.threads
    ensures Scene(Step(s, t, Poke(k, d)), x, k, dirty, Some(d), st) && Step(s, t, Poke(k, d)).threads == s.threads
  {
    hide Wf, Base, Find;
    ScenePage(s, x, k, dirty, data, st);
    StepKeepsBase(s, t, Poke(k, d));
  }

  lemma SceneIo(s: Sys, t: nat, x: nat, k: Key, dirty: bool, data: Option<Block>, st: Store)
    requires Scene(s, x, k, dirty, data, st) && t in s.threads && s.threads[t] == WbStart(x, MarkDone)
    ensures Scene(Step(s, t, WbIo), x, k, dirty, data, if dirty then WritebackStore(st, s.cache.pool[x]) else st)
    ensures Step(s, t, WbIo).threads == s.threads[t := if dirty then WbClear(x, MarkDone) else WbEnd(x, MarkDone)]
  {
    hide Wf, Base, WritebackStore;
    StepKeepsBase(s, t, WbIo);
  }

  lemma SceneClean(s: Sys, t: nat, x: nat, k: Key, dirty: bool, data: Option<Block>, st: Store)
    requires Scene(s, x, k, dirty, data, st) && t in s.threads && s.threads[t] == WbStore(x, MarkDone, true, true)
    ensures !Breaks(s, t, WbClean) && Scene(Step(s, t, WbClean), x, k, false, data, st)
    ensures Step(s, t, WbClean).threads == s.threads[t := WbEnd(x, MarkDone)]
  {
    hide Wf, Base;
    LiveUsed(s, x);
    StepKeepsBase(s, t, WbClean);
  }

  lemma SceneLoad(s: Sys, t: nat, x: nat, k: Key, dirty: bool, data: Option<Block>, st: Store)
    requires Scene(s, x, k, dirty, data, st) && t in s.threads && s.threads[t] == WbClear(x, MarkDone)
    ensures Scene(Step(s, t, WbLoad), x, k, dirty, data, st)
    ensures Step(s, t, WbLoad).threads == s.threads[t := WbStore(x, MarkDone, true, true)]
  {
    hide Wf, Base;
    LiveUsed(s, x);
    StepKeepsBase(s, t, WbLoad);
  }

  lemma SceneFinish(s: Sys, t: nat, x: nat, k: Key, dirty: bool, data: Option<Block>, st: Store)
    requires Scene(s, x, k, dirty, data, st) && t in s.threads && s.threads[t] == WbEnd(x, MarkDone)
    ensures Scene(Step(s, t, WbFinish), x, k, dirty, data, st) && Step(s, t, WbFinish).threads == s.threads - {t}
  {
    hide Wf, Base;
    BaseParts(s);
    StepKeepsBase(s, t, WbFinish);
  }

  lemma SceneBase(s: Sys, x: nat, k: Key, dirty: bool, data: Option<Block>, st: Store)
    requires Scene(s, x, k, dirty, data, st)
    ensures Base(s) && Live(s.cache, x)
  {}

  lemma NotDropping(s: Sys, t: nat, a: Action)
    requires !a.WbClean?
    requires !a.WbFinish? || t !in s.threads || (s.threads[t].WbEnd? && s.threads[t].cont == MarkDone)
    ensures !Breaks(s, t, a)
  {}

  function Rewrite(a: nat, b: nat, k: Key, d: Block): seq<(nat, Action)> {
    [(a, Mark(k)), (a, WbIo), (b, Poke(k, d)), (b, Mark(k)), (a, WbLoad), (a, WbClean),
     (b, WbIo), (b, WbFinish), (a, WbFinish)]
  }

  /** Two threads mark one block. The first has written the old contents when the block is written
      to and marked again; its writeback then clears the second mark, and the second finds nothing
      to write. Both calls return, the page is clean, and the disk has the old contents. */
  lemma LostMark(s: Sys, a: nat, b: nat, x: nat, k: Key, before: Option<Block>, d: Block)
    requires Scene(s, x, k, false, before, s.store) && a != b && a !in s.threads && b !in s.threads
    ensures Base(s) && x < |s.cache.pool|
    ensures var r := Run(s, Rewrite(a, b, k, d));
      && r.threads == s.threads
      && exists p: Page :: p.key == k && p.data == before && p.size == s.cache.pool[x].size && p.dirty
                           && Scene(r, x, k, false, Some(d), WritebackStore(s.store, p))
  {
    hide Base, Step, WritebackStore, Scene, Breaks, Run;
    var script := Rewrite(a, b, k, d);
    var st := s.store;
    SceneBase(s, x, k, false, before, st);
    RunEmpty(s, script);
    SceneMark(s, a, x, k, false, before, st);
    NotDropping(s, a, Mark(k));
    RunAt(s, script, 0);
    var s1 := Step(s, a, Mark(k));
    SceneFields(s1, x, k, true, before, st);
    MarkedSize(s, a, x, k, false, before, st);
    SceneIo(s1, a, x, k, true, before, st);
    NotDropping(s1, a, WbIo);
    RunAt(s1, script, 1);
    var s2 := Step(s1, a, WbIo);
    var st2 := WritebackStore(st, s1.cache.pool[x]);
    SecondMark(s2, a, b, x, k, before, d, st2, script);
    assert s.threads[a := WbStart(x, MarkDone)][a := WbClear(x, MarkDone)] - {a} == s.threads;
  }

  lemma SceneFields(s: Sys, x: nat, k: Key, dirty: bool, data: Option<Block>, st: Store)
    requires Scene(s, x, k, dirty, data, st)
    ensures Live(s.cache, x) && s.cache.pool[x].key == k && s.cache.pool[x].dirty == dirty
      && s.cache.pool[x].data == data
  {}

  lemma MarkedSize(s: Sys, t: nat, x: nat, k: Key, dirty: bool, data: Option<Block>, st: Store)
    requires Scene(s, x, k, dirty, data, st) && t !in s.threads
    ensures Base(s) && x < |s.cache.pool| && x < |Step(s, t, Mark(k)).cache.pool|
    ensures Step(s, t, Mark(k)).cache.pool[x].size == s.cache.pool[x].size
  {
    hide Wf, Base, Find;
    ScenePage(s, x, k, dirty, data, st);
  }

  lemma SecondMark(s: Sys, a: nat, b: nat, x: nat, k: Key, data: Option<Block>, d: Block, st: Store,
                   script: seq<(nat, Action)>)
    requires Scene(s, x, k, true, data, st) && a != b && b !in s.threads && script == Rewrite(a, b, k, d)
    requires a in s.threads && s.threads[a] == WbClear(x, MarkDone)
    ensures Base(s)
    ensures var r := Run(s, script[2..]); Scene(r, x, k, false, Some(d), st) && r.threads == s.threads - {a}
  {
    hide Base, Step, Scene, Breaks, Run;
    SceneBase(s, x, k, true, data, st);
    ScenePoke(s, b, x, k, true, data, st, d);
    NotDropping(s, b, Poke(k, d));
    RunAt(s, script, 2);
    var s3 := Step(s, b, Poke(k, d));
    SceneMark(s3, b, x, k, true, Some(d), st);
    NotDropping(s3, b, Mark(k));
    RunAt(s3, script, 3);
    var s4 := Step(s3, b, Mark(k));
    SceneBase(s4, x, k, true, Some(d), st);
    SceneLoad(s4, a, x, k, true, Some(d), st);
    NotDropping(s4, a, WbLoad);
    RunAt(s4, script, 4);
    ThirdPart(Step(s4, a, WbLoad), a, b, x, k, d, st, script);
    assert s.threads[b := WbStart(x, MarkDone)][a := WbStore(x, MarkDone, true, true)] - {a, b} == s.threads - {a};
  }

  lemma ThirdPart(s: Sys, a: nat, b: nat, x: nat, k: Key, d: Block, st: Store, script: seq<(nat, Action)>)
    requires Scene(s, x, k, true, Some(d), st) && a != b && script == Rewrite(a, b, k, d)
    requires a in s.threads && s.threads[a] == WbStore(x, MarkDone, true, true)
    requires b in s.threads && s.threads[b] == WbStart(x, MarkDone)
    ensures Base(s)
    ensures var r := Run(s, script[5..]); Scene(r, x, k, false, Some(d), st) && r.threads == s.threads - {a, b}
  {
    hide Base, Step, Scene, Breaks, Run;
    SceneBase(s, x, k, true, Some(d), st);
    SceneClean(s, a, x, k, true, Some(d), st);
    RunAt(s, script, 5);
    var s5 := Step(s, a, WbClean);
    SceneBase(s5, x, k, false, Some(d), st);
    SceneIo(s5, b, x, k, false, Some(d), st);
    NotDropping(s5, b, WbIo);
    RunAt(s5, script, 6);
    var s6 := Step(s5, b, WbIo);
    SceneBase(s6, x, k, false, Some(d), st);
    SceneFinish(s6, b, x, k, false, Some(d), st);
    NotDropping(s6, b, WbFinish);
    RunAt(s6, script, 7);
    var s7 := Step(s6, b, WbFinish);
    SceneBase(s7, x, k, false, Some(d), st);
    SceneFinish(s7, a, x, k, false, Some(d), st);
    NotDropping(s7, a, WbFinish);
    RunAt(s7, script, 8);
    var s8 := Step(s7, a, WbFinish);
    SceneBase(s8, x, k, false, Some(d), st);
    RunEmpty(s8, script);
    assert s8.threads == s.threads - {a, b};
  }

  // ---------------------------------------------------------------- from the start

  function LoadOne(k: Key, size: u32): seq<(nat, Action)> {
    [(0, Lookup(k, size)), (0, Reserve), (0, Fill(true)), (0, Publish)]
  }

  /** The contents of a block as they are read from the disk. */
  function OnDisk(st: Store, k: Key, size: u32): Block {
    ReadBlock(st, Target(st, k.dev), k.block * Spb(size) % TWO32, Spb(size))
  }

  lemma FillReads(s: Sys, t: nat, k: Key, size: u32)
    requires Base(s) && t in s.threads && s.threads[t] == Filling(0, k, size)
    ensures var c := Step(s, t, Fill(true)).cache;
      0 < |c.pool| && c.pool[0].data == Some(OnDisk(s.store, k, size)) && c.pool[0].size == size
  {
    hide Wf, ReadBlock;
    BaseAt(s, t);
  }

  lemma PublishKeeps(s: Sys, t: nat, k: Key, size: u32)
    requires Base(s) && t in s.threads && s.threads[t] == Filled(0, k, size) && Uncached(s.cache, k)
    ensures var s' := Step(s, t, Publish);
      && 0 < |s.cache.pool| && 0 < |s'.cache.pool| && k in s'.pins
      && s'.cache.pool[0].data == s.cache.pool[0].data && s'.cache.pool[0].size == s.cache.pool[0].size
      && !s'.cache.pool[0].dirty
  {
    hide Wf, Base, Without, Find;
    BaseParts(s);
    BaseAt(s, t);
    PoolPageOk(s, 0);
    FindNone(s.cache, k);
  }

  lemma AtUncached(s: Sys, st: Store, threads: map<nat, Pc>, used0: bool, used1: bool, k: Key)
    requires At(s, st, threads, used0, used1, None)
    ensures Uncached(s.cache, k) && s.threads == threads && s.store == st
  {}

  lemma AtLive(s: Sys, st: Store, threads: map<nat, Pc>, used0: bool, used1: bool, k: Key)
    requires At(s, st, threads, used0, used1, Some(k))
    ensures Base(s) && s.store == st && s.threads == threads && Live(s.cache, 0) && s.cache.pool[0].key == k
  {}

  /** A block is loaded into the empty cache. */
  lemma Loads(st: Store, k: Key, size: u32)
    requires GetChecks(st, k, size)
    ensures Base(Boot(st))
    ensures var r := Run(Boot(st), LoadOne(k, size));
      && Scene(r, 0, k, false, Some(OnDisk(st, k, size)), st) && r.cache.pool[0].size == size && r.threads == map[]
  {
    hide Wf, Base, Counted, Step, AllocPage, GetChecks, At, Breaks, Run, OnDisk;
    InitInv(st);
    Basics(Boot(st));
    AtBoot(st);
    var s, script := Boot(st), LoadOne(k, size);
    RunEmpty(s, script);
    var th: map<nat, Pc> := map[];
    AtMiss(s, st, th, 0, k, size);
    NotFinishing(s, 0, script[0].1);
    RunAt(s, script, 0);
    s, th := Step(s, 0, script[0].1), th[0 := Missed(k, size)];
    AtReserve(s, st, th, false, 0, k, size, 0);
    NotFinishing(s, 0, Reserve);
    RunAt(s, script, 1);
    s, th := Step(s, 0, Reserve), th[0 := Filling(0, k, size)];
    LoadsIt(s, st, th, script, k, size);
  }

  lemma LoadsIt(s: Sys, st: Store, th: map<nat, Pc>, script: seq<(nat, Action)>, k: Key, size: u32)
    requires script == LoadOne(k, size) && th == map[0 := Filling(0, k, size)] && At(s, st, th, true, false, None)
    ensures Base(s)
    ensures var r := Run(s, script[2..]);
      && Scene(r, 0, k, false, Some(OnDisk(st, k, size)), st) && r.cache.pool[0].size == size && r.threads == map[]
  {
    hide Wf, Base, Counted, Step, At, Breaks, Run, OnDisk;
    AtUncached(s, st, th, true, false, k);
    AtFill(s, st, th, false, 0, 0, k, size);
    NotFinishing(s, 0, Fill(true));
    FillReads(s, 0, k, size);
    RunAt(s, script, 2);
    var s1, th1 := Step(s, 0, Fill(true)), th[0 := Filled(0, k, size)];
    AtUncached(s1, st, th1, true, false, k);
    AtPublish(s1, st, th1, false, 0, k, size);
    NotFinishing(s1, 0, Publish);
    PublishKeeps(s1, 0, k, size);
    RunAt(s1, script, 3);
    var s2 := Step(s1, 0, Publish);
    AtLive(s2, st, th1 - {0}, true, false, k);
    RunEmpty(s2, script);
  }

  /** The lost mark as a run from the start, for any block a disk has: what is written to the disk
      is what it had, and d is only in the page, which is clean. */
  lemma LostMarkFromStart(st: Store, k: Key, size: u32, d: Block)
    requires GetChecks(st, k, size)
    ensures Base(Boot(st))
    ensures var r := Run(Run(Boot(st), LoadOne(k, size)), Rewrite(1, 2, k, d));
      && r.threads == map[]
      && exists p: Page :: p.key == k && p.data == Some(OnDisk(st, k, size)) && p.size == size && p.dirty
                           && Scene(r, 0, k, false, Some(d), WritebackStore(st, p))
  {
    hide Wf, Base, Run, GetChecks, OnDisk, WritebackStore, Rewrite, LoadOne;
    Loads(st, k, size);
    LostMark(Run(Boot(st), LoadOne(k, size)), 1, 2, 0, k, Some(OnDisk(st, k, size)), d);
  }
}
