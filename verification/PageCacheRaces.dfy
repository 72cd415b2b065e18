/** What a race for a half-returned slot leads to, as runs: the late store takes the new owner's
    pin, a held page can then be removed, and in the end a page can be removed twice. */
module PageCacheRaces {
  import opened Common
  import B = BlkDev
  import opened PageCacheModel
  import opened PageCacheSteps
  import opened PageCacheProtocol

  // ---------------------------------------------------------------- what a race costs

  ghost predicate Uncached(c: Cache, k: Key) { forall y: nat | Live(c, y) :: c.pool[y].key != k }

  ghost predicate On(s: Sys, x: nat, k: Key, pin: int, dirty: bool) {
    Live(s.cache, x) && s.cache.pool[x].key == k && s.cache.pool[x].pin == pin && s.cache.pool[x].dirty == dirty
  }

  lemma FindNone(c: Cache, k: Key)
    requires Wf(c) && Uncached(c, k)
    ensures Find(c, k).None?
  { FindOk(c, k); }

  lemma ReserveEffect(s: Sys, t: nat, k: Key, size: u32, x: nat)
    requires Base(s) && t in s.threads && s.threads[t] == Missed(k, size) && GetChecks(s.store, k, size)
    requires AllocPage(s.cache, s.store).slot == Some(x) && Uncached(s.cache, k)
    ensures var s' := Step(s, t, Reserve);
            s'.threads == s.threads[t := Filling(x, k, size)] && s'.pins == s.pins && Uncached(s'.cache, k)
  {
    hide Wf, AllocPage, GetChecks, NoLeak, DirtyOk;
    AllocOk(s.cache, s.store);
    SizesOf(AllocPage(s.cache, s.store).cache);
  }

  lemma SettleEffect(s: Sys, t: nat, u: nat, x: nat, k: Key, size: u32)
    requires Base(s) && t != u && t in s.threads && u in s.threads && s.threads[u] == Half(x)
    requires s.threads[t] == Filling(x, k, size) && Uncached(s.cache, k)
    ensures var s' := Step(s, u, Settle);
            && t in s'.threads && s'.threads[t] == Filling(x, k, size) && s'.threads == s.threads - {u}
            && x < |s'.cache.pool| && s'.cache.pool[x].pin == 0 && s'.pins == s.pins && Uncached(s'.cache, k)
  {
    hide Wf, NoLeak, DirtyOk;
    BaseAt(s, u);
  }

  lemma FillEffect(s: Sys, t: nat, x: nat, k: Key, size: u32)
    requires Base(s) && t in s.threads && s.threads[t] == Filling(x, k, size) && Uncached(s.cache, k)
    ensures var s' := Step(s, t, Fill(true));
            && s'.threads == s.threads[t := Filled(x, k, size)] && s'.pins == s.pins && Uncached(s'.cache, k)
            && x < |s.cache.pool| == |s'.cache.pool| && s'.cache.pool[x].pin == s.cache.pool[x].pin
  {
    hide Wf, NoLeak, DirtyOk, ReadBlock;
    BaseAt(s, t);
  }

  lemma PublishEffect(s: Sys, t: nat, x: nat, k: Key, size: u32)
    requires Base(s) && t in s.threads && s.threads[t] == Filled(x, k, size) && Uncached(s.cache, k)
    ensures var s' := Step(s, t, Publish);
            && s'.threads == s.threads - {t} && s'.pins == More(s.pins, k)
            && x < |s.cache.pool| && Live(s'.cache, x) && s'.cache.pool[x].key == k && !s'.cache.pool[x].dirty
            && s'.cache.pool[x].pin == s.cache.pool[x].pin
  {
    hide Wf, Base, Without, Find;
    BaseParts(s);
    BaseAt(s, t);
    PoolPageOk(s, x);
    FindNone(s.cache, k);
  }

  lemma InvalidateEffect(s: Sys, v: nat, k: Key, x: nat)
    requires Base(s) && v !in s.threads
    requires Live(s.cache, x) && s.cache.pool[x].key == k && s.cache.pool[x].pin == 0 && !s.cache.pool[x].dirty
    ensures var s' := Step(s, v, Invalidate(k)); s'.pins == s.pins && Uncached(s'.cache, k)
  {
    FindOk(s.cache, k);
    LiveUsed(s, x);
    hide Wf, Base, Without, Find, Drop;
    BaseParts(s);
    DropKeepsWf(s.cache, x);
    DropKeys(s.cache, x);
  }

  lemma DropKeys(c: Cache, x: nat)
    requires Sizes(c) && Live(c, x)
    ensures |Drop(c, x).pool| == |c.pool| && forall y: nat | y < |c.pool| && y != x :: Drop(c, x).pool[y] == c.pool[y]
  { hide Without; }

  function Steal(t: nat, u: nat): seq<(nat, Action)> {
    [(t, Reserve), (u, Settle), (t, Fill(true)), (t, Publish)]
  }

  lemma StealEnds(s: Sys, t: nat, u: nat, x: nat, k: Key, size: u32)
    requires Base(s) && t in s.threads && s.threads[t] == Filling(x, k, size) && Uncached(s.cache, k)
    requires x < |s.cache.pool| && s.cache.pool[x].pin == 0
    ensures var r := Run(s, Steal(t, u)[2..]);
            On(r, x, k, 0, false) && r.pins == More(s.pins, k) && r.threads == s.threads - {t}
  {
    hide Wf, Base, Step, Uncached, Run, Breaks;
    var script := Steal(t, u);
    NotFinishing(s, t, Fill(true));
    FillEffect(s, t, x, k, size);
    RunAt(s, script, 2);
    var s3 := Step(s, t, Fill(true));
    NotFinishing(s3, t, Publish);
    PublishEffect(s3, t, x, k, size);
    RunAt(s3, script, 3);
    RunEmpty(Step(s3, t, Publish), script);
    assert s.threads[t := Filled(x, k, size)] - {t} == s.threads - {t};
  }

  lemma StealRuns(s: Sys, t: nat, u: nat, x: nat, k: Key, size: u32)
    requires Base(s) && t != u && t in s.threads && s.threads[t] == Missed(k, size) && GetChecks(s.store, k, size)
    requires AllocPage(s.cache, s.store).slot == Some(x) && Uncached(s.cache, k)
    requires u in s.threads && s.threads[u] == Half(x)
    ensures var r := Run(s, Steal(t, u));
            On(r, x, k, 0, false) && r.pins == More(s.pins, k) && r.threads == s.threads - {t, u}
  {
    hide Wf, Base, Step, AllocPage, GetChecks, Uncached, Run, Breaks, On;
    var script := Steal(t, u);
    RunEmpty(s, script);
    NotFinishing(s, t, Reserve);
    ReserveEffect(s, t, k, size, x);
    RunAt(s, script, 0);
    var s1 := Step(s, t, Reserve);
    NotFinishing(s1, u, Settle);
    SettleEffect(s1, t, u, x, k, size);
    RunAt(s1, script, 1);
    StealEnds(Step(s1, u, Settle), t, u, x, k, size);
    assert s.threads[t := Filling(x, k, size)] - {u} - {t} == s.threads - {t, u};
  }

  /** From every racing state: the new owner publishes its block and holds it, and the pin is gone
      as soon as the late store lands, so that any other thread can remove the page. */
  lemma RaceLosesPin(s: Sys, t: nat, u: nat, v: nat, x: nat)
    requires Inv(s) && Races(s, t, Reserve) && AllocPage(s.cache, s.store).slot == Some(x)
    requires u != t && u in s.threads && s.threads[u] == Half(x) && v !in s.threads
    requires Uncached(s.cache, s.threads[t].k)
    ensures var k := s.threads[t].k;
            var r := Run(s, Steal(t, u));
            && k in r.pins && On(r, x, k, 0, false) && r.threads == s.threads - {t, u}
            && k in Step(r, v, Invalidate(k)).pins && Uncached(Step(r, v, Invalidate(k)).cache, k)
  {
    hide Wf, Inv, Base, Step, AllocPage, GetChecks, Uncached, Run, Breaks;
    Basics(s);
    var Missed(k, size) := s.threads[t];
    StealRuns(s, t, u, x, k, size);
    InvalidateEffect(Run(s, Steal(t, u)), v, k, x);
  }

  // ---------------------------------------------------------------- and the views

  lemma FindOn(s: Sys, x: nat, k: Key)
    requires Base(s) && Live(s.cache, x) && s.cache.pool[x].key == k
    ensures Wf(s.cache) && Sizes(s.cache) && Find(s.cache, k) == Some(x)
  {
    FindOk(s.cache, k);
    LiveUsed(s, x);
  }

  lemma MarkEffect(s: Sys, t: nat, x: nat, k: Key, pin: int, dirty: bool)
    requires Base(s) && On(s, x, k, pin, dirty) && t !in s.threads
    ensures var s' := Step(s, t, Mark(k));
            On(s', x, k, pin + 1, true) && s'.threads == s.threads[t := WbStart(x, MarkDone)] && s'.pins == s.pins
  {
    hide Wf, Base, Find;
    FindOn(s, x, k);
  }

  lemma PutEffect(s: Sys, t: nat, x: nat, k: Key, pin: int, dirty: bool)
    requires Base(s) && On(s, x, k, pin, dirty) && pin > 0 && t !in s.threads && k in s.pins
    ensures var s' := Step(s, t, Put(k)); On(s', x, k, pin - 1, dirty) && s'.threads == s.threads
  {
    hide Wf, Base, Find;
    FindOn(s, x, k);
  }

  lemma InvalidateDirty(s: Sys, t: nat, x: nat, k: Key)
    requires Base(s) && On(s, x, k, 0, true) && t !in s.threads
    ensures var s' := Step(s, t, Invalidate(k));
            On(s', x, k, 1, true) && s'.threads == s.threads[t := WbStart(x, DropBlock)]
  {
    hide Wf, Base, Find;
    FindOn(s, x, k);
  }

  lemma WbIoEffect(s: Sys, t: nat, x: nat, k: Key, pin: int)
    requires Base(s) && On(s, x, k, pin, true) && t in s.threads && s.threads[t] == WbStart(x, MarkDone)
    ensures var s' := Step(s, t, WbIo);
            On(s', x, k, pin, true) && s'.threads == s.threads[t := WbClear(x, MarkDone)] && s'.pins == s.pins
  { hide Wf, WritebackStore; }

  lemma WbLoadEffect(s: Sys, t: nat, x: nat, k: Key, pin: int, dirty: bool)
    requires Base(s) && On(s, x, k, pin, dirty) && t in s.threads && s.threads[t] == WbClear(x, MarkDone)
    ensures var s' := Step(s, t, WbLoad);
      && On(s', x, k, pin, dirty) && s'.threads == s.threads[t := WbStore(x, MarkDone, true, true)]
      && s'.pins == s.pins
  {
    hide Wf;
    LiveUsed(s, x);
  }

  lemma WbCleanEffect(s: Sys, t: nat, x: nat, k: Key, pin: int, dirty: bool)
    requires Base(s) && On(s, x, k, pin, dirty) && t in s.threads && s.threads[t] == WbStore(x, MarkDone, true, true)
    ensures !Breaks(s, t, WbClean)
    ensures var s' := Step(s, t, WbClean);
            On(s', x, k, pin, false) && s'.threads == s.threads[t := WbEnd(x, MarkDone)]
  {
    hide Wf;
    LiveUsed(s, x);
  }

  lemma WbFinishEffect(s: Sys, t: nat, x: nat, k: Key, pin: int, dirty: bool)
    requires Base(s) && On(s, x, k, pin, dirty) && t in s.threads && s.threads[t] == WbEnd(x, MarkDone)
    ensures !Breaks(s, t, WbFinish)
    ensures var s' := Step(s, t, WbFinish); On(s', x, k, pin - 1, dirty) && s'.threads == s.threads - {t}
  { hide Wf; }

  /** The writeback of thread t stands at positions i to i + 3 of a script. */
  predicate WritebackAt(script: seq<(nat, Action)>, i: nat, t: nat) {
    && i + 4 <= |script|
    && script[i] == (t, WbIo) && script[i + 1] == (t, WbLoad)
    && script[i + 2] == (t, WbClean) && script[i + 3] == (t, WbFinish)
  }

  lemma WritebackRuns(s: Sys, script: seq<(nat, Action)>, i: nat, t: nat, x: nat, k: Key) returns (r: Sys)
    requires Base(s) && On(s, x, k, 1, true) && t in s.threads && s.threads[t] == WbStart(x, MarkDone)
    requires WritebackAt(script, i, t)
    ensures Base(r) && On(r, x, k, 0, false) && r.threads == s.threads - {t}
    ensures Run(s, script[i..]) == Run(r, script[i + 4..])
  {
    hide Wf, Base, Step, Breaks, Run, On;
    NotFinishing(s, t, WbIo);
    RunAt(s, script, i);
    WbIoEffect(s, t, x, k, 1);
    var s1 := Step(s, t, WbIo);
    NotFinishing(s1, t, WbLoad);
    RunAt(s1, script, i + 1);
    WbLoadEffect(s1, t, x, k, 1, true);
    r := WritebackEnds(Step(s1, t, WbLoad), script, i, t, x, k);
    assert s.threads[t := WbClear(x, MarkDone)][t := WbStore(x, MarkDone, true, true)] - {t} == s.threads - {t};
  }

  lemma WritebackEnds(s: Sys, script: seq<(nat, Action)>, i: nat, t: nat, x: nat, k: Key) returns (r: Sys)
    requires Base(s) && On(s, x, k, 1, true) && t in s.threads && s.threads[t] == WbStore(x, MarkDone, true, true)
    requires WritebackAt(script, i, t)
    ensures Base(r) && On(r, x, k, 0, false) && r.threads == s.threads - {t}
    ensures Run(s, script[i + 2..]) == Run(r, script[i + 4..])
  {
    hide Wf, Base, Step, Breaks, Run, On;
    WbCleanEffect(s, t, x, k, 1, true);
    RunAt(s, script, i + 2);
    var s3 := Step(s, t, WbClean);
    WbFinishEffect(s3, t, x, k, 1, false);
    RunAt(s3, script, i + 3);
    r := Step(s3, t, WbFinish);
    assert s.threads[t := WbEnd(x, MarkDone)] - {t} == s.threads - {t};
  }

  function MarkAndPut(d: nat, c: nat, k: Key): seq<(nat, Action)> { [(d, Mark(k)), (c, Put(k))] }

  function RemoveTwice(d: nat, v: nat, w: nat, k: Key): seq<(nat, Action)> {
    [(v, Invalidate(k)), (d, WbIo), (d, WbLoad), (d, WbClean), (d, WbFinish), (v, WbIo), (w, Invalidate(k))]
  }

  /** The late store also leaves a dirty page unpinned and, further on, the resumed removal of a
      page that another thread has removed: the views are only kept up to there. */
  lemma UnpinnedStrays(s: Sys, c: nat, d: nat, v: nat, w: nat, x: nat, k: Key)
    requires Base(s) && On(s, x, k, 0, false) && k in s.pins && c != d && d != v && d != w && v != w
    requires c !in s.threads && d !in s.threads && v !in s.threads && w !in s.threads
    ensures var r := Run(s, MarkAndPut(d, c, k));
            On(r, x, k, 0, true) && Stray(Run(r, RemoveTwice(d, v, w, k)), v, WbFinish)
  {
    hide Wf, Base, Step, Breaks, Stray, Run;
    var script := MarkAndPut(d, c, k);
    MarkEffect(s, d, x, k, 0, false);
    NotFinishing(s, d, Mark(k));
    RunAt(s, script, 0);
    var s1 := Step(s, d, Mark(k));
    PutEffect(s1, c, x, k, 1, true);
    NotFinishing(s1, c, Put(k));
    RunAt(s1, script, 1);
    RunEmpty(Step(s1, c, Put(k)), script);
    StraysLater(Step(s1, c, Put(k)), d, v, w, x, k);
  }

  lemma StraysLater(s: Sys, d: nat, v: nat, w: nat, x: nat, k: Key)
    requires Base(s) && On(s, x, k, 0, true) && d != v && d != w && v != w
    requires d in s.threads && s.threads[d] == WbStart(x, MarkDone) && v !in s.threads && w !in s.threads
    ensures Stray(Run(s, RemoveTwice(d, v, w, k)), v, WbFinish)
  {
    hide Wf, Base, Step, Breaks, Stray, Run;
    var script := RemoveTwice(d, v, w, k);
    RunEmpty(s, script);
    InvalidateDirty(s, v, x, k);
    NotFinishing(s, v, Invalidate(k));
    RunAt(s, script, 0);
    var s1 := Step(s, v, Invalidate(k));
    var s4 := WritebackRuns(s1, script, 1, d, x, k);
    CleanIo(s4, v, x, DropBlock);
    NotFinishing(s4, v, WbIo);
    RunAt(s4, script, 5);
    var s5 := Step(s4, v, WbIo);
    DropIdle(s5, w, k, x);
    NotFinishing(s5, w, Invalidate(k));
    RunAt(s5, script, 6);
    RunEmpty(Step(s5, w, Invalidate(k)), script);
    StrayNow(Step(s5, w, Invalidate(k)), v, x);
  }

  function StoreLate(c: nat, d: nat, v: nat, w: nat, k: Key): seq<(nat, Action)> {
    [(d, Mark(k)), (d, WbIo), (d, WbLoad), (c, Put(k)),
     (v, Mark(k)), (v, WbIo), (v, WbLoad), (v, WbClean), (v, WbFinish), (w, Invalidate(k))]
  }

  /** Nor are they kept beyond the store of a flag byte that was loaded before the page was
      removed. */
  lemma UnpinnedTears(s: Sys, c: nat, d: nat, v: nat, w: nat, x: nat, k: Key)
    requires Base(s) && On(s, x, k, 0, false) && k in s.pins && c != d && d != v && d != w && v != w
    requires c !in s.threads && d !in s.threads && v !in s.threads && w !in s.threads
    ensures Torn(Run(s, StoreLate(c, d, v, w, k)), d, WbClean)
  {
    hide Wf, Base, Step, Breaks, Torn, Run, On;
    var script := StoreLate(c, d, v, w, k);
    RunEmpty(s, script);
    MarkEffect(s, d, x, k, 0, false);
    NotFinishing(s, d, Mark(k));
    RunAt(s, script, 0);
    var s1 := Step(s, d, Mark(k));
    WbIoEffect(s1, d, x, k, 1);
    NotFinishing(s1, d, WbIo);
    RunAt(s1, script, 1);
    var s2 := Step(s1, d, WbIo);
    WbLoadEffect(s2, d, x, k, 1, true);
    NotFinishing(s2, d, WbLoad);
    RunAt(s2, script, 2);
    var s3 := Step(s2, d, WbLoad);
    PutEffect(s3, c, x, k, 1, true);
    NotFinishing(s3, c, Put(k));
    RunAt(s3, script, 3);
    TearsLater(Step(s3, c, Put(k)), script, d, v, w, x, k);
  }

  lemma TearsLater(s: Sys, script: seq<(nat, Action)>, d: nat, v: nat, w: nat, x: nat, k: Key)
    requires Base(s) && On(s, x, k, 0, true) && d != v && d != w && v != w
    requires |script| == 10 && script[4] == (v, Mark(k)) && WritebackAt(script, 5, v) && script[9] == (w, Invalidate(k))
    requires d in s.threads && s.threads[d] == WbStore(x, MarkDone, true, true) && v !in s.threads && w !in s.threads
    ensures Torn(Run(s, script[4..]), d, WbClean)
  {
    hide Wf, Base, Step, Breaks, Torn, Run, On;
    MarkEffect(s, v, x, k, 0, true);
    NotFinishing(s, v, Mark(k));
    RunAt(s, script, 4);
    var s1 := Step(s, v, Mark(k));
    var r := WritebackRuns(s1, script, 5, v, x, k);
    DropIdle(r, w, k, x);
    NotFinishing(r, w, Invalidate(k));
    RunAt(r, script, 9);
    var r' := Step(r, w, Invalidate(k));
    RunEmpty(r', script);
    PoolSize(r', x, d);
    TornNow(r', d, x);
  }

  lemma PoolSize(s: Sys, x: nat, d: nat)
    requires Base(s) && d in s.threads && s.threads[d] == WbStore(x, MarkDone, true, true)
    ensures x < |s.cache.pool|
  { BaseAt(s, d); }

  lemma TornNow(s: Sys, d: nat, x: nat)
    requires d in s.threads && s.threads[d] == WbStore(x, MarkDone, true, true) && x < |s.cache.pool|
    requires !Live(s.cache, x)
    ensures Torn(s, d, WbClean)
  {}

  lemma StrayNow(s: Sys, v: nat, x: nat)
    requires v in s.threads && s.threads[v] == WbEnd(x, DropBlock) && !Live(s.cache, x)
    ensures Stray(s, v, WbFinish)
  {}

  lemma CleanIo(s: Sys, t: nat, x: nat, cont: Cont)
    requires Base(s) && t in s.threads && s.threads[t] == WbStart(x, cont) && Live(s.cache, x) && !s.cache.pool[x].dirty
    ensures Step(s, t, WbIo) == s.(threads := s.threads[t := WbEnd(x, cont)])
  {}

  lemma DropIdle(s: Sys, t: nat, k: Key, x: nat)
    requires Base(s) && t !in s.threads && On(s, x, k, 0, false)
    ensures Step(s, t, Invalidate(k)).threads == s.threads && !Live(Step(s, t, Invalidate(k)).cache, x)
  {
    hide Wf, Base, Find, Drop;
    FindOn(s, x, k);
    DropKeepsWf(s.cache, x);
  }

  // ---------------------------------------------------------------- how a race comes about

  /** Threads 0 and 1 are about to load one block and thread 2 another. */
  ghost predicate At(s: Sys, st: Store, threads: map<nat, Pc>, used0: bool, used1: bool, live0: Option<Key>) {
    && Inv(s) && s.store == st && s.threads == threads && Sizes(s.cache)
    && s.cache.pool[0].used == used0 && s.cache.pool[1].used == used1
    && (forall y: nat | 2 <= y < POOL :: !s.cache.pool[y].used)
    && (forall y: nat :: Live(s.cache, y) <==> y == 0 && live0.Some?)
    && (live0.Some? ==> s.cache.pool[0].key == live0.value)
  }

  lemma AtMiss(s: Sys, st: Store, threads: map<nat, Pc>, t: nat, k: Key, size: u32)
    requires At(s, st, threads, false, false, None) && t !in threads && Calm(threads, t)
    ensures Base(s) && At(Step(s, t, Lookup(k, size)), st, threads[t := Missed(k, size)], false, false, None)
  {
    hide Wf, Base, Counted, Find;
    Basics(s);
    CalmNoRace(s, t, Lookup(k, size));
    StepKeepsInv(s, t, Lookup(k, size));
    FindOk(s.cache, k);
  }

  lemma FirstFree(s: Sys, st: Store, threads: map<nat, Pc>, used0: bool, live0: Option<Key>, x: nat)
    requires At(s, st, threads, used0, false, live0) && x == (if used0 then 1 else 0)
    ensures Wf(s.cache) && AllocPage(s.cache, s.store) == Alloc(s.cache, s.store, Some(x))
  {
    hide Wf, Base, Counted;
    Basics(s);
    var f := FreeFlags(s.cache);
    assert f[x] && (x == 1 ==> !f[0]);
    assert First(f) == Some(x) by { FirstIs(f, x); }
  }

  lemma {:induction false} FirstIs(f: seq<bool>, x: nat)
    requires x < |f| && f[x] && forall y: nat | y < x :: !f[y]
    ensures First(f) == Some(x)
  {}

  lemma AtReserve(s: Sys, st: Store, threads: map<nat, Pc>, used0: bool, t: nat, k: Key, size: u32, x: nat)
    requires At(s, st, threads, used0, false, None) && x == (if used0 then 1 else 0)
    requires t in threads && threads[t] == Missed(k, size) && GetChecks(st, k, size) && Calm(threads, t)
    ensures Base(s) && At(Step(s, t, Reserve), st, threads[t := Filling(x, k, size)], true, used0, None)
  {
    hide Wf, Base, Counted, GetChecks;
    Basics(s);
    CalmNoRace(s, t, Reserve);
    StepKeepsInv(s, t, Reserve);
    FirstFree(s, st, threads, used0, None, x);
    hide AllocPage;
  }

  lemma AtFill(s: Sys, st: Store, threads: map<nat, Pc>, used1: bool, t: nat, x: nat, k: Key, size: u32)
    requires At(s, st, threads, true, used1, None) && x < 2
    requires t in threads && threads[t] == Filling(x, k, size) && Calm(threads, t)
    ensures Base(s) && At(Step(s, t, Fill(true)), st, threads[t := Filled(x, k, size)], true, used1, None)
  {
    hide Wf, Base, Counted, ReadBlock;
    Basics(s);
    CalmNoRace(s, t, Fill(true));
    StepKeepsInv(s, t, Fill(true));
  }

  lemma PublishPool(s: Sys, t: nat, x: nat, k: Key, size: u32)
    requires Base(s) && t in s.threads && s.threads[t] == Filled(x, k, size) && Uncached(s.cache, k)
    ensures var s' := Step(s, t, Publish);
      && x < |s.cache.pool| && s'.cache.pool == s.cache.pool[x := s.cache.pool[x].(valid := true)]
      && s.cache.pool[x].key == k && s'.store == s.store && s'.threads == s.threads - {t}
  {
    hide Wf, Base, Without, Find;
    BaseParts(s);
    BaseAt(s, t);
    FindNone(s.cache, k);
  }

  lemma AtPublish(s: Sys, st: Store, threads: map<nat, Pc>, used1: bool, t: nat, k: Key, size: u32)
    requires At(s, st, threads, true, used1, None)
    requires t in threads && threads[t] == Filled(0, k, size) && Calm(threads, t)
    ensures Base(s) && At(Step(s, t, Publish), st, threads - {t}, true, used1, Some(k))
  {
    hide Wf, Inv, Base, Step, Races;
    Basics(s);
    CalmNoRace(s, t, Publish);
    StepKeepsInv(s, t, Publish);
    assert Uncached(s.cache, k);
    PublishPool(s, t, 0, k, size);
    var s' := Step(s, t, Publish);
    Basics(s');
    forall y: nat ensures Live(s'.cache, y) <==> y == 0 { assert !Live(s.cache, y); }
  }

  lemma AtLose(s: Sys, st: Store, threads: map<nat, Pc>, t: nat, k: Key, size: u32)
    requires At(s, st, threads, true, true, Some(k))
    requires t in threads && threads[t] == Filled(1, k, size) && Calm(threads, t)
    ensures Base(s) && At(Step(s, t, Publish), st, threads[t := Lost(1)], true, true, Some(k))
  {
    hide Wf, Base, Counted, Find, Without;
    Basics(s);
    ThreadFact(s, t);
    CalmNoRace(s, t, Publish);
    StepKeepsInv(s, t, Publish);
    FindOk(s.cache, k);
    assert Live(s.cache, 0);
    LiveUsed(s, 0);
  }

  lemma AtDiscard(s: Sys, st: Store, threads: map<nat, Pc>, t: nat, k: Key)
    requires At(s, st, threads, true, true, Some(k))
    requires t in threads && threads[t] == Lost(1) && Calm(threads, t)
    ensures Base(s) && At(Step(s, t, Discard), st, threads[t := Half(1)], true, false, Some(k))
  {
    hide Wf, Base, Counted;
    Basics(s);
    ThreadFact(s, t);
    CalmNoRace(s, t, Discard);
    StepKeepsInv(s, t, Discard);
    forall y: nat ensures Live(Step(s, t, Discard).cache, y) <==> y == 0 {
      assert Live(s.cache, y) <==> y == 0;
    }
  }

  lemma AtThreads(s: Sys, st: Store, threads: map<nat, Pc>, used0: bool, used1: bool, live0: Option<Key>)
    requires At(s, st, threads, used0, used1, live0)
    ensures s.threads == threads
  {}

  lemma AtBoot(st: Store)
    ensures At(Boot(st), st, map[], false, false, None)
  {
    InitInv(st);
    hide Wf, Base, Counted;
  }

  function LosingRun(k: Key, size: u32, k2: Key, size2: u32): seq<(nat, Action)> {
    [(0, Lookup(k, size)), (1, Lookup(k, size)), (2, Lookup(k2, size2)), (0, Reserve), (1, Reserve),
     (0, Fill(true)), (1, Fill(true)), (0, Publish), (1, Publish), (1, Discard)]
  }

  lemma LoadBoth(s: Sys, st: Store, th: map<nat, Pc>, script: seq<(nat, Action)>, k: Key, size: u32, k2: Key,
    size2: u32)
    requires script == LosingRun(k, size, k2, size2) && GetChecks(st, k, size) && k != k2
    requires th == map[0 := Missed(k, size), 1 := Missed(k, size), 2 := Missed(k2, size2)]
    requires At(s, st, th, false, false, None)
    ensures Base(s)
    ensures At(Run(s, script[3..]), st, map[1 := Half(1), 2 := Missed(k2, size2)], true, false, Some(k))
  {
    hide Wf, Base, Counted, Step, AllocPage, GetChecks, At, Breaks, Run;
    var s, th := s, th;
    AtReserve(s, st, th, false, 0, k, size, 0);
    NotFinishing(s, 0, Reserve);
    RunAt(s, script, 3);
    s, th := Step(s, 0, Reserve), th[0 := Filling(0, k, size)];
    AtReserve(s, st, th, true, 1, k, size, 1);
    NotFinishing(s, 1, Reserve);
    RunAt(s, script, 4);
    s, th := Step(s, 1, Reserve), th[1 := Filling(1, k, size)];
    AtFill(s, st, th, true, 0, 0, k, size);
    NotFinishing(s, 0, Fill(true));
    RunAt(s, script, 5);
    s, th := Step(s, 0, Fill(true)), th[0 := Filled(0, k, size)];
    AtFill(s, st, th, true, 1, 1, k, size);
    NotFinishing(s, 1, Fill(true));
    RunAt(s, script, 6);
    s, th := Step(s, 1, Fill(true)), th[1 := Filled(1, k, size)];
    LoseOne(s, st, th, script, k, size, k2, size2);
  }

  lemma LoseOne(s: Sys, st: Store, th: map<nat, Pc>, script: seq<(nat, Action)>, k: Key, size: u32, k2: Key, size2: u32)
    requires script == LosingRun(k, size, k2, size2) && k != k2
    requires th == map[0 := Filled(0, k, size), 1 := Filled(1, k, size), 2 := Missed(k2, size2)]
    requires At(s, st, th, true, true, None)
    ensures Base(s)
    ensures At(Run(s, script[7..]), st, map[1 := Half(1), 2 := Missed(k2, size2)], true, false, Some(k))
  {
    hide Wf, Base, Counted, Step, At, Breaks, Run;
    var s, th := s, th;
    AtPublish(s, st, th, true, 0, k, size);
    NotFinishing(s, 0, Publish);
    RunAt(s, script, 7);
    s, th := Step(s, 0, Publish), th - {0};
    AtLose(s, st, th, 1, k, size);
    NotFinishing(s, 1, Publish);
    RunAt(s, script, 8);
    s, th := Step(s, 1, Publish), th[1 := Lost(1)];
    AtDiscard(s, st, th, 1, k);
    NotFinishing(s, 1, Discard);
    RunAt(s, script, 9);
    s, th := Step(s, 1, Discard), th[1 := Half(1)];
    RunEmpty(s, script);
    assert th == map[1 := Half(1), 2 := Missed(k2, size2)];
  }

  lemma AtRaces(s: Sys, st: Store, k: Key, k2: Key, size2: u32)
    requires At(s, st, map[1 := Half(1), 2 := Missed(k2, size2)], true, false, Some(k))
    requires GetChecks(st, k2, size2) && k != k2
    ensures Inv(s) && Races(s, 2, Reserve) && AllocPage(s.cache, s.store).slot == Some(1) && Uncached(s.cache, k2)
  {
    hide Wf, Base, Counted, GetChecks;
    Basics(s);
    FirstFree(s, st, s.threads, true, Some(k), 1);
    assert s.threads[1] == Half(1);
    hide AllocPage;
  }

  /** From the start, for any two blocks a disk has: threads 0 and 1 miss one of them, thread 1
      loses and clears its flags, and the Reserve that thread 2 is about to make for the other
      block takes its slot. */
  lemma RaceReachable(st: Store, k: Key, size: u32, k2: Key, size2: u32)
    requires GetChecks(st, k, size) && GetChecks(st, k2, size2) && k != k2
    ensures Base(Boot(st))
    ensures var s := Run(Boot(st), LosingRun(k, size, k2, size2));
            && Inv(s) && Races(s, 2, Reserve) && AllocPage(s.cache, s.store).slot == Some(1)
            && s.threads == map[1 := Half(1), 2 := Missed(k2, size2)] && Uncached(s.cache, k2)
  {
    hide Wf, Base, Counted, Step, AllocPage, GetChecks, At, Breaks, Run;
    InitInv(st);
    Basics(Boot(st));
    var s, script := Boot(st), LosingRun(k, size, k2, size2);
    AtBoot(st);
    RunEmpty(s, script);
    var th: map<nat, Pc> := map[];
    AtMiss(s, st, th, 0, k, size);
    NotFinishing(s, 0, script[0].1);
    RunAt(s, script, 0);
    s, th := Step(s, 0, script[0].1), th[0 := Missed(k, size)];
    AtMiss(s, st, th, 1, k, size);
    NotFinishing(s, 1, script[1].1);
    RunAt(s, script, 1);
    s, th := Step(s, 1, script[1].1), th[1 := Missed(k, size)];
    AtMiss(s, st, th, 2, k2, size2);
    NotFinishing(s, 2, script[2].1);
    RunAt(s, script, 2);
    s, th := Step(s, 2, script[2].1), th[2 := Missed(k2, size2)];
    LoadBoth(s, st, th, script, k, size, k2, size2);
    AtThreads(Run(s, script[3..]), st, map[1 := Half(1), 2 := Missed(k2, size2)], true, false, Some(k));
    AtRaces(Run(s, script[3..]), st, k, k2, size2);
  }

  /** The whole story from the start, for any two blocks a disk has: block k2 is held by a client
      and its page is removed all the same; or its page is left dirty without a pin, and further on
      a page is unlinked twice, or marked VALID after its removal. */
  lemma HeldPageRemoved(st: Store, k: Key, size: u32, k2: Key, size2: u32)
    requires GetChecks(st, k, size) && GetChecks(st, k2, size2) && k != k2
    ensures Base(Boot(st))
    ensures var s := Run(Run(Boot(st), LosingRun(k, size, k2, size2)), Steal(2, 1));
      && k2 in s.pins && k2 in Step(s, 3, Invalidate(k2)).pins && Uncached(Step(s, 3, Invalidate(k2)).cache, k2)
      && (var d := Run(s, MarkAndPut(3, 2, k2));
          On(d, 1, k2, 0, true) && Stray(Run(d, RemoveTwice(3, 4, 5, k2)), 4, WbFinish))
      && Torn(Run(s, StoreLate(2, 3, 4, 5, k2)), 3, WbClean)
  {
    hide Wf, Inv, Base, Step, Run, AllocPage, GetChecks, LosingRun, Steal, On, Uncached, Stray, Torn, Races;
    RaceReachable(st, k, size, k2, size2);
    var s := Run(Boot(st), LosingRun(k, size, k2, size2));
    RaceLosesPin(s, 2, 1, 3, 1);
    var s4 := Run(s, Steal(2, 1));
    assert s4.threads == map[];
    UnpinnedStrays(s4, 2, 3, 4, 5, 1, k2);
    UnpinnedTears(s4, 2, 3, 4, 5, 1, k2);
  }
}
