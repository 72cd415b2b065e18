/** Pins over the runs of the page cache. A live page's pin count is exactly its client pins plus
    its writebacks in flight, and a pinned page keeps its slot, in every run in which no thread
    reserves a slot whose former owner has not yet cleared its pin count; and only in those. */
module PageCacheProtocol {
  import opened Common
  import B = BlkDev
  import opened PageCacheModel
  import opened PageCacheSteps

  // ---------------------------------------------------------------- the invariant

  /** A live page's pin count is exactly its client pins plus its writebacks in flight. */
  ghost predicate PinsOk(s: Sys) {
    forall x: nat | Live(s.cache, x) ::
      s.cache.pool[x].pin == s.pins[s.cache.pool[x].key] + |Writers(s.threads, x)|
  }

  ghost predicate Cached(c: Cache, k: Key) { exists x: nat :: Live(c, x) && c.pool[x].key == k }

  ghost predicate ClientsOk(s: Sys) { forall k | k in s.pins :: Cached(s.cache, k) }

  /** A page under writeback is live, a claimed slot has its one pin, and so has the slot of a
      thread between its two stores. */
  ghost predicate ThreadOk(c: Cache, pc: Pc) {
    && BaseThread(c, pc)
    && match pc
       case Missed(_, _) => true
       case Dropping(_, _) => true
       case WbStart(x, cont) => Live(c, x) && !cont.DropBlock?
       case WbClear(x, cont) => Live(c, x) && !cont.DropBlock?
       case WbStore(x, cont, used, valid) => Live(c, x) && !cont.DropBlock? && used && valid
       case WbEnd(x, cont) => Live(c, x) && !cont.DropBlock?
       case Filling(x, _, _) => c.pool[x].pin == 1
       case Filled(x, _, _) => c.pool[x].pin == 1
       case NoMem(x) => c.pool[x].pin == 1
       case Lost(x) => c.pool[x].pin == 1
       case Half(x) => !c.pool[x].used && !c.pool[x].valid && c.pool[x].pin == 1
  }

  ghost predicate ThreadsOk(s: Sys) { forall t | t in s.threads :: ThreadOk(s.cache, s.threads[t]) }

  ghost predicate HalvesDistinct(threads: map<nat, Pc>) {
    forall t, u | t in threads && u in threads && threads[t].Half? && threads[t] == threads[u] :: t == u
  }

  ghost predicate Counted(s: Sys) {
    PinsOk(s) && ClientsOk(s) && ThreadsOk(s) && HalvesDistinct(s.threads)
  }

  ghost predicate Inv(s: Sys) { Base(s) && Counted(s) }

  // ---------------------------------------------------------------- one step, slot by slot

  function IsWriter(threads: map<nat, Pc>, t: nat, x: nat): int {
    if t in threads && Writing(threads[t], x) then 1 else 0
  }

  /** Some thread other than t stands between its two stores on slot x. */
  ghost predicate HalfElsewhere(threads: map<nat, Pc>, t: nat, x: nat) {
    exists u :: u != t && u in threads && threads[u] == Half(x)
  }

  /** What a step of t may do to slot x, so far as pins and ownership go. */
  ghost predicate SlotStep(s: Sys, s': Sys, t: nat, x: nat)
    requires x < |s.cache.pool| && x < |s'.cache.pool|
  {
    var p, p' := s.cache.pool[x], s'.cache.pool[x];
    && (p'.valid ==>
          if p.valid then
            && p'.key == p.key
            && p'.pin - p.pin == (s'.pins[p.key] - s.pins[p.key])
                                 + IsWriter(s'.threads, t, x) - IsWriter(s.threads, t, x)
          else
            p'.pin == s'.pins[p'.key] && IsWriter(s'.threads, t, x) == 0)
    && (p.valid && !p'.valid ==> p.pin == 0)
    && (p.used && !p.valid && p' != p ==> t in s.threads && Claims(s.threads[t], x))
    && (!p.used && p' != p ==> !HalfElsewhere(s.threads, t, x))
  }

  ghost predicate NewHalf(s: Sys, s': Sys, t: nat) {
    t in s'.threads && s'.threads[t].Half? ==>
      t in s.threads && (s.threads[t] == s'.threads[t] || s.threads[t] == Lost(s'.threads[t].slot))
  }

  /** The effect of a step of t on everything else, stated without sets or counts. */
  ghost predicate Effect(s: Sys, s': Sys, t: nat) {
    && OthersSame(s, s', t)
    && |s.cache.pool| == |s'.cache.pool| == POOL
    && (forall x: nat | x < POOL :: SlotStep(s, s', t, x))
    && (forall k | k in s'.pins :: k in s.pins || Cached(s'.cache, k))
    && (t in s'.threads ==> ThreadOk(s'.cache, s'.threads[t]))
    && NewHalf(s, s', t)
  }

  ghost predicate Same(c: Cache, c': Cache, x: nat)
    requires Live(c, x)
  { Live(c', x) && c'.pool[x].key == c.pool[x].key }

  /** Pinned pages (or all live pages) stay in their slots under their own identity. */
  ghost predicate Kept(s: Sys, s': Sys, all: bool) {
    forall x: nat | Live(s.cache, x) && (all || s.cache.pool[x].pin > 0) :: Same(s.cache, s'.cache, x)
  }

  lemma Basics(s: Sys)
    requires Inv(s)
    ensures Wf(s.cache) && Sizes(s.cache) && Base(s) && Counted(s)
  {}

  lemma ThreadFact(s: Sys, t: nat)
    requires Inv(s) && t in s.threads
    ensures ThreadOk(s.cache, s.threads[t])
  {}

  lemma KeptTrans(s: Sys, m: Sys, s': Sys)
    requires Kept(s, m, true) && Kept(m, s', true)
    ensures Kept(s, s', true)
  {}

  lemma WritersCount(s: Sys, s': Sys, t: nat, x: nat)
    requires OthersSame(s, s', t)
    ensures |Writers(s'.threads, x)| == |Writers(s.threads, x)| + IsWriter(s'.threads, t, x) - IsWriter(s.threads, t, x)
  {
    var a, b := Writers(s.threads, x), Writers(s'.threads, x);
    assert forall u | u != t :: u in a <==> u in b;
    SameButOne(a, b, t);
  }

  lemma SameButOne(a: set<nat>, b: set<nat>, t: nat)
    requires forall u | u != t :: u in a <==> u in b
    ensures |b| == |a| + (if t in b then 1 else 0) - (if t in a then 1 else 0)
  {
    var r := a - {t};
    assert r == b - {t};
    assert a == if t in a then r + {t} else r;
    assert b == if t in b then r + {t} else r;
  }

  lemma NoWriter(s: Sys, x: nat)
    requires ThreadsOk(s) && !Live(s.cache, x)
    ensures Writers(s.threads, x) == {}
  {
    forall u | u in s.threads ensures !Writing(s.threads[u], x) { assert ThreadOk(s.cache, s.threads[u]); }
  }

  lemma PinsKept(s: Sys, s': Sys, t: nat)
    requires Inv(s) && Effect(s, s', t)
    ensures PinsOk(s')
  {
    hide Wf;
    forall x: nat | Live(s'.cache, x)
      ensures s'.cache.pool[x].pin == s'.pins[s'.cache.pool[x].key] + |Writers(s'.threads, x)|
    {
      assert SlotStep(s, s', t, x);
      WritersCount(s, s', t, x);
      if !Live(s.cache, x) { NoWriter(s, x); }
    }
  }

  lemma ClientsKept(s: Sys, s': Sys, t: nat)
    requires Inv(s) && Effect(s, s', t) && PinsOk(s')
    ensures ClientsOk(s')
  {
    hide Wf;
    forall k | k in s'.pins ensures Cached(s'.cache, k) {
      if k in s.pins {
        var x: nat :| Live(s.cache, x) && s.cache.pool[x].key == k;
        assert SlotStep(s, s', t, x);
        assert Live(s'.cache, x) && s'.cache.pool[x].key == k;
      }
    }
  }

  lemma ThreadsKept(s: Sys, s': Sys, t: nat)
    requires Inv(s) && Effect(s, s', t)
    ensures ThreadsOk(s')
  {
    hide Wf;
    forall u | u in s'.threads ensures ThreadOk(s'.cache, s'.threads[u]) {
      if u != t { OtherThread(s, s', t, u); }
    }
  }

  lemma OtherThread(s: Sys, s': Sys, t: nat, u: nat)
    requires Inv(s) && Effect(s, s', t) && u in s'.threads && u != t
    ensures ThreadOk(s'.cache, s'.threads[u])
  {
    hide Wf;
    var pc := s.threads[u];
    assert ThreadOk(s.cache, pc);
    if pc.WbStart? || pc.WbClear? || pc.WbStore? || pc.WbEnd? {
      assert u in Writers(s.threads, pc.page);
      assert SlotStep(s, s', t, pc.page);
    } else if pc.Half? {
      assert SlotStep(s, s', t, pc.slot);
    } else if pc.Filling? || pc.Filled? || pc.NoMem? || pc.Lost? {
      assert Claims(pc, pc.slot);
      assert SlotStep(s, s', t, pc.slot);
    }
  }

  lemma HalvesKept(s: Sys, s': Sys, t: nat)
    requires Inv(s) && Effect(s, s', t)
    ensures HalvesDistinct(s'.threads)
  {
    hide Wf, SlotStep;
    forall v | t in s.threads && v in s.threads && s.threads[t].Lost? && s.threads[v].Half?
      ensures s.threads[v].slot != s.threads[t].slot
    {
      assert ThreadOk(s.cache, s.threads[t]) && ThreadOk(s.cache, s.threads[v]);
    }
    forall u, v | u in s'.threads && v in s'.threads && s'.threads[u].Half? && s'.threads[u] == s'.threads[v]
      ensures u == v
    {}
  }

  lemma EffectKeeps(s: Sys, s': Sys, t: nat)
    requires Inv(s) && Effect(s, s', t)
    ensures Kept(s, s', false)
  {
    hide Wf;
    forall x: nat | Live(s.cache, x) && s.cache.pool[x].pin > 0 ensures Same(s.cache, s'.cache, x) {
      assert SlotStep(s, s', t, x);
    }
  }

  lemma EffectKeepsCounts(s: Sys, s': Sys, t: nat)
    requires Inv(s) && Effect(s, s', t)
    ensures Counted(s') && Kept(s, s', false)
  {
    hide Wf, Effect, Inv, PinsOk, ClientsOk, ThreadsOk, HalvesDistinct, Kept;
    EffectKeeps(s, s', t);
    PinsKept(s, s', t);
    ClientsKept(s, s', t);
    ThreadsKept(s, s', t);
    HalvesKept(s, s', t);
  }

  // ---------------------------------------------------------------- every action

  /** A step that changes only slot x of the pool. */
  lemma OneSlot(s: Sys, s': Sys, t: nat, x: nat)
    requires Inv(s) && x < |s.cache.pool| == |s'.cache.pool|
    requires s'.cache.pool == s.cache.pool[x := s'.cache.pool[x]]
    requires Local(s, s', t, x) && SlotStep(s, s', t, x) && NewHalf(s, s', t)
    requires forall y: nat | y < POOL && y != x && Live(s.cache, y) ::
               s'.pins[s.cache.pool[y].key] == s.pins[s.cache.pool[y].key]
    requires forall k | k in s'.pins :: k in s.pins || (Live(s'.cache, x) && s'.cache.pool[x].key == k)
    requires t in s'.threads ==> ThreadOk(s'.cache, s'.threads[t])
    ensures Counted(s') && Kept(s, s', false)
  {
    hide Wf, Inv, SlotStep, Local, ThreadOk, NewHalf;
    Basics(s);
    forall y: nat | y < POOL ensures SlotStep(s, s', t, y) {
      if y != x { OtherSlot(s, s', t, x, y); }
    }
    LocalOthers(s, s', t, x);
    assert Live(s'.cache, x) ==> Cached(s'.cache, s'.cache.pool[x].key);
    EffectKeepsCounts(s, s', t);
  }

  lemma LocalOthers(s: Sys, s': Sys, t: nat, x: nat)
    requires Local(s, s', t, x)
    ensures OthersSame(s, s', t)
  {}

  lemma OtherSlot(s: Sys, s': Sys, t: nat, x: nat, y: nat)
    requires |s.cache.pool| == |s'.cache.pool| == POOL && x < POOL && y < POOL && y != x
    requires s'.cache.pool[y] == s.cache.pool[y] && Local(s, s', t, x)
    requires Live(s.cache, y) ==> s'.pins[s.cache.pool[y].key] == s.pins[s.cache.pool[y].key]
    ensures SlotStep(s, s', t, y)
  {}

  lemma PageKept(s: Sys, s': Sys, x: nat, p: Page)
    requires Live(s.cache, x) && p.valid && p.key == s.cache.pool[x].key && s'.cache.pool == s.cache.pool[x := p]
    ensures Kept(s, s', true)
  {}

  lemma LiveUsed(s: Sys, x: nat)
    requires Base(s) && Live(s.cache, x)
    ensures s.cache.pool[x].used && KeysUnique(s.cache) && Sizes(s.cache)
  { assert PageOk(s.cache.pool[x]); }

  /** A step that changes one live page without moving it. */
  lemma PageStep(s: Sys, s': Sys, t: nat, x: nat, p: Page)
    requires Inv(s) && Live(s.cache, x) && p.valid && p.key == s.cache.pool[x].key
    requires s'.cache == Set(s.cache, x, p) || s'.cache == Touch(Set(s.cache, x, p), x)
    requires s'.pins == s.pins[p.key := s'.pins[p.key]]
    requires Local(s, s', t, x) && NewHalf(s, s', t)
    requires p.pin - s.cache.pool[x].pin == (s'.pins[p.key] - s.pins[p.key])
                                            + IsWriter(s'.threads, t, x) - IsWriter(s.threads, t, x)
    requires t in s'.threads ==> ThreadOk(s'.cache, s'.threads[t])
    ensures Counted(s') && Kept(s, s', true)
  {
    hide Wf, Inv, Base, Counted, Local, ThreadOk, Kept, NewHalf;
    Basics(s);
    LiveUsed(s, x);
    PageKept(s, s', x, p);
    OneSlot(s, s', t, x);
  }

  /** A step that changes no page. */
  lemma NeutralStep(s: Sys, s': Sys, t: nat)
    requires Inv(s) && s'.cache == s.cache && s'.pins == s.pins && OthersSame(s, s', t) && NewHalf(s, s', t)
    requires forall y: nat :: IsWriter(s'.threads, t, y) == IsWriter(s.threads, t, y)
    requires t in s'.threads ==> ThreadOk(s.cache, s'.threads[t])
    ensures Counted(s') && Kept(s, s', true)
  {
    hide Wf, Inv, ThreadOk, NewHalf, Counted;
    Basics(s);
    EffectKeepsCounts(s, s', t);
  }

  lemma HitInv(s: Sys, t: nat, x: nat)
    requires Inv(s) && Live(s.cache, x)
    ensures Inv(Hit(s, x)) && Kept(s, Hit(s, x), true)
  {
    hide Wf, Base, Counted, Without, Kept;
    Basics(s);
    if t in s.threads { ThreadFact(s, t); }
    BaseHit(s, t, x);
    HitCounts(s, t, x);
  }

  lemma HitCounts(s: Sys, t: nat, x: nat)
    requires Inv(s) && Live(s.cache, x) && Base(Hit(s, x))
    ensures Counted(Hit(s, x)) && Kept(s, Hit(s, x), true)
  {
    hide Wf, Inv, Base, Counted, Without, Kept;
    Basics(s);
    var s' := Hit(s, x);
    var p := s.cache.pool[x].(pin := s.cache.pool[x].pin + 1);
    if t in s.threads { ThreadFact(s, t); HitThread(s, s', t, x, p); }
    PageStep(s, s', t, x, p);
  }

  lemma HitThread(s: Sys, s': Sys, t: nat, x: nat, p: Page)
    requires t in s.threads && ThreadOk(s.cache, s.threads[t]) && Live(s.cache, x)
    requires s'.cache.pool == s.cache.pool[x := p] && p.used && p.valid
    requires Alike(s.cache.pool[x], p)
    ensures ThreadOk(s'.cache, s.threads[t])
  {}

  lemma LookupInv(s: Sys, t: nat, k: Key, size: u32)
    requires Inv(s) && t !in s.threads
    ensures Counted(LookupStep(s, t, k, size)) && Kept(s, LookupStep(s, t, k, size), true)
  {
    hide Wf, Inv, Base, Counted, Find, Kept, Touch;
    Basics(s);
    FindOk(s.cache, k);
    match Find(s.cache, k)
    case None => NeutralStep(s, LookupStep(s, t, k, size), t);
    case Some(x) =>
      HitInv(s, t, x);
      Basics(Hit(s, x));
  }

  lemma MarkInv(s: Sys, t: nat, k: Key)
    requires Inv(s) && t !in s.threads
    ensures Counted(MarkStep(s, t, k)) && Kept(s, MarkStep(s, t, k), true)
  {
    hide Wf, Inv, Base, Counted, Find;
    Basics(s);
    FindOk(s.cache, k);
    var s' := MarkStep(s, t, k);
    match Find(s.cache, k)
    case None =>
    case Some(x) => PageStep(s, s', t, x, s'.cache.pool[x]);
  }

  /** A block some client has pinned is cached, under its own identity, with a positive count. */
  lemma HolderLive(s: Sys, k: Key)
    requires Inv(s) && k in s.pins
    ensures Find(s.cache, k).Some? && Live(s.cache, Find(s.cache, k).value)
    ensures s.cache.pool[Find(s.cache, k).value].key == k && s.cache.pool[Find(s.cache, k).value].pin > 0
  {
    FindOk(s.cache, k);
    assert Cached(s.cache, k);
  }

  lemma PutInv(s: Sys, t: nat, k: Key)
    requires Inv(s) && t !in s.threads && k in s.pins
    ensures Counted(PutStep(s, k)) && Kept(s, PutStep(s, k), true)
  {
    hide Wf, Inv, Base, Counted, Find;
    Basics(s);
    FindOk(s.cache, k);
    HolderLive(s, k);
    var s' := PutStep(s, k);
    var x := Find(s.cache, k).value;
    PageStep(s, s', t, x, s'.cache.pool[x]);
  }

  lemma PokeInv(s: Sys, t: nat, k: Key, d: Block)
    requires Inv(s) && t !in s.threads
    ensures Counted(PokeStep(s, k, d)) && Kept(s, PokeStep(s, k, d), true)
  {
    hide Wf, Inv, Base, Counted, Find;
    Basics(s);
    FindOk(s.cache, k);
    var s' := PokeStep(s, k, d);
    match Find(s.cache, k)
    case None =>
    case Some(x) => PageStep(s, s', t, x, s'.cache.pool[x]);
  }

  lemma WbIoInv(s: Sys, t: nat, x: nat, cont: Cont)
    requires Inv(s) && t in s.threads && s.threads[t] == WbStart(x, cont)
    ensures x < |s.cache.pool| && Counted(WbIoStep(s, t, x, cont)) && Kept(s, WbIoStep(s, t, x, cont), true)
  {
    hide Wf, Inv, Base, Counted, Kept;
    ThreadFact(s, t);
    NeutralStep(s, WbIoStep(s, t, x, cont), t);
  }

  lemma WbLoadInv(s: Sys, t: nat, x: nat, cont: Cont)
    requires Inv(s) && t in s.threads && s.threads[t] == WbClear(x, cont)
    ensures x < |s.cache.pool| && Counted(WbLoadStep(s, t, x, cont)) && Kept(s, WbLoadStep(s, t, x, cont), true)
  {
    hide Wf, Inv, Base, Counted, Kept;
    ThreadFact(s, t);
    Basics(s);
    LiveUsed(s, x);
    NeutralStep(s, WbLoadStep(s, t, x, cont), t);
  }

  lemma WbCleanInv(s: Sys, t: nat, x: nat, cont: Cont, used: bool, valid: bool)
    requires Inv(s) && t in s.threads && s.threads[t] == WbStore(x, cont, used, valid)
    ensures x < |s.cache.pool|
    ensures var s' := WbCleanStep(s, t, x, cont, used, valid); Counted(s') && Kept(s, s', true)
  {
    hide Wf, Inv, Base, Counted, Kept;
    ThreadFact(s, t);
    Basics(s);
    var s' := WbCleanStep(s, t, x, cont, used, valid);
    PageStep(s, s', t, x, s'.cache.pool[x]);
  }

  /** The slot that a Reserve of thread t would take belongs to a thread that has cleared its flags
      and not yet its pin count. */
  ghost predicate Races(s: Sys, t: nat, a: Action)
    requires Base(s)
  {
    && t in s.threads && s.threads[t].Missed? && a.Reserve? && GetChecks(s.store, s.threads[t].k, s.threads[t].size)
    && AllocPage(s.cache, s.store).slot.Some?
    && HalfElsewhere(s.threads, t, AllocPage(s.cache, s.store).slot.value)
  }

  lemma ReserveInv(s: Sys, t: nat, k: Key, size: u32)
    requires Inv(s) && t in s.threads && s.threads[t] == Missed(k, size) && !Races(s, t, Reserve)
    ensures Wf(s.cache) && Counted(ReserveStep(s, t, k, size)) && Kept(s, ReserveStep(s, t, k, size), false)
  {
    hide Wf, Inv, Base, Counted, AllocPage, GetChecks, Remove, Kept;
    Basics(s);
    AllocOk(s.cache, s.store);
    var s' := ReserveStep(s, t, k, size);
    var r := AllocPage(s.cache, s.store);
    if r.slot.Some? && GetChecks(s.store, k, size) {
      var x := r.slot.value;
      SizesOf(r.cache);
      if Live(s.cache, x) { LiveUsed(s, x); }
      assert s'.cache.pool == s.cache.pool[x := s'.cache.pool[x]];
      OneSlot(s, s', t, x);
    } else {
      NeutralStep(s, s', t);
      KeptAll(s, s');
    }
  }

  /** A step that only changes the unpublished slot its thread has. */
  lemma OwnStep(s: Sys, s': Sys, t: nat, x: nat, p: Page)
    requires Inv(s) && t in s.threads && (Claims(s.threads[t], x) || s.threads[t] == Half(x)) && OthersSame(s, s', t)
    requires !p.valid && s'.pins == s.pins && NewHalf(s, s', t)
    requires x < |s.cache.pool| && s'.cache == Set(s.cache, x, p)
    requires OnlySlot(s'.threads, t, x) && (t in s'.threads ==> ThreadOk(s'.cache, s'.threads[t]))
    ensures Counted(s') && Kept(s, s', false)
  {
    hide Wf, Base, Kept, PinsOk, ClientsOk, ThreadsOk, NewHalf;
    ThreadFact(s, t);
    Basics(s);
    OneSlot(s, s', t, x);
  }

  lemma FillInv(s: Sys, t: nat, x: nat, k: Key, size: u32, ok: bool)
    requires Inv(s) && t in s.threads && s.threads[t] == Filling(x, k, size)
    ensures x < |s.cache.pool| && Counted(FillStep(s, t, x, k, size, ok))
    ensures Kept(s, FillStep(s, t, x, k, size, ok), false)
  {
    hide Wf, Inv, Counted, ReadBlock;
    ThreadFact(s, t);
    var s' := FillStep(s, t, x, k, size, ok);
    if s'.threads[t].NoMem? { NeutralStep(s, s', t); } else { OwnStep(s, s', t, x, s'.cache.pool[x]); }
  }

  lemma ReturnInv(s: Sys, t: nat, x: nat)
    requires Inv(s) && t in s.threads && s.threads[t] == NoMem(x)
    ensures x < |s.cache.pool| && Counted(ReturnStep(s, t, x)) && Kept(s, ReturnStep(s, t, x), false)
  {
    hide Wf, Inv, Counted;
    ThreadFact(s, t);
    OwnStep(s, ReturnStep(s, t, x), t, x, Freed(s.cache.pool[x]));
  }

  lemma DiscardInv(s: Sys, t: nat, x: nat)
    requires Inv(s) && t in s.threads && s.threads[t] == Lost(x)
    ensures x < |s.cache.pool| && Counted(DiscardStep(s, t, x)) && Kept(s, DiscardStep(s, t, x), false)
  {
    hide Wf, Inv, Counted;
    ThreadFact(s, t);
    var s' := DiscardStep(s, t, x);
    OwnStep(s, s', t, x, s'.cache.pool[x]);
  }

  lemma SettleInv(s: Sys, t: nat, x: nat)
    requires Inv(s) && t in s.threads && s.threads[t] == Half(x)
    ensures x < |s.cache.pool| && Counted(SettleStep(s, t, x)) && Kept(s, SettleStep(s, t, x), false)
  {
    hide Wf, Inv, Counted;
    ThreadFact(s, t);
    var s' := SettleStep(s, t, x);
    OwnStep(s, s', t, x, s'.cache.pool[x]);
  }

  lemma Unpinned0(s: Sys, k: Key)
    requires Inv(s) && forall y: nat | Live(s.cache, y) :: s.cache.pool[y].key != k
    ensures s.pins[k] == 0
  {
    hide Wf;
    assert k in s.pins ==> Cached(s.cache, k);
  }

  lemma InsertInv(s: Sys, t: nat, x: nat, k: Key, size: u32)
    requires Inv(s) && t in s.threads && s.threads[t] == Filled(x, k, size) && x < POOL && Sizes(s.cache)
    requires forall y: nat | Live(s.cache, y) :: s.cache.pool[y].key != k
    ensures var s' := Done(s.(cache := Insert(s.cache, x), pins := More(s.pins, k)), t);
            Counted(s') && Kept(s, s', false)
  {
    hide Wf, Inv, Counted, Without;
    ThreadFact(s, t);
    Unpinned0(s, k);
    OneSlot(s, Done(s.(cache := Insert(s.cache, x), pins := More(s.pins, k)), t), t, x);
  }

  lemma PublishInv(s: Sys, t: nat, x: nat, k: Key, size: u32)
    requires Inv(s) && t in s.threads && s.threads[t] == Filled(x, k, size)
    ensures x < |s.cache.pool| == POOL && Wf(s.cache)
    ensures Counted(PublishStep(s, t, x, k)) && Kept(s, PublishStep(s, t, x, k), false)
  {
    hide Wf, Inv, Counted, Find, Without, Insert;
    Basics(s);
    ThreadFact(s, t);
    FindOk(s.cache, k);
    match Find(s.cache, k)
    case Some(e) =>
      HitInv(s, t, e);
      ThreadFact(Hit(s, e), t);
      NeutralStep(Hit(s, e), PublishStep(s, t, x, k), t);
      KeptTrans(s, Hit(s, e), PublishStep(s, t, x, k));
    case None => InsertInv(s, t, x, k, size);
  }

  lemma DropInv(s: Sys, s': Sys, t: nat, x: nat)
    requires Inv(s) && Live(s.cache, x) && s.cache.pool[x].pin == 0 && Sizes(s.cache)
    requires s'.cache == Drop(s.cache, x) && s'.pins == s.pins && OthersSame(s, s', t)
    requires t in s.threads ==> s.threads[t].Dropping?
    requires t in s'.threads ==> s'.threads[t].Dropping?
    ensures Counted(s') && Kept(s, s', false)
  {
    hide Wf, Inv, Base, Counted, Without, Kept;
    Basics(s);
    LiveUsed(s, x);
    assert s'.cache.pool == s.cache.pool[x := s'.cache.pool[x]];
    OneSlot(s, s', t, x);
  }

  /** In every state in which the lock is free and pins are exact, a dirty page has a writeback
      in flight and so is pinned. */
  lemma DirtyPinned(s: Sys, x: nat)
    requires Inv(s) && Live(s.cache, x)
    ensures s.cache.pool[x].pin >= 0
    ensures s.cache.pool[x].dirty ==> InFlight(s.threads, x) && s.cache.pool[x].pin > 0
  {
    hide Wf;
    if s.cache.pool[x].dirty {
      var t :| t in s.threads && Pending(s.threads[t], x);
      assert t in Writers(s.threads, x);
    }
  }

  lemma InvalidateInv(s: Sys, t: nat, k: Key)
    requires Inv(s) && t !in s.threads
    ensures Counted(InvalidateStep(s, t, k)) && Kept(s, InvalidateStep(s, t, k), false)
  {
    hide Wf, Inv, Counted, Find, Drop;
    Basics(s);
    FindOk(s.cache, k);
    match Find(s.cache, k)
    case None =>
    case Some(x) =>
      DirtyPinned(s, x);
      if s.cache.pool[x].pin <= 0 { DropInv(s, InvalidateStep(s, t, k), t, x); }
  }

  lemma DropNextInv(s: Sys, t: nat, dev: u32, i: nat)
    requires Inv(s) && t in s.threads && s.threads[t] == Dropping(dev, i)
    ensures Counted(DropStep(s, t, dev, i)) && Kept(s, DropStep(s, t, dev, i), false)
  {
    hide Wf, Inv, Base, Counted, Drop;
    Basics(s);
    var s' := DropStep(s, t, dev, i);
    var f := DropFlags(s.cache, dev, i);
    match First(f)
    case None => NeutralStep(s, s', t);
    case Some(j) =>
      assert f[j];
      DirtyPinned(s, j);
      DropInv(s, s', t, j);
  }

  lemma FlushInv(s: Sys, t: nat, dev: u32, i: nat, inv: bool)
    requires Inv(s) && t !in s.threads
    ensures Counted(FlushScan(s, t, dev, i, inv)) && Kept(s, FlushScan(s, t, dev, i, inv), true)
  {
    hide Wf, Inv, Base, Counted, Kept;
    Basics(s);
    var s' := FlushScan(s, t, dev, i, inv);
    var f := FlushFlags(s.cache, dev, i);
    match First(f)
    case None => NeutralStep(s, s', t);
    case Some(j) =>
      assert f[j];
      PageStep(s, s', t, j, s'.cache.pool[j]);
  }

  lemma UnpinInv(s: Sys, t: nat, x: nat, cont: Cont)
    requires Inv(s) && t in s.threads && s.threads[t] == WbEnd(x, cont)
    ensures x < |s.cache.pool| == POOL && !cont.DropBlock?
    ensures Inv(Done(s.(cache := Unpinned(s.cache, x)), t)) && Kept(s, Done(s.(cache := Unpinned(s.cache, x)), t), true)
  {
    hide Wf, Base, Counted, Kept;
    ThreadFact(s, t);
    BaseUnpin(s, t, x, cont);
    var s' := Done(s.(cache := Unpinned(s.cache, x)), t);
    PageStep(s, s', t, x, s'.cache.pool[x]);
  }

  lemma FinishInv(s: Sys, t: nat, x: nat, cont: Cont)
    requires Inv(s) && t in s.threads && s.threads[t] == WbEnd(x, cont)
    ensures x < |s.cache.pool| == POOL && Wf(s.cache)
    ensures Counted(WbFinishStep(s, t, x, cont)) && Kept(s, WbFinishStep(s, t, x, cont), true)
  {
    hide Wf, Base, Counted, Kept, Drop;
    Basics(s);
    UnpinInv(s, t, x, cont);
    if cont.FlushFrom? {
      var s0 := s.(cache := Unpinned(s.cache, x));
      FlushInv(Done(s0, t), t, cont.dev, cont.i, cont.invalidate);
      FlushAfterDone(s0, t, cont.dev, cont.i, cont.invalidate);
      KeptTrans(s, Done(s0, t), WbFinishStep(s, t, x, cont));
    }
  }

  lemma NeverBreaks(s: Sys, t: nat, a: Action)
    requires Inv(s)
    ensures !Breaks(s, t, a)
  {
    hide Wf, Base;
    if t in s.threads {
      ThreadFact(s, t);
      if s.threads[t].WbStore? { Basics(s); LiveUsed(s, s.threads[t].page); }
    }
  }

  /** Every step of every thread keeps the invariant, unless it reserves a slot whose former owner
      is between its two stores. */
  lemma StepKeepsInv(s: Sys, t: nat, a: Action)
    requires Inv(s) && !Races(s, t, a)
    ensures Inv(Step(s, t, a)) && Kept(s, Step(s, t, a), false)
  {
    hide Wf, Base, Counted, Kept, Races;
    NeverBreaks(s, t, a);
    StepKeepsBase(s, t, a);
    if t !in s.threads { IdleCounts(s, t, a); } else { BusyCounts(s, t, a); }
  }

  lemma KeptAll(s: Sys, s': Sys)
    requires Kept(s, s', true)
    ensures Kept(s, s', false)
  {}

  lemma KeptSelf(s: Sys)
    ensures Kept(s, s, false)
  {}

  lemma IdleCounts(s: Sys, t: nat, a: Action)
    requires Inv(s) && t !in s.threads
    ensures Counted(Step(s, t, a)) && Kept(s, Step(s, t, a), false)
  {
    hide Wf, Base, Kept, LookupStep, MarkStep, PutStep, PokeStep, FlushScan, InvalidateStep, PinsOk, ClientsOk,
      ThreadsOk;
    Basics(s);
    KeptSelf(s);
    match a {
      case Lookup(k, size) => LookupInv(s, t, k, size); KeptAll(s, LookupStep(s, t, k, size));
      case Mark(k) => MarkInv(s, t, k); KeptAll(s, MarkStep(s, t, k));
      case Put(k) => if k in s.pins { PutInv(s, t, k); KeptAll(s, PutStep(s, k)); }
      case Poke(k, d) => PokeInv(s, t, k, d); KeptAll(s, PokeStep(s, k, d));
      case Flush(dev, inv) => FlushInv(s, t, dev, 0, inv); KeptAll(s, FlushScan(s, t, dev, 0, inv));
      case Invalidate(k) => InvalidateInv(s, t, k);
      case _ =>
    }
  }

  lemma BusyCounts(s: Sys, t: nat, a: Action)
    requires Inv(s) && t in s.threads && !Races(s, t, a)
    ensures Counted(Step(s, t, a)) && Kept(s, Step(s, t, a), false)
  {
    hide Wf, Base, Kept, BaseThread, ReserveStep, FillStep, ReturnStep, PublishStep, DiscardStep, SettleStep, WbIoStep,
      WbLoadStep, WbCleanStep, WbFinishStep, DropStep, PinsOk, ClientsOk, ThreadsOk, Races;
    Basics(s);
    KeptSelf(s);
    match s.threads[t] {
      case Missed(k, size) => if a.Reserve? { ReserveInv(s, t, k, size); }
      case Filling(x, k, size) => if a.Fill? { FillInv(s, t, x, k, size, a.kallocOk); }
      case NoMem(x) => ReturnInv(s, t, x);
      case Filled(x, k, size) => PublishInv(s, t, x, k, size);
      case Lost(x) => DiscardInv(s, t, x);
      case Half(x) => SettleInv(s, t, x);
      case WbStart(x, cont) => WbIoInv(s, t, x, cont); KeptAll(s, WbIoStep(s, t, x, cont));
      case WbClear(x, cont) => WbLoadInv(s, t, x, cont); KeptAll(s, WbLoadStep(s, t, x, cont));
      case WbStore(x, cont, used, valid) =>
        WbCleanInv(s, t, x, cont, used, valid);
        KeptAll(s, WbCleanStep(s, t, x, cont, used, valid));
      case WbEnd(x, cont) => FinishInv(s, t, x, cont); KeptAll(s, WbFinishStep(s, t, x, cont));
      case Dropping(dev, i) => DropNextInv(s, t, dev, i);
    }
  }

  // ---------------------------------------------------------------- whole runs

  /** Any interleaving, followed up to a step after which the lists are not described. */
  ghost function Run(s: Sys, script: seq<(nat, Action)>): (r: Sys)
    requires Base(s)
    ensures Base(r)
    decreases script
  {
    if script == [] || Breaks(s, script[0].0, script[0].1) then s
    else
      StepKeepsBase(s, script[0].0, script[0].1);
      Run(Step(s, script[0].0, script[0].1), script[1..])
  }

  lemma RunAt(s: Sys, script: seq<(nat, Action)>, i: nat)
    requires Base(s) && i < |script| && !Breaks(s, script[i].0, script[i].1)
    ensures Base(Step(s, script[i].0, script[i].1))
    ensures Run(s, script[i..]) == Run(Step(s, script[i].0, script[i].1), script[i + 1..])
  {
    hide Base, Step, Breaks;
    StepKeepsBase(s, script[i].0, script[i].1);
    assert script[i..][1..] == script[i + 1..];
  }

  lemma RunEmpty(s: Sys, script: seq<(nat, Action)>)
    requires Base(s)
    ensures Run(s, script[|script|..]) == s && script[0..] == script
  {}

  lemma NotFinishing(s: Sys, t: nat, a: Action)
    requires !a.WbFinish? && !a.WbClean?
    ensures !Breaks(s, t, a)
  {}

  function Boot(st: Store): Sys { Sys(Empty(), st, map[], multiset{}) }

  /** pc_init. */
  lemma InitInv(st: Store)
    ensures Inv(Boot(st))
  {
    EmptyWf();
    hide Wf;
  }

  /** After any interleaving from the start, slot by slot: a slot is VALID exactly when it is on
      the LRU list and exactly when it is in the chain of its own bucket, each list holds it once,
      and no other VALID slot has its block. */
  lemma ViewsAgree(st: Store, script: seq<(nat, Action)>, x: nat, b: nat)
    requires x < POOL && b < BUCKETS
    ensures Base(Boot(st))
    ensures var c := Run(Boot(st), script).cache;
      && |c.pool| == POOL && |c.chains| == BUCKETS && NoDup(c.lru) && NoDup(c.chains[b])
      && (c.pool[x].valid <==> x in c.lru)
      && (c.pool[x].valid && Hash(c.pool[x].key) == b <==> x in c.chains[b])
      && (forall y: nat | y < POOL && y != x && c.pool[x].valid && c.pool[y].valid :: c.pool[y].key != c.pool[x].key)
  {
    hide Inv, Base, Run, Hash;
    InitInv(st);
    Basics(Boot(st));
    BaseViews(Run(Boot(st), script), x, b);
  }

  lemma BaseViews(s: Sys, x: nat, b: nat)
    requires Base(s) && x < POOL && b < BUCKETS
    ensures var c := s.cache;
      && |c.pool| == POOL && |c.chains| == BUCKETS && NoDup(c.lru) && NoDup(c.chains[b])
      && (c.pool[x].valid <==> x in c.lru)
      && (c.pool[x].valid && Hash(c.pool[x].key) == b <==> x in c.chains[b])
      && (forall y: nat | y < POOL && y != x && c.pool[x].valid && c.pool[y].valid :: c.pool[y].key != c.pool[x].key)
  {
    hide Hash;
    var c := s.cache;
    assert ChainOk(c, b) && LruOk(c) && KeysUnique(c);
    assert x in c.lru <==> Live(c, x);
  }

  /** After any interleaving from the start, a dirty page has a writeback in flight and a reserved
      slot has exactly one thread working on it. */
  lemma NothingForgotten(st: Store, script: seq<(nat, Action)>, x: nat)
    requires x < POOL
    ensures Base(Boot(st))
    ensures var s := Run(Boot(st), script);
      && (Live(s.cache, x) && s.cache.pool[x].dirty ==> InFlight(s.threads, x))
      && (Reserved(s.cache, x) <==> exists t :: t in s.threads && Claims(s.threads[t], x))
      && (forall t, u | t in s.threads && u in s.threads && Claims(s.threads[t], x) && Claims(s.threads[u], x) ::
        t == u)
  {
    hide Wf, Inv, Run;
    InitInv(st);
    Basics(Boot(st));
    var s := Run(Boot(st), script);
    if Reserved(s.cache, x) { assert Held(s.threads, x); }
    forall t | t in s.threads && Claims(s.threads[t], x) ensures Reserved(s.cache, x) {
      assert BaseThread(s.cache, s.threads[t]);
    }
  }

  // ---------------------------------------------------------------- when pins are exact

  /** No Reserve of the run takes a slot whose owner stands between its two stores. */
  ghost predicate NoRace(s: Sys, script: seq<(nat, Action)>)
    requires Base(s)
    decreases script
  {
    script == [] ||
    var (t, a) := script[0];
    && !Races(s, t, a)
    && (Breaks(s, t, a) || (StepKeepsBase(s, t, a); NoRace(Step(s, t, a), script[1..])))
  }

  /** Live pages count their pins and claimed slots have one. */
  ghost predicate Exact(s: Sys) {
    && PinsOk(s)
    && forall t | t in s.threads && (s.threads[t].Filling? || s.threads[t].Filled? || s.threads[t].NoMem?
      || s.threads[t].Lost?)
       :: s.threads[t].slot < |s.cache.pool| && s.cache.pool[s.threads[t].slot].pin == 1
  }

  /** Exact now, and still so when a second store that is pending lands. */
  ghost predicate ExactLate(s: Sys)
    requires Base(s)
  { Exact(s) && forall u :: Exact(Step(s, u, Settle)) }

  ghost predicate AllExact(s: Sys, script: seq<(nat, Action)>)
    requires Base(s)
    decreases script
  {
    && ExactLate(s)
    && (script == [] ||
        var (t, a) := script[0];
        Breaks(s, t, a) || (StepKeepsBase(s, t, a); AllExact(Step(s, t, a), script[1..])))
  }

  lemma InvExact(s: Sys)
    requires Inv(s)
    ensures Exact(s)
  {
    hide Wf, Base, PinsOk;
    forall t | t in s.threads ensures ThreadOk(s.cache, s.threads[t]) {}
  }

  lemma SettleNoRace(s: Sys, t: nat)
    requires Base(s)
    ensures !Races(s, t, Settle)
  {}

  lemma InvExactLate(s: Sys)
    requires Inv(s)
    ensures ExactLate(s)
  {
    hide Wf, Inv, Base, Exact, Step, Races;
    Basics(s);
    InvExact(s);
    forall u ensures Exact(Step(s, u, Settle)) {
      SettleNoRace(s, u);
      StepKeepsInv(s, u, Settle);
      InvExact(Step(s, u, Settle));
    }
  }

  /** A Reserve that races leaves a store pending that will clear the new owner's pin. */
  lemma RaceInexact(s: Sys, t: nat, a: Action)
    requires Inv(s) && Races(s, t, a)
    ensures !Breaks(s, t, a) && Base(Step(s, t, a)) && !ExactLate(Step(s, t, a))
  {
    hide Wf, Inv, Base, AllocPage, GetChecks;
    Basics(s);
    NeverBreaks(s, t, a);
    StepKeepsBase(s, t, a);
    var x := AllocPage(s.cache, s.store).slot.value;
    AllocOk(s.cache, s.store);
    SizesOf(AllocPage(s.cache, s.store).cache);
    var u :| u != t && u in s.threads && s.threads[u] == Half(x);
    var s1 := Step(s, t, a);
    assert s1.threads[t] == Filling(x, s.threads[t].k, s.threads[t].size) && s1.threads[u] == Half(x);
    BaseAt(s1, u);
    LateStore(s1, t, u, x);
  }

  lemma LateStore(s: Sys, t: nat, u: nat, x: nat)
    requires Base(s) && t != u && t in s.threads && u in s.threads && Claims(s.threads[t], x) && s.threads[u] == Half(x)
    ensures x < |s.cache.pool| && Step(s, u, Settle) == SettleStep(s, u, x) && !Exact(Step(s, u, Settle))
  {
    hide Wf, PinsOk;
    assert BaseThread(s.cache, s.threads[u]);
    var s' := Step(s, u, Settle);
    assert t in s'.threads && s'.threads[t] == s.threads[t] && s'.cache.pool[x].pin == 0;
  }

  /** Over every run from a good state: pins stay exact, late stores included, if and only if no
      Reserve takes a slot whose owner stands between its two stores. */
  lemma {:induction false} PinsIff(s: Sys, script: seq<(nat, Action)>)
    requires Inv(s)
    ensures AllExact(s, script) <==> NoRace(s, script)
    ensures NoRace(s, script) ==> Inv(Run(s, script))
    decreases script
  {
    hide Wf, Inv, Base, Step, Races, ExactLate, Breaks;
    Basics(s);
    InvExactLate(s);
    if script != [] {
      var (t, a) := script[0];
      NeverBreaks(s, t, a);
      if Races(s, t, a) {
        RaceInexact(s, t, a);
        assert !AllExact(Step(s, t, a), script[1..]);
      } else {
        StepKeepsInv(s, t, a);
        PinsIff(Step(s, t, a), script[1..]);
      }
    }
  }

  /** Such a run is followed to its end: no removal in it is stray, and no store torn. */
  lemma {:induction false} NoRaceNoBreak(s: Sys, before: seq<(nat, Action)>, t: nat, a: Action)
    requires Inv(s) && NoRace(s, before)
    ensures !Breaks(Run(s, before), t, a)
  {
    hide Wf, Inv, Base, Breaks, Run, NoRace, AllExact;
    Basics(s);
    PinsIff(s, before);
    NeverBreaks(Run(s, before), t, a);
  }

  /** No thread other than t stands between its two stores: no step of t races. */
  ghost predicate Calm(threads: map<nat, Pc>, t: nat) { forall u | u in threads && u != t :: !threads[u].Half? }

  lemma CalmNoRace(s: Sys, t: nat, a: Action)
    requires Base(s) && Calm(s.threads, t)
    ensures !Races(s, t, a)
  {}

  /** Where pins are exact the eviction victim is never dirty, so eviction does no disk write under
      the lock. */
  lemma EvictionIsClean(s: Sys)
    requires Inv(s)
    ensures EvictOne(s.cache, s.store).store == s.store
    ensures PickVictim(s.cache).Some? ==>
      Live(s.cache, PickVictim(s.cache).value)
      && !s.cache.pool[PickVictim(s.cache).value].dirty
  {
    PickVictimOk(s.cache);
    if PickVictim(s.cache).Some? { DirtyPinned(s, PickVictim(s.cache).value); }
  }

  /** No step of any thread removes a pinned page or gives it another identity. */
  lemma PinnedStays(s: Sys, t: nat, a: Action, x: nat)
    requires Inv(s) && Live(s.cache, x) && s.cache.pool[x].pin > 0
    ensures Same(s.cache, Step(s, t, a).cache, x)
  {
    hide Wf, Inv, Base, Step, Races;
    Basics(s);
    if Races(s, t, a) { RaceKeeps(s, t, a, x); } else { StepKeepsInv(s, t, a); }
  }

  lemma RaceKeeps(s: Sys, t: nat, a: Action, x: nat)
    requires Inv(s) && Races(s, t, a) && Live(s.cache, x) && s.cache.pool[x].pin > 0
    ensures Same(s.cache, Step(s, t, a).cache, x)
  {
    hide Wf, Inv, Base, AllocPage, GetChecks, Remove;
    Basics(s);
    AllocOk(s.cache, s.store);
    var y := AllocPage(s.cache, s.store).slot.value;
    var u :| u != t && u in s.threads && s.threads[u] == Half(y);
    ThreadFact(s, u);
    assert y != x;
  }

  /** Some client keeps block k pinned throughout the run. */
  ghost predicate HeldThroughout(s: Sys, script: seq<(nat, Action)>, k: Key)
    requires Base(s)
    decreases script
  {
    && k in s.pins
    && (script == [] ||
        var (t, a) := script[0];
        Breaks(s, t, a) || (StepKeepsBase(s, t, a); HeldThroughout(Step(s, t, a), script[1..], k)))
  }

  /** Over every interleaving without a race in which some client keeps a block pinned, the block
      stays in the slot it is in, however often the lock is dropped for disk traffic. */
  lemma {:induction false} PinnedAcrossRun(s: Sys, script: seq<(nat, Action)>, k: Key)
    requires Inv(s) && NoRace(s, script) && HeldThroughout(s, script, k)
    ensures Find(Run(s, script).cache, k) == Find(s.cache, k)
    decreases script
  {
    hide Wf, Inv, Base, Step, Races, Breaks, Find;
    Basics(s);
    if script != [] {
      var (t, a) := script[0];
      NeverBreaks(s, t, a);
      StepKeepsInv(s, t, a);
      SlotKept(s, t, a, k);
      PinnedAcrossRun(Step(s, t, a), script[1..], k);
    }
  }

  lemma SlotKept(s: Sys, t: nat, a: Action, k: Key)
    requires Inv(s) && Inv(Step(s, t, a)) && k in s.pins && k in Step(s, t, a).pins
    ensures Find(Step(s, t, a).cache, k) == Find(s.cache, k)
  {
    hide Inv, Base, Step, Find;
    Basics(s);
    var s1 := Step(s, t, a);
    Basics(s1);
    HolderLive(s, k);
    HolderLive(s1, k);
    PinnedStays(s, t, a, Find(s.cache, k).value);
    assert KeysUnique(s1.cache);
  }
}
