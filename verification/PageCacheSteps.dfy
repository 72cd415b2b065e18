/** The page cache under concurrency. Every action is one section of pagecache.c between two
    lock operations, or one unlocked step on a slot or a disk, run by one thread; a run is any
    interleaving of actions. Clients release and write only blocks they have pinned. */
module PageCacheSteps {
  import opened Common
  import B = BlkDev
  import opened PageCacheModel

  /** What _writeback_pinned returns to. */
  datatype Cont = MarkDone | FlushFrom(dev: u32, i: nat, invalidate: bool) | DropBlock

  /** Where a thread inside a call stands, always with the lock dropped. A thread that lost the
      race to publish (`Lost`) clears its slot's flags and then, at `Half`, its pin count, as
      two stores outside the lock. A writeback clears DIRTY outside the lock as well: it loads
      the flag byte and, at `WbStore`, stores it back. */
  datatype Pc =
    | Missed(k: Key, size: u32)
    | Filling(slot: nat, k: Key, size: u32)
    | Filled(slot: nat, k: Key, size: u32)
    | NoMem(slot: nat)
    | Lost(slot: nat)
    | Half(slot: nat)
    | WbStart(page: nat, cont: Cont)
    | WbClear(page: nat, cont: Cont)
    | WbStore(page: nat, cont: Cont, used: bool, valid: bool)
    | WbEnd(page: nat, cont: Cont)
    | Dropping(dev: u32, i: nat)

  /** `threads` holds the threads that are inside a call; `pins` the pins clients hold. */
  datatype Sys = Sys(cache: Cache, store: Store, threads: map<nat, Pc>, pins: multiset<Key>)

  datatype Action =
    | Lookup(k: Key, size: u32) | Reserve | Fill(kallocOk: bool) | GiveUp | Publish | Discard | Settle
    | Mark(k: Key) | WbIo | WbLoad | WbClean | WbFinish
    | Put(k: Key) | Poke(k: Key, data: Block)
    | Flush(dev: u32, invalidate: bool) | Invalidate(k: Key) | DropNext

  /** The thread has slot x claimed: USED, not VALID. */
  predicate Claims(pc: Pc, x: nat) {
    (pc.Filling? || pc.Filled? || pc.NoMem? || pc.Lost?) && pc.slot == x
  }
  predicate Writing(pc: Pc, x: nat) { (pc.WbStart? || pc.WbClear? || pc.WbStore? || pc.WbEnd?) && pc.page == x }
  predicate Pending(pc: Pc, x: nat) { (pc.WbStart? || pc.WbClear? || pc.WbStore?) && pc.page == x }

  function Writers(threads: map<nat, Pc>, x: nat): set<nat> {
    set t | t in threads && Writing(threads[t], x)
  }

  // ---------------------------------------------------------------- the steps

  function Goto(s: Sys, t: nat, pc: Pc): Sys { s.(threads := s.threads[t := pc]) }

  function Done(s: Sys, t: nat): Sys { s.(threads := s.threads - {t}) }

  function More(pins: multiset<Key>, k: Key): multiset<Key> { pins[k := pins[k] + 1] }

  function Fewer(pins: multiset<Key>, k: Key): multiset<Key>
    requires k in pins
  { pins[k := pins[k] - 1] }

  /** Pin a live page for a client and move it to the LRU head. */
  function Hit(s: Sys, x: nat): Sys
    requires x < |s.cache.pool|
  {
    s.(cache := Touch(Pinned(s.cache, x), x), pins := More(s.pins, s.cache.pool[x].key))
  }

  ghost function LookupStep(s: Sys, t: nat, k: Key, size: u32): Sys
    requires Wf(s.cache)
  {
    FindOk(s.cache, k);
    match Find(s.cache, k)
    case Some(x) => Hit(s, x)
    case None => Goto(s, t, Missed(k, size))
  }

  ghost function ReserveStep(s: Sys, t: nat, k: Key, size: u32): Sys
    requires Wf(s.cache)
  {
    if !GetChecks(s.store, k, size) then Done(s, t)
    else
      var r := AllocPage(s.cache, s.store);
      AllocOk(s.cache, s.store);
      match r.slot
      case None => Done(s, t)
      case Some(x) => Goto(s.(cache := Claim(r.cache, x, k, size), store := r.store), t, Filling(x, k, size))
  }

  function FillStep(s: Sys, t: nat, x: nat, k: Key, size: u32, kallocOk: bool): Sys
    requires x < |s.cache.pool|
  {
    if s.cache.pool[x].data.None? && !kallocOk then Goto(s, t, NoMem(x))
    else Goto(s.(cache := Set(s.cache, x, FilledPage(s.store, s.cache.pool[x]))), t, Filled(x, k, size))
  }

  /** Giving an unpublished slot back, under the lock. */
  function ReturnStep(s: Sys, t: nat, x: nat): Sys
    requires x < |s.cache.pool|
  { Done(s.(cache := Set(s.cache, x, Freed(s.cache.pool[x]))), t) }

  /** The losing thread's first store: flags = 0. */
  function DiscardStep(s: Sys, t: nat, x: nat): Sys
    requires x < |s.cache.pool|
  {
    Goto(s.(cache := Set(s.cache, x, s.cache.pool[x].(used := false, valid := false, dirty := false))), t, Half(x))
  }

  /** Its second store: pin_count = 0, whatever the slot has become. */
  function SettleStep(s: Sys, t: nat, x: nat): Sys
    requires x < |s.cache.pool|
  { Done(s.(cache := Set(s.cache, x, s.cache.pool[x].(pin := 0))), t) }

  ghost function PublishStep(s: Sys, t: nat, x: nat, k: Key): Sys
    requires Wf(s.cache) && x < POOL
  {
    FindOk(s.cache, k);
    match Find(s.cache, k)
    case Some(e) => Goto(Hit(s, e), t, Lost(x))
    case None => Done(s.(cache := Insert(s.cache, x), pins := More(s.pins, k)), t)
  }

  ghost function MarkStep(s: Sys, t: nat, k: Key): Sys
    requires Wf(s.cache)
  {
    FindOk(s.cache, k);
    match Find(s.cache, k)
    case None => s
    case Some(x) =>
      var p := s.cache.pool[x];
      Goto(s.(cache := Set(s.cache, x, p.(dirty := true, pin := p.pin + 1))), t, WbStart(x, MarkDone))
  }

  function WbIoStep(s: Sys, t: nat, x: nat, cont: Cont): Sys
    requires x < |s.cache.pool|
  {
    if !s.cache.pool[x].dirty then Goto(s, t, WbEnd(x, cont))
    else Goto(s.(store := WritebackStore(s.store, s.cache.pool[x])), t, WbClear(x, cont))
  }

  function WbLoadStep(s: Sys, t: nat, x: nat, cont: Cont): Sys
    requires x < |s.cache.pool|
  { Goto(s, t, WbStore(x, cont, s.cache.pool[x].used, s.cache.pool[x].valid)) }

  /** The flags as they were loaded, without DIRTY, whatever they have become. */
  function WbCleanStep(s: Sys, t: nat, x: nat, cont: Cont, used: bool, valid: bool): Sys
    requires x < |s.cache.pool|
  {
    var p := s.cache.pool[x].(used := used, valid := valid, dirty := false);
    Goto(s.(cache := Set(s.cache, x, p)), t, WbEnd(x, cont))
  }

  /** The scan of pc_flush_dev from slot i to the next dirty page, which it pins. */
  function FlushScan(s: Sys, t: nat, dev: u32, i: nat, invalidate: bool): Sys {
    match First(FlushFlags(s.cache, dev, i))
    case Some(j) => Goto(s.(cache := Pinned(s.cache, j)), t, WbStart(j, FlushFrom(dev, j + 1, invalidate)))
    case None => if invalidate then Goto(s, t, Dropping(dev, 0)) else Done(s, t)
  }

  /** The end of _writeback_pinned: the lock is retaken and the pin given back. */
  ghost function WbFinishStep(s: Sys, t: nat, x: nat, cont: Cont): Sys
    requires Wf(s.cache) && x < POOL
  {
    match cont
    case MarkDone => Done(s.(cache := Unpinned(s.cache, x)), t)
    case FlushFrom(dev, i, inv) => FlushScan(s.(cache := Unpinned(s.cache, x)), t, dev, i, inv)
    case DropBlock => Done(s.(cache := Drop(s.cache, x)), t)
  }

  ghost function PutStep(s: Sys, k: Key): Sys
    requires Wf(s.cache) && k in s.pins
  {
    FindOk(s.cache, k);
    var s1 := s.(pins := Fewer(s.pins, k));
    match Find(s.cache, k)
    case None => s1
    case Some(x) => if s.cache.pool[x].pin == 0 then s1 else s1.(cache := Unpinned(s.cache, x))
  }

  /** A client writes into a buffer it has pinned. */
  ghost function PokeStep(s: Sys, k: Key, d: Block): Sys
    requires Wf(s.cache)
  {
    FindOk(s.cache, k);
    match Find(s.cache, k)
    case None => s
    case Some(x) => s.(cache := Set(s.cache, x, s.cache.pool[x].(data := Some(d))))
  }

  ghost function InvalidateStep(s: Sys, t: nat, k: Key): Sys
    requires Wf(s.cache)
  {
    FindOk(s.cache, k);
    match Find(s.cache, k)
    case None => s
    case Some(x) =>
      if s.cache.pool[x].pin > 0 then s
      else if s.cache.pool[x].dirty then Goto(s.(cache := Pinned(s.cache, x)), t, WbStart(x, DropBlock))
      else s.(cache := Drop(s.cache, x))
  }

  /** One turn of the removal loop of pc_invalidate_dev, up to its unlock. */
  ghost function DropStep(s: Sys, t: nat, dev: u32, i: nat): Sys
    requires Wf(s.cache)
  {
    match First(DropFlags(s.cache, dev, i))
    case None => Done(s, t)
    case Some(j) => Goto(s.(cache := Drop(s.cache, j)), t, Dropping(dev, j + 1))
  }

  /** One step of thread t. An action that is not possible in this state changes nothing;
      clients put and write only what they have pinned. */
  ghost function Step(s: Sys, t: nat, a: Action): Sys
    requires Base(s)
  {
    if t !in s.threads then
      match a
      case Lookup(k, size) => LookupStep(s, t, k, size)
      case Mark(k) => MarkStep(s, t, k)
      case Put(k) => if k in s.pins then PutStep(s, k) else s
      case Poke(k, d) => if k in s.pins then PokeStep(s, k, d) else s
      case Flush(dev, inv) => FlushScan(s, t, dev, 0, inv)
      case Invalidate(k) => InvalidateStep(s, t, k)
      case _ => s
    else
      assert BaseThread(s.cache, s.threads[t]);
      match s.threads[t]
      case Missed(k, size) => if a.Reserve? then ReserveStep(s, t, k, size) else s
      case Filling(x, k, size) => if a.Fill? then FillStep(s, t, x, k, size, a.kallocOk) else s
      case NoMem(x) => if a.GiveUp? then ReturnStep(s, t, x) else s
      case Filled(x, k, size) => if a.Publish? then PublishStep(s, t, x, k) else s
      case Lost(x) => if a.Discard? then DiscardStep(s, t, x) else s
      case Half(x) => if a.Settle? then SettleStep(s, t, x) else s
      case WbStart(x, cont) => if a.WbIo? then WbIoStep(s, t, x, cont) else s
      case WbClear(x, cont) => if a.WbLoad? then WbLoadStep(s, t, x, cont) else s
      case WbStore(x, cont, used, valid) => if a.WbClean? then WbCleanStep(s, t, x, cont, used, valid) else s
      case WbEnd(x, cont) => if a.WbFinish? then WbFinishStep(s, t, x, cont) else s
      case Dropping(dev, i) => if a.DropNext? then DropStep(s, t, dev, i) else s
  }

  // ---------------------------------------------------------------- what every interleaving keeps

  /** A claimed slot is USED, not VALID and as its thread left it; nothing is said of pins. */
  ghost predicate BaseThread(c: Cache, pc: Pc) {
    match pc
    case Missed(_, _) => true
    case Dropping(_, _) => true
    case WbStart(x, _) => x < |c.pool|
    case WbClear(x, _) => x < |c.pool|
    case WbStore(x, _, _, _) => x < |c.pool|
    case WbEnd(x, _) => x < |c.pool|
    case Half(x) => x < |c.pool|
    case Filling(x, k, size) => Reserved(c, x) && c.pool[x].key == k && c.pool[x].size == size
    case Filled(x, k, size) => Reserved(c, x) && c.pool[x].key == k && c.pool[x].size == size && c.pool[x].data.Some?
    case NoMem(x) => Reserved(c, x)
    case Lost(x) => Reserved(c, x)
  }

  ghost predicate Reserved(c: Cache, x: nat) { x < |c.pool| && c.pool[x].used && !c.pool[x].valid }

  ghost predicate ClaimsDistinct(threads: map<nat, Pc>) {
    forall t, u, x: nat | t in threads && u in threads && Claims(threads[t], x) && Claims(threads[u], x) :: t == u
  }

  ghost predicate Held(threads: map<nat, Pc>, x: nat) { exists t :: t in threads && Claims(threads[t], x) }

  /** A slot that is used but not valid belongs to a thread: none is leaked. */
  ghost predicate NoLeak(s: Sys) { forall x: nat | Reserved(s.cache, x) :: Held(s.threads, x) }

  ghost predicate InFlight(threads: map<nat, Pc>, x: nat) { exists t :: t in threads && Pending(threads[t], x) }

  ghost predicate DirtyOk(s: Sys) {
    forall x: nat | Live(s.cache, x) && s.cache.pool[x].dirty :: InFlight(s.threads, x)
  }

  /** Kept by every interleaving, whatever becomes of the pin counts: the three views of the pool
      agree, claimed slots have one owner each, and a dirty page has a writeback in flight. */
  ghost predicate Base(s: Sys) {
    && Wf(s.cache) && (forall t | t in s.threads :: BaseThread(s.cache, s.threads[t]))
    && ClaimsDistinct(s.threads) && NoLeak(s) && DirtyOk(s)
  }

  // ---------------------------------------------------------------- one step, slot by slot

  ghost predicate OthersSame(s: Sys, s': Sys, t: nat) {
    && (forall u | u != t :: u in s.threads <==> u in s'.threads)
    && (forall u | u in s.threads && u != t :: s'.threads[u] == s.threads[u])
  }

  /** Equal but for pin count and dirtiness. */
  predicate Alike(p: Page, p': Page) {
    p'.used == p.used && p'.valid == p.valid && p'.key == p.key && p'.size == p.size && p'.data == p.data
  }

  /** What a step of t may do to slot x, pins aside. */
  ghost predicate BaseSlot(s: Sys, s': Sys, t: nat, x: nat)
    requires x < |s.cache.pool| && x < |s'.cache.pool|
  {
    var p, p' := s.cache.pool[x], s'.cache.pool[x];
    var mine, mine' := t in s.threads && Claims(s.threads[t], x), t in s'.threads && Claims(s'.threads[t], x);
    && (p'.used && !p'.valid ==> mine' || (Alike(p, p') && !mine))
    && (p.used && !p.valid && !Alike(p, p') ==> mine)
    && (mine' ==> mine || !(p.used && !p.valid))
    && (p'.valid && p'.dirty ==>
          || (t in s'.threads && Pending(s'.threads[t], x))
          || (p.valid && p.dirty && !(t in s.threads && Pending(s.threads[t], x))))
  }

  ghost predicate BaseEffect(s: Sys, s': Sys, t: nat) {
    && Wf(s'.cache) && OthersSame(s, s', t)
    && |s.cache.pool| == |s'.cache.pool| == POOL
    && (forall x: nat | x < POOL :: BaseSlot(s, s', t, x))
    && (t in s'.threads ==> BaseThread(s'.cache, s'.threads[t]))
  }

  lemma BaseThreadsKept(s: Sys, s': Sys, t: nat)
    requires Base(s) && BaseEffect(s, s', t)
    ensures forall u | u in s'.threads :: BaseThread(s'.cache, s'.threads[u])
  {
    hide Wf;
    forall u | u in s'.threads ensures BaseThread(s'.cache, s'.threads[u]) {
      if u != t {
        var pc := s.threads[u];
        assert BaseThread(s.cache, pc);
        if pc.Filling? || pc.Filled? || pc.NoMem? || pc.Lost? {
          assert Claims(pc, pc.slot);
          assert BaseSlot(s, s', t, pc.slot);
        }
      }
    }
  }

  lemma ClaimsKept(s: Sys, s': Sys, t: nat)
    requires Base(s) && BaseEffect(s, s', t)
    ensures ClaimsDistinct(s'.threads)
  {
    hide Wf;
    forall u, v, x: nat | u in s'.threads && v in s'.threads && Claims(s'.threads[u], x) && Claims(s'.threads[v], x)
      ensures u == v
    {
      if u != t { assert BaseThread(s.cache, s.threads[u]); assert BaseSlot(s, s', t, x); }
      if v != t { assert BaseThread(s.cache, s.threads[v]); assert BaseSlot(s, s', t, x); }
    }
  }

  lemma LeaksKept(s: Sys, s': Sys, t: nat)
    requires Base(s) && BaseEffect(s, s', t)
    ensures NoLeak(s') && DirtyOk(s')
  {
    hide Wf;
    forall x: nat | Reserved(s'.cache, x) ensures Held(s'.threads, x) {
      assert BaseSlot(s, s', t, x);
      if !(t in s'.threads && Claims(s'.threads[t], x)) {
        assert Reserved(s.cache, x);
        var u :| u in s.threads && Claims(s.threads[u], x);
        assert u in s'.threads && Claims(s'.threads[u], x);
      }
    }
    forall x: nat | Live(s'.cache, x) && s'.cache.pool[x].dirty ensures InFlight(s'.threads, x) {
      assert BaseSlot(s, s', t, x);
      if !(t in s'.threads && Pending(s'.threads[t], x)) {
        assert Live(s.cache, x);
        var u :| u in s.threads && Pending(s.threads[u], x);
        assert u in s'.threads && Pending(s'.threads[u], x);
      }
    }
  }

  lemma EffectKeepsBase(s: Sys, s': Sys, t: nat)
    requires Base(s) && BaseEffect(s, s', t)
    ensures Base(s')
  {
    hide Wf, BaseThread, NoLeak, DirtyOk, ClaimsDistinct, BaseSlot;
    BaseThreadsKept(s, s', t);
    ClaimsKept(s, s', t);
    LeaksKept(s, s', t);
  }

  lemma BaseParts(s: Sys)
    requires Base(s)
    ensures Wf(s.cache) && Sizes(s.cache)
  {}

  lemma BaseAt(s: Sys, t: nat)
    requires Base(s) && t in s.threads
    ensures BaseThread(s.cache, s.threads[t])
  {}

  predicate OnlySlot(threads: map<nat, Pc>, t: nat, x: nat) {
    t in threads ==>
      match threads[t]
      case Missed(_, _) => true
      case Dropping(_, _) => true
      case Filling(y, _, _) => y == x
      case Filled(y, _, _) => y == x
      case NoMem(y) => y == x
      case Lost(y) => y == x
      case Half(y) => y == x
      case WbStart(y, _) => y == x
      case WbClear(y, _) => y == x
      case WbStore(y, _, _, _) => y == x
      case WbEnd(y, _) => y == x
  }

  /** Only the program counter of t moves, and only between points that concern slot x. */
  ghost predicate Local(s: Sys, s': Sys, t: nat, x: nat) {
    || s'.threads == s.threads
    || (OthersSame(s, s', t) && OnlySlot(s.threads, t, x) && OnlySlot(s'.threads, t, x))
  }

  /** A step that changes only slot x of the pool. */
  lemma BaseOne(s: Sys, s': Sys, t: nat, x: nat)
    requires Base(s) && Wf(s'.cache) && x < |s.cache.pool| == |s'.cache.pool|
    requires s'.cache.pool == s.cache.pool[x := s'.cache.pool[x]]
    requires Local(s, s', t, x) && BaseSlot(s, s', t, x)
    requires t in s'.threads ==> BaseThread(s'.cache, s'.threads[t])
    ensures Base(s')
  {
    hide Wf, Base, BaseThread;
    BaseParts(s);
    forall y: nat | y < POOL ensures BaseSlot(s, s', t, y) { if y != x { assert s'.cache.pool[y] == s.cache.pool[y]; } }
    EffectKeepsBase(s, s', t);
  }

  /** A step that changes no page. */
  lemma BaseNeutral(s: Sys, s': Sys, t: nat)
    requires Base(s) && s'.cache == s.cache && OthersSame(s, s', t)
    requires forall y: nat :: (t in s.threads && Claims(s.threads[t], y)) <==>
      (t in s'.threads && Claims(s'.threads[t], y))
    requires forall y: nat | t in s.threads && Pending(s.threads[t], y) && Live(s.cache, y) && s.cache.pool[y].dirty
             :: t in s'.threads && Pending(s'.threads[t], y)
    requires t in s'.threads ==> BaseThread(s.cache, s'.threads[t])
    ensures Base(s')
  {
    hide Wf, Base, BaseThread;
    BaseParts(s);
    EffectKeepsBase(s, s', t);
  }

  // ---------------------------------------------------------------- every action

  lemma PageWf(c: Cache, c': Cache, x: nat, p: Page)
    requires Wf(c) && Live(c, x) && PageOk(p) && p.valid && p.key == c.pool[x].key
    requires c' == Set(c, x, p) || c' == Touch(Set(c, x, p), x)
    ensures Wf(c') && |c.pool| == |c'.pool| == POOL && c'.pool == c.pool[x := p]
    ensures forall y: nat | y != x && Live(c, y) :: c.pool[y].key != p.key
  {
    SetKeepsWf(c, x, p);
    assert KeysUnique(c) && Sizes(c);
    hide Wf;
    TouchKeepsWf(Set(c, x, p), x);
  }

  /** A step that changes one live page without moving it. */
  lemma BasePage(s: Sys, s': Sys, t: nat, x: nat, p: Page)
    requires Base(s) && Live(s.cache, x) && PageOk(p) && p.valid && p.key == s.cache.pool[x].key
    requires s'.cache == Set(s.cache, x, p) || s'.cache == Touch(Set(s.cache, x, p), x)
    requires Local(s, s', t, x) && BaseSlot(s, s', t, x)
    requires t in s'.threads ==> BaseThread(s'.cache, s'.threads[t])
    ensures Base(s')
  {
    hide Wf, Base, BaseSlot, Local, BaseThread, Touch, Set;
    BaseParts(s);
    PageWf(s.cache, s'.cache, x, p);
    BaseOne(s, s', t, x);
  }

  lemma LiveNotClaimed(s: Sys, t: nat, x: nat)
    requires Base(s) && Live(s.cache, x) && t in s.threads
    ensures !Claims(s.threads[t], x)
  { assert BaseThread(s.cache, s.threads[t]); }

  lemma BaseHit(s: Sys, t: nat, x: nat)
    requires Base(s) && Live(s.cache, x)
    ensures Base(Hit(s, x))
  {
    hide Wf, Base, Without;
    BaseParts(s);
    if t in s.threads { BaseAt(s, t); LiveNotClaimed(s, t, x); }
    BasePage(s, Hit(s, x), t, x, s.cache.pool[x].(pin := s.cache.pool[x].pin + 1));
  }

  lemma BaseLookup(s: Sys, t: nat, k: Key, size: u32)
    requires Base(s) && t !in s.threads
    ensures Base(LookupStep(s, t, k, size))
  {
    hide Wf, Base, Find, Touch;
    BaseParts(s);
    FindOk(s.cache, k);
    match Find(s.cache, k)
    case None => BaseNeutral(s, LookupStep(s, t, k, size), t);
    case Some(x) => BaseHit(s, t, x);
  }

  lemma BaseMark(s: Sys, t: nat, k: Key)
    requires Base(s) && t !in s.threads
    ensures Base(MarkStep(s, t, k))
  {
    hide Wf, Base, Find;
    BaseParts(s);
    FindOk(s.cache, k);
    var s' := MarkStep(s, t, k);
    match Find(s.cache, k)
    case None =>
    case Some(x) => BasePage(s, s', t, x, s'.cache.pool[x]);
  }

  lemma BasePut(s: Sys, t: nat, k: Key)
    requires Base(s) && t !in s.threads && k in s.pins
    ensures Base(PutStep(s, k))
  {
    hide Wf, Base, Find;
    BaseParts(s);
    FindOk(s.cache, k);
    var s' := PutStep(s, k);
    var f := Find(s.cache, k);
    if f.Some? && s.cache.pool[f.value].pin != 0 { BasePage(s, s', t, f.value, s'.cache.pool[f.value]); }
    else { BaseNeutral(s, s', t); }
  }

  lemma BasePoke(s: Sys, t: nat, k: Key, d: Block)
    requires Base(s) && t !in s.threads
    ensures Base(PokeStep(s, k, d))
  {
    hide Wf, Base, Find;
    BaseParts(s);
    FindOk(s.cache, k);
    var s' := PokeStep(s, k, d);
    match Find(s.cache, k)
    case None =>
    case Some(x) => BasePage(s, s', t, x, s'.cache.pool[x]);
  }

  /** A step that rewrites slot x, listed or not, without changing what the lists see of it. */
  lemma BaseSet(s: Sys, s': Sys, t: nat, x: nat, p: Page)
    requires Base(s) && x < |s.cache.pool| && s'.cache == Set(s.cache, x, p)
    requires PageOk(p) && p.valid == s.cache.pool[x].valid && (p.valid ==> p.key == s.cache.pool[x].key)
    requires OthersSame(s, s', t) && OnlySlot(s.threads, t, x) && OnlySlot(s'.threads, t, x)
    requires BaseSlot(s, s', t, x)
    requires t in s'.threads ==> BaseThread(s'.cache, s'.threads[t])
    ensures Base(s')
  {
    hide Wf, Base, BaseThread, BaseSlot;
    BaseParts(s);
    SetKeepsWf(s.cache, x, p);
    BaseOne(s, s', t, x);
  }

  lemma BaseWbIo(s: Sys, t: nat, x: nat, cont: Cont)
    requires Base(s) && t in s.threads && s.threads[t] == WbStart(x, cont)
    ensures x < |s.cache.pool| && Base(WbIoStep(s, t, x, cont))
  {
    hide Wf, Base;
    BaseAt(s, t);
    BaseNeutral(s, WbIoStep(s, t, x, cont), t);
  }

  lemma PoolPageOk(s: Sys, x: nat)
    requires Base(s) && x < |s.cache.pool|
    ensures PageOk(s.cache.pool[x]) && x < POOL == |s.cache.pool|
  {}

  lemma BaseWbLoad(s: Sys, t: nat, x: nat, cont: Cont)
    requires Base(s) && t in s.threads && s.threads[t] == WbClear(x, cont)
    ensures x < |s.cache.pool| && Base(WbLoadStep(s, t, x, cont))
  {
    hide Wf, Base;
    BaseAt(s, t);
    BaseNeutral(s, WbLoadStep(s, t, x, cont), t);
  }

  lemma BaseWbClean(s: Sys, t: nat, x: nat, cont: Cont, used: bool, valid: bool)
    requires Base(s) && t in s.threads && s.threads[t] == WbStore(x, cont, used, valid)
    requires x < |s.cache.pool| ==> s.cache.pool[x].used == used && s.cache.pool[x].valid == valid
    ensures x < |s.cache.pool| && Base(WbCleanStep(s, t, x, cont, used, valid))
  {
    hide Wf, Base;
    BaseAt(s, t);
    PoolPageOk(s, x);
    var s' := WbCleanStep(s, t, x, cont, used, valid);
    BaseSet(s, s', t, x, s'.cache.pool[x]);
  }

  lemma BaseReserve(s: Sys, t: nat, k: Key, size: u32)
    requires Base(s) && t in s.threads && s.threads[t] == Missed(k, size)
    ensures Base(ReserveStep(s, t, k, size))
  {
    hide Wf, Base, AllocPage, GetChecks, Remove;
    BaseParts(s);
    var s' := ReserveStep(s, t, k, size);
    var r := AllocPage(s.cache, s.store);
    AllocOk(s.cache, s.store);
    if r.slot.Some? && GetChecks(s.store, k, size) {
      var x := r.slot.value;
      SizesOf(r.cache);
      SetKeepsWf(r.cache, x, s'.cache.pool[x]);
      assert s'.cache.pool == s.cache.pool[x := s'.cache.pool[x]];
      BaseOne(s, s', t, x);
    } else {
      BaseNeutral(s, s', t);
    }
  }

  lemma SizesOf(c: Cache)
    requires Wf(c)
    ensures Sizes(c)
  {}

  lemma BaseFill(s: Sys, t: nat, x: nat, k: Key, size: u32, ok: bool)
    requires Base(s) && t in s.threads && s.threads[t] == Filling(x, k, size)
    ensures x < |s.cache.pool| && Base(FillStep(s, t, x, k, size, ok))
  {
    hide Wf, Base, ReadBlock;
    BaseAt(s, t);
    PoolPageOk(s, x);
    var s' := FillStep(s, t, x, k, size, ok);
    if s'.threads[t].NoMem? { BaseNeutral(s, s', t); } else { BaseSet(s, s', t, x, s'.cache.pool[x]); }
  }

  lemma BaseReturn(s: Sys, t: nat, x: nat)
    requires Base(s) && t in s.threads && s.threads[t] == NoMem(x)
    ensures x < |s.cache.pool| && Base(ReturnStep(s, t, x))
  {
    hide Wf, Base;
    BaseAt(s, t);
    PoolPageOk(s, x);
    BaseSet(s, ReturnStep(s, t, x), t, x, Freed(s.cache.pool[x]));
  }

  lemma BaseDiscard(s: Sys, t: nat, x: nat)
    requires Base(s) && t in s.threads && s.threads[t] == Lost(x)
    ensures x < |s.cache.pool| && Base(DiscardStep(s, t, x))
  {
    hide Wf, Base;
    BaseAt(s, t);
    PoolPageOk(s, x);
    var s' := DiscardStep(s, t, x);
    BaseSet(s, s', t, x, s'.cache.pool[x]);
  }

  lemma BaseSettle(s: Sys, t: nat, x: nat)
    requires Base(s) && t in s.threads && s.threads[t] == Half(x)
    ensures x < |s.cache.pool| && Base(SettleStep(s, t, x))
  {
    hide Wf, Base;
    BaseAt(s, t);
    PoolPageOk(s, x);
    var s' := SettleStep(s, t, x);
    BaseSet(s, s', t, x, s'.cache.pool[x]);
  }

  lemma BasePublish(s: Sys, t: nat, x: nat, k: Key, size: u32)
    requires Base(s) && t in s.threads && s.threads[t] == Filled(x, k, size)
    ensures x < |s.cache.pool| == POOL && Base(PublishStep(s, t, x, k))
  {
    hide Wf, Base, Find, Without, Insert;
    BaseParts(s);
    BaseAt(s, t);
    FindOk(s.cache, k);
    match Find(s.cache, k)
    case Some(e) =>
      BaseHit(s, t, e);
      BaseAt(Hit(s, e), t);
      BaseNeutral(Hit(s, e), PublishStep(s, t, x, k), t);
    case None => BaseInsert(s, t, x, k, size);
  }

  lemma BaseInsert(s: Sys, t: nat, x: nat, k: Key, size: u32)
    requires Base(s) && t in s.threads && s.threads[t] == Filled(x, k, size) && x < POOL
    requires forall y: nat | Live(s.cache, y) :: s.cache.pool[y].key != k
    ensures Sizes(s.cache) && Base(Done(s.(cache := Insert(s.cache, x), pins := More(s.pins, k)), t))
  {
    hide Wf, Base, Without;
    BaseParts(s);
    BaseAt(s, t);
    InsertKeepsWf(s.cache, x);
    PoolPageOk(s, x);
    BaseOne(s, Done(s.(cache := Insert(s.cache, x), pins := More(s.pins, k)), t), t, x);
  }

  lemma BaseDrop(s: Sys, s': Sys, t: nat, x: nat)
    requires Base(s) && Live(s.cache, x) && Sizes(s.cache)
    requires s'.cache == Drop(s.cache, x) && OthersSame(s, s', t)
    requires OnlySlot(s.threads, t, x) && OnlySlot(s'.threads, t, x)
    requires t in s'.threads ==> s'.threads[t].Dropping?
    ensures Base(s')
  {
    hide Wf, Base, Without;
    BaseParts(s);
    if t in s.threads { LiveNotClaimed(s, t, x); }
    DropKeepsWf(s.cache, x);
    assert s'.cache.pool == s.cache.pool[x := s'.cache.pool[x]];
    BaseOne(s, s', t, x);
  }

  lemma BaseInvalidate(s: Sys, t: nat, k: Key)
    requires Base(s) && t !in s.threads
    ensures Base(InvalidateStep(s, t, k))
  {
    hide Wf, Base, Find, Drop;
    BaseParts(s);
    FindOk(s.cache, k);
    var s' := InvalidateStep(s, t, k);
    match Find(s.cache, k)
    case None =>
    case Some(x) =>
      if s.cache.pool[x].pin <= 0 {
        if s.cache.pool[x].dirty { BasePage(s, s', t, x, s'.cache.pool[x]); } else { BaseDrop(s, s', t, x); }
      }
  }

  lemma BaseDropNext(s: Sys, t: nat, dev: u32, i: nat)
    requires Base(s) && t in s.threads && s.threads[t] == Dropping(dev, i)
    ensures Base(DropStep(s, t, dev, i))
  {
    hide Wf, Base, Drop;
    BaseParts(s);
    var s' := DropStep(s, t, dev, i);
    var f := DropFlags(s.cache, dev, i);
    match First(f)
    case None => BaseNeutral(s, s', t);
    case Some(j) =>
      assert f[j];
      BaseDrop(s, s', t, j);
  }

  lemma BaseFlush(s: Sys, t: nat, dev: u32, i: nat, inv: bool)
    requires Base(s) && t !in s.threads
    ensures Base(FlushScan(s, t, dev, i, inv))
  {
    hide Wf, Base;
    BaseParts(s);
    var s' := FlushScan(s, t, dev, i, inv);
    var f := FlushFlags(s.cache, dev, i);
    match First(f)
    case None => BaseNeutral(s, s', t);
    case Some(j) =>
      assert f[j];
      BasePage(s, s', t, j, s'.cache.pool[j]);
  }

  lemma BaseUnpin(s: Sys, t: nat, x: nat, cont: Cont)
    requires Base(s) && t in s.threads && s.threads[t] == WbEnd(x, cont)
    ensures x < |s.cache.pool| == POOL && Base(Done(s.(cache := Unpinned(s.cache, x)), t))
  {
    hide Wf, Base;
    BaseAt(s, t);
    PoolPageOk(s, x);
    var s' := Done(s.(cache := Unpinned(s.cache, x)), t);
    BaseSet(s, s', t, x, s'.cache.pool[x]);
  }

  lemma FlushAfterDone(s: Sys, t: nat, dev: u32, i: nat, inv: bool)
    ensures FlushScan(Done(s, t), t, dev, i, inv) == FlushScan(s, t, dev, i, inv)
  {
    var f := First(FlushFlags(s.cache, dev, i));
    if f.Some? {
      var pc := WbStart(f.value, FlushFrom(dev, f.value + 1, inv));
      assert (s.threads - {t})[t := pc] == s.threads[t := pc];
    }
    assert (s.threads - {t})[t := Dropping(dev, 0)] == s.threads[t := Dropping(dev, 0)];
    assert (s.threads - {t}) - {t} == s.threads - {t};
  }

  lemma BaseFinish(s: Sys, t: nat, x: nat, cont: Cont)
    requires Base(s) && t in s.threads && s.threads[t] == WbEnd(x, cont)
    requires cont.DropBlock? ==> Live(s.cache, x)
    ensures x < |s.cache.pool| == POOL && Wf(s.cache) && Base(WbFinishStep(s, t, x, cont))
  {
    hide Wf, Base, Drop;
    BaseParts(s);
    BaseUnpin(s, t, x, cont);
    match cont {
      case MarkDone =>
      case FlushFrom(dev, i, inv) =>
        var s0 := s.(cache := Unpinned(s.cache, x));
        BaseFlush(Done(s0, t), t, dev, i, inv);
        FlushAfterDone(s0, t, dev, i, inv);
      case DropBlock => BaseDrop(s, WbFinishStep(s, t, x, cont), t, x);
    }
  }

  /** pc_invalidate_block resumes, after its writeback, on a page that has left the lists in the
      meantime: it then unlinks a page that is not linked. */
  ghost predicate Stray(s: Sys, t: nat, a: Action) {
    t in s.threads && s.threads[t].WbEnd? && s.threads[t].cont.DropBlock? && a.WbFinish?
      && !Live(s.cache, s.threads[t].page)
  }

  /** A writeback stores flags that it loaded before another thread gave the slot away: it then
      marks a page VALID that is in no list, or a listed page as not VALID. */
  ghost predicate Torn(s: Sys, t: nat, a: Action) {
    && t in s.threads && s.threads[t].WbStore? && a.WbClean? && s.threads[t].page < |s.cache.pool|
    && var p := s.cache.pool[s.threads[t].page];
       !(p.used == s.threads[t].used && p.valid == s.threads[t].valid)
  }

  /** The steps after which the lists are not described. */
  ghost predicate Breaks(s: Sys, t: nat, a: Action) { Stray(s, t, a) || Torn(s, t, a) }

  /** Every other step of every thread keeps the three views, the ownership of claimed slots and the
      writeback in flight of every dirty page, whatever the pin counts are. */
  lemma StepKeepsBase(s: Sys, t: nat, a: Action)
    requires Base(s) && !Breaks(s, t, a)
    ensures Base(Step(s, t, a))
  {
    hide Wf, Base, BaseThread;
    if t !in s.threads { IdleKeepsBase(s, t, a); } else { BusyKeepsBase(s, t, a); }
  }

  lemma IdleKeepsBase(s: Sys, t: nat, a: Action)
    requires Base(s) && t !in s.threads
    ensures Base(Step(s, t, a))
  {
    hide Wf, Base, LookupStep, MarkStep, PutStep, PokeStep, FlushScan, InvalidateStep;
    match a {
      case Lookup(k, size) => BaseLookup(s, t, k, size);
      case Mark(k) => BaseMark(s, t, k);
      case Put(k) => if k in s.pins { BasePut(s, t, k); }
      case Poke(k, d) => BasePoke(s, t, k, d);
      case Flush(dev, inv) => BaseFlush(s, t, dev, 0, inv);
      case Invalidate(k) => BaseInvalidate(s, t, k);
      case _ =>
    }
  }

  lemma BusyKeepsBase(s: Sys, t: nat, a: Action)
    requires Base(s) && t in s.threads && !Breaks(s, t, a)
    ensures Base(Step(s, t, a))
  {
    hide Wf, Base, BaseThread, ReserveStep, FillStep, ReturnStep, PublishStep, DiscardStep, SettleStep, WbIoStep,
      WbLoadStep, WbCleanStep,
      WbFinishStep, DropStep;
    BaseParts(s);
    match s.threads[t] {
      case Missed(k, size) => BaseReserve(s, t, k, size);
      case Filling(x, k, size) => if a.Fill? { BaseFill(s, t, x, k, size, a.kallocOk); }
      case NoMem(x) => BaseReturn(s, t, x);
      case Filled(x, k, size) => BasePublish(s, t, x, k, size);
      case Lost(x) => BaseDiscard(s, t, x);
      case Half(x) => BaseSettle(s, t, x);
      case WbStart(x, cont) => BaseWbIo(s, t, x, cont);
      case WbClear(x, cont) => BaseWbLoad(s, t, x, cont);
      case WbStore(x, cont, used, valid) => if a.WbClean? { BaseWbClean(s, t, x, cont, used, valid); }
      case WbEnd(x, cont) => if a.WbFinish? { BaseFinish(s, t, x, cont); }
      case Dropping(dev, i) => BaseDropNext(s, t, dev, i);
    }
  }

  // ---------------------------------------------------------------- other threads

  /** The thread has written page x and not yet cleared its flag. */
  predicate Clearing(pc: Pc, x: nat) { (pc.WbClear? || pc.WbStore?) && pc.page == x }

  /** Only t moves, and neither to a miss nor into the clearing of a flag. */
  ghost predicate MovesOn(s: Sys, s': Sys, t: nat) {
    && OthersSame(s, s', t)
    && (t in s'.threads ==> !s'.threads[t].Missed? && !s'.threads[t].WbClear? && !s'.threads[t].WbStore?)
  }

  lemma LookupOthers(s: Sys, t: nat, k: Key, size: u32)
    requires Wf(s.cache) && t !in s.threads
    ensures OthersSame(s, LookupStep(s, t, k, size), t)
    ensures forall x :: t in LookupStep(s, t, k, size).threads ==> !Clearing(LookupStep(s, t, k, size).threads[t], x)
  { hide Wf, Find, Touch; }

  lemma PutOthers(s: Sys, k: Key)
    requires Wf(s.cache) && k in s.pins
    ensures PutStep(s, k).threads == s.threads
  { hide Wf, Find; }

  lemma PokeOthers(s: Sys, k: Key, d: Block)
    requires Wf(s.cache)
    ensures PokeStep(s, k, d).threads == s.threads
  { hide Wf, Find; }

  lemma MarkOthers(s: Sys, t: nat, k: Key)
    requires Wf(s.cache) && t !in s.threads
    ensures MovesOn(s, MarkStep(s, t, k), t)
  { hide Wf, Find; }

  lemma FlushOthers(s: Sys, t: nat, dev: u32, i: nat, inv: bool)
    ensures MovesOn(s, FlushScan(s, t, dev, i, inv), t)
  { hide First, FlushFlags; }

  lemma InvalidateOthers(s: Sys, t: nat, k: Key)
    requires Wf(s.cache) && t !in s.threads
    ensures MovesOn(s, InvalidateStep(s, t, k), t)
  { hide Wf, Find, Drop; }

  lemma ReserveOthers(s: Sys, t: nat, k: Key, size: u32)
    requires Wf(s.cache)
    ensures MovesOn(s, ReserveStep(s, t, k, size), t)
  { hide Wf, GetChecks, AllocPage; }

  lemma FillOthers(s: Sys, t: nat, x: nat, k: Key, size: u32, ok: bool)
    requires x < |s.cache.pool|
    ensures MovesOn(s, FillStep(s, t, x, k, size, ok), t)
  { hide ReadBlock; }

  lemma PublishOthers(s: Sys, t: nat, x: nat, k: Key)
    requires Wf(s.cache) && x < POOL
    ensures MovesOn(s, PublishStep(s, t, x, k), t)
  { hide Wf, Find, Touch, Insert; }

  lemma WbFinishOthers(s: Sys, t: nat, x: nat, cont: Cont)
    requires Wf(s.cache) && x < POOL
    ensures MovesOn(s, WbFinishStep(s, t, x, cont), t)
  { hide Wf, Drop, First, FlushFlags; }

  lemma DropOthers(s: Sys, t: nat, dev: u32, i: nat)
    requires Wf(s.cache)
    ensures MovesOn(s, DropStep(s, t, dev, i), t)
  { hide Wf, Drop, First, DropFlags; }

  /** The step writes page x to the disk. */
  ghost predicate WritesPage(s: Sys, t: nat, a: Action, x: nat) {
    && t in s.threads && s.threads[t].WbStart? && s.threads[t].page == x && a.WbIo?
    && x < |s.cache.pool| && s.cache.pool[x].dirty
  }

  lemma WbIoOthers(s: Sys, t: nat, x: nat, cont: Cont)
    requires x < |s.cache.pool|
    ensures var s' := WbIoStep(s, t, x, cont);
      && OthersSame(s, s', t) && t in s'.threads
      && s'.threads[t] == if s.cache.pool[x].dirty then WbClear(x, cont) else WbEnd(x, cont)
  { hide WritebackStore; }

  /** A step of t moves no other thread; only a lookup makes t miss, and only the write of a page
      makes it one that will clear the page's flag. */
  lemma StepOthers(s: Sys, t: nat, a: Action)
    requires Base(s)
    ensures OthersSame(s, Step(s, t, a), t)
    ensures var s' := Step(s, t, a);
            t in s'.threads && s'.threads[t].Missed? ==> a.Lookup? || (t in s.threads && s.threads[t].Missed?)
    ensures forall x :: t in Step(s, t, a).threads && Clearing(Step(s, t, a).threads[t], x) ==>
      (t in s.threads && Clearing(s.threads[t], x)) || WritesPage(s, t, a, x)
  {
    hide Wf, Base;
    if t !in s.threads { IdleOthers(s, t, a); } else { BusyOthers(s, t, a); }
  }

  lemma IdleOthers(s: Sys, t: nat, a: Action)
    requires Base(s) && t !in s.threads
    ensures OthersSame(s, Step(s, t, a), t)
    ensures t in Step(s, t, a).threads && Step(s, t, a).threads[t].Missed? ==> a.Lookup?
    ensures forall x :: t in Step(s, t, a).threads ==> !Clearing(Step(s, t, a).threads[t], x)
  {
    hide Wf, Base, LookupStep, MarkStep, PutStep, PokeStep, FlushScan, InvalidateStep;
    BaseParts(s);
    match a {
      case Lookup(k, size) => LookupOthers(s, t, k, size);
      case Mark(k) => MarkOthers(s, t, k);
      case Put(k) => if k in s.pins { PutOthers(s, k); }
      case Poke(k, d) => PokeOthers(s, k, d);
      case Flush(dev, inv) => FlushOthers(s, t, dev, 0, inv);
      case Invalidate(k) => InvalidateOthers(s, t, k);
      case _ =>
    }
  }

  lemma BusyOthers(s: Sys, t: nat, a: Action)
    requires Base(s) && t in s.threads
    ensures OthersSame(s, Step(s, t, a), t)
    ensures t in Step(s, t, a).threads && Step(s, t, a).threads[t].Missed? ==> s.threads[t].Missed?
    ensures forall x :: t in Step(s, t, a).threads && Clearing(Step(s, t, a).threads[t], x) ==>
      Clearing(s.threads[t], x) || WritesPage(s, t, a, x)
  {
    hide Wf, Base, ReserveStep, FillStep, PublishStep, WbIoStep, WbFinishStep, DropStep;
    BaseParts(s);
    BaseAt(s, t);
    match s.threads[t] {
      case Missed(k, size) => ReserveOthers(s, t, k, size);
      case Filling(x, k, size) => if a.Fill? { FillOthers(s, t, x, k, size, a.kallocOk); }
      case Filled(x, k, size) => PublishOthers(s, t, x, k);
      case WbStart(x, cont) => WbIoOthers(s, t, x, cont);
      case WbEnd(x, cont) => WbFinishOthers(s, t, x, cont);
      case Dropping(dev, i) => DropOthers(s, t, dev, i);
      case _ =>
    }
  }
}
