/** Cache transparency: over every sequence of complete calls the page cache answers what
    direct disk access would, across hits, misses, evictions, flushes and invalidations. */
module PageCacheTransparency {
  import opened Common
  import B = BlkDev
  import opened PageCacheModel
  import opened PageCacheSteps
  import opened PageCacheProtocol

  /** The device ids in use and the one block size each is used with. */
  type Config = map<u32, u32>

  ghost predicate Disjoint(st: Store, d: u32, e: u32)
    requires d < |st.table.devices| && e < |st.table.devices|
  {
    var t := st.table;
    || B.Root(t, d) != B.Root(t, e)
    || t.devices[d].start + t.devices[d].maxLba <= t.devices[e].start
    || t.devices[e].start + t.devices[e].maxLba <= t.devices[d].start
  }

  /** Every id is registered, with a sound block size, and no two share a sector. */
  ghost predicate ConfigOk(cfg: Config, st: Store) {
    && B.Inv(st.table)
    && (forall d | d in cfg ::
      d < B.SLOTS && ById(st, d) == Some(d) && cfg[d] != 0 && cfg[d] % 512 == 0
      && cfg[d] <= MAX_BLOCK)
    && (forall d, e | d in cfg && e in cfg && d != e :: Disjoint(st, d, e))
  }

  function Size(cfg: Config, k: Key): nat
    requires k.dev in cfg
  { Spb(cfg[k.dev]) }

  /** A block of a device in use that lies inside the device. */
  ghost predicate Legit(cfg: Config, st: Store, k: Key) {
    k.dev in cfg && GetChecks(st, k, cfg[k.dev])
  }

  /** The block's first sector on its device. */
  function FirstLba(cfg: Config, k: Key): nat
    requires k.dev in cfg
  { k.block * Size(cfg, k) }

  lemma InRange(cfg: Config, st: Store, k: Key)
    requires ConfigOk(cfg, st) && Legit(cfg, st, k)
    ensures k.dev < B.SLOTS && FirstLba(cfg, k) + Size(cfg, k) <= st.table.devices[k.dev].maxLba
    ensures FirstLba(cfg, k) < TWO32 && FirstLba(cfg, k) % TWO32 == FirstLba(cfg, k)
  {}

  /** What reading the block straight from the device gives. */
  function Direct(cfg: Config, st: Store, k: Key): Block
    requires k.dev in cfg
  { ReadBlock(st, Some(k.dev), FirstLba(cfg, k), Size(cfg, k)) }

  // ---------------------------------------------------------------- sectors of a block

  function SectorLoc(cfg: Config, st: Store, k: Key, i: nat): B.Loc
    requires k.dev in cfg && k.dev < |st.table.devices|
  { B.Loc(B.Root(st.table, k.dev), st.table.devices[k.dev].start + FirstLba(cfg, k) + i) }

  lemma DirectSector(cfg: Config, st: Store, k: Key, i: nat)
    requires ConfigOk(cfg, st) && Legit(cfg, st, k) && i < Size(cfg, k)
    ensures FirstLba(cfg, k) + i < TWO32
    ensures Direct(cfg, st, k)[i] == B.Fetch(st.media, SectorLoc(cfg, st, k, i))
    ensures B.Locate(st.table, k.dev, FirstLba(cfg, k) + i) == Some(SectorLoc(cfg, st, k, i))
  {
    InRange(cfg, st, k);
    B.Window(st.table, k.dev, FirstLba(cfg, k) + i);
    assert (FirstLba(cfg, k) + i) % TWO32 == FirstLba(cfg, k) + i;
    assert Direct(cfg, st, k)[i] == SectorAt(st, Some(k.dev), FirstLba(cfg, k) + i);
    hide ConfigOk, Legit, B.Inv, FirstLba, Direct;
  }

  /** Distinct blocks in use have no sector in common. */
  lemma NoSharedSector(cfg: Config, st: Store, k: Key, k': Key, i: nat, j: nat)
    requires ConfigOk(cfg, st) && Legit(cfg, st, k) && Legit(cfg, st, k') && k != k'
    requires i < Size(cfg, k) && j < Size(cfg, k')
    ensures SectorLoc(cfg, st, k, i) != SectorLoc(cfg, st, k', j)
  {
    if k.dev == k'.dev {
      BlocksApart(k.block, k'.block, Size(cfg, k), i, j);
    } else {
      InRange(cfg, st, k);
      InRange(cfg, st, k');
      assert Disjoint(st, k.dev, k'.dev);
      hide ConfigOk, Legit, B.Inv, FirstLba, Size;
    }
  }

  lemma BlocksApart(a: nat, b: nat, n: nat, i: nat, j: nat)
    requires a != b && i < n && j < n
    ensures a * n + i != b * n + j
  {
    if a < b { assert b * n >= (a + 1) * n == a * n + n; } else { assert a * n >= (b + 1) * n == b * n + n; }
  }

  lemma WriteLast(st: Store, dev: nat, lba: nat, b: Block, l: B.Loc)
    requires b != [] && lba + |b| - 1 < TWO32
    requires B.Locate(st.table, dev, lba + |b| - 1) == Some(l)
    ensures WriteBlock(st, dev, lba, b).media == WriteBlock(st, dev, lba, b[..|b| - 1]).media[l := b[|b| - 1]]
  {
    hide B.Inv, B.Locate;
    var n := |b| - 1;
    assert (lba + n) % TWO32 == lba + n;
  }

  lemma WriteBlockLast(cfg: Config, st: Store, k: Key, b: Block)
    requires ConfigOk(cfg, st) && Legit(cfg, st, k) && 0 < |b| <= Size(cfg, k)
    ensures var n := |b| - 1;
      WriteBlock(st, k.dev, FirstLba(cfg, k), b).media
      == WriteBlock(st, k.dev, FirstLba(cfg, k), b[..n]).media[SectorLoc(cfg, st, k, n) := b[n]]
  {
    hide ConfigOk, Legit, SectorLoc, FirstLba, Size, Direct, B.Inv, B.Locate, WriteBlock;
    var n := |b| - 1;
    LegitParts(cfg, st, k);
    DirectSector(cfg, st, k, n);
    WriteLast(st, k.dev, FirstLba(cfg, k), b, SectorLoc(cfg, st, k, n));
  }

  lemma {:induction false} WriteBlockMedia(cfg: Config, st: Store, k: Key, b: Block)
    requires ConfigOk(cfg, st) && Legit(cfg, st, k) && |b| <= Size(cfg, k)
    ensures var r := WriteBlock(st, k.dev, FirstLba(cfg, k), b);
      && (forall i | 0 <= i < |b| :: B.Fetch(r.media, SectorLoc(cfg, st, k, i)) == b[i])
      && (forall l | (forall i | 0 <= i < |b| :: l != SectorLoc(cfg, st, k, i)) ::
        B.Fetch(r.media, l) == B.Fetch(st.media, l))
    decreases |b|
  {
    hide ConfigOk, Legit, WriteBlock, SectorLoc, FirstLba, Size, B.Inv;
    LegitParts(cfg, st, k);
    if b == [] {
      NoWrite(st, k.dev, FirstLba(cfg, k));
    } else {
      var n := |b| - 1;
      WriteBlockMedia(cfg, st, k, b[..n]);
      WriteBlockLast(cfg, st, k, b);
      forall i | 0 <= i < n ensures SectorLoc(cfg, st, k, i) != SectorLoc(cfg, st, k, n)
        { SectorsDiffer(cfg, st, k, i, n); }
    }
  }

  lemma LegitParts(cfg: Config, st: Store, k: Key)
    requires ConfigOk(cfg, st) && Legit(cfg, st, k)
    ensures k.dev in cfg && k.dev < |st.table.devices|
  {}

  lemma NoWrite(st: Store, dev: nat, lba: nat)
    ensures WriteBlock(st, dev, lba, []) == st
  {}

  lemma SectorsDiffer(cfg: Config, st: Store, k: Key, i: nat, j: nat)
    requires k.dev in cfg && k.dev < |st.table.devices| && i != j
    ensures SectorLoc(cfg, st, k, i) != SectorLoc(cfg, st, k, j)
  {}

  lemma SameTable(cfg: Config, st: Store, r: Store, k: Key)
    requires ConfigOk(cfg, st) && r.table == st.table
    ensures ConfigOk(cfg, r) && (Legit(cfg, r, k) <==> Legit(cfg, st, k))
    ensures k.dev in cfg ==> forall i: nat :: SectorLoc(cfg, r, k, i) == SectorLoc(cfg, st, k, i)
  {}

  lemma OtherBlock(cfg: Config, st: Store, r: Store, k: Key, k': Key)
    requires ConfigOk(cfg, st) && Legit(cfg, st, k) && Legit(cfg, st, k') && k != k' && r.table == st.table
    requires forall l | (forall i | 0 <= i < Size(cfg, k) :: l != SectorLoc(cfg, st, k, i)) ::
      B.Fetch(r.media, l) == B.Fetch(st.media, l)
    ensures Direct(cfg, r, k') == Direct(cfg, st, k')
  {
    SameTable(cfg, st, r, k');
    hide ConfigOk, Legit, SectorLoc, Direct, FirstLba, Size, B.Inv;
    assert |Direct(cfg, r, k')| == |Direct(cfg, st, k')| == Size(cfg, k') by
      { DirectSize(cfg, r, k'); DirectSize(cfg, st, k'); }
    forall j | 0 <= j < Size(cfg, k') ensures Direct(cfg, r, k')[j] == Direct(cfg, st, k')[j] {
      DirectSector(cfg, r, k', j);
      DirectSector(cfg, st, k', j);
      forall i | 0 <= i < Size(cfg, k) ensures SectorLoc(cfg, st, k', j) != SectorLoc(cfg, st, k, i) {
        NoSharedSector(cfg, st, k, k', i, j);
      }
    }
  }

  lemma DirectSize(cfg: Config, st: Store, k: Key)
    requires k.dev in cfg
    ensures |Direct(cfg, st, k)| == Size(cfg, k)
  {}

  /** Writing a block changes that block and no other block in use. */
  lemma WriteBlockDirect(cfg: Config, st: Store, k: Key, b: Block)
    requires ConfigOk(cfg, st) && Legit(cfg, st, k) && |b| == Size(cfg, k)
    ensures var r := WriteBlock(st, k.dev, FirstLba(cfg, k), b);
      && Direct(cfg, r, k) == b
      && (forall k' | Legit(cfg, st, k') && k' != k :: Direct(cfg, r, k') == Direct(cfg, st, k'))
  {
    var r := WriteBlock(st, k.dev, FirstLba(cfg, k), b);
    WriteBlockMedia(cfg, st, k, b);
    SameTable(cfg, st, r, k);
    DirectSize(cfg, r, k);
    assert forall k' | Legit(cfg, st, k') :: k'.dev in cfg;
    hide ConfigOk, Legit, SectorLoc, WriteBlock, Direct, FirstLba, Size, B.Inv;
    forall i | 0 <= i < |b| ensures Direct(cfg, r, k)[i] == b[i] { DirectSector(cfg, r, k, i); }
    forall k' | Legit(cfg, st, k') && k' != k ensures Direct(cfg, r, k') == Direct(cfg, st, k') {
      OtherBlock(cfg, st, r, k, k');
    }
  }

  // ---------------------------------------------------------------- the reference store

  /** What clients have written: `mem` the last contents given to each block, `edited` the
      blocks written since their last pc_mark_dirty. */
  datatype Client = Client(mem: map<Key, Block>, edited: set<Key>)

  /** The contents direct disk access would show: the last write, or else the original block. */
  function View(cfg: Config, st0: Store, g: Client, k: Key): Block
    requires k.dev in cfg
  { if k in g.mem then g.mem[k] else Direct(cfg, st0, k) }

  ghost predicate PageTrue(cfg: Config, st0: Store, g: Client, p: Page) {
    Legit(cfg, st0, p.key) && p.size == cfg[p.key.dev] && p.data == Some(View(cfg, st0, g, p.key))
  }

  ghost predicate BeingWritten(s: Sys, k: Key) {
    0 in s.threads && s.threads[0].WbStart? && s.threads[0].page < |s.cache.pool|
      && s.cache.pool[s.threads[0].page].key == k
  }

  ghost predicate DiskTrue(cfg: Config, st0: Store, s: Sys, g: Client) {
    forall k | Legit(cfg, st0, k) && k !in g.edited && !BeingWritten(s, k) ::
      Direct(cfg, s.store, k) == View(cfg, st0, g, k)
  }

  ghost predicate PagesTrue(cfg: Config, st0: Store, s: Sys, g: Client) {
    forall x: nat | Live(s.cache, x) :: PageTrue(cfg, st0, g, s.cache.pool[x])
  }

  /** Inside a call of the one running thread. */
  ghost predicate MidCall(cfg: Config, st0: Store, s: Sys, g: Client) {
    && s.threads.Keys <= {0}
    && (0 in s.threads ==>
          match s.threads[0]
          case Missed(k, size) => k.dev in cfg && size == cfg[k.dev] && !Cached(s.cache, k)
          case Filling(_, k, size) => Legit(cfg, st0, k) && size == cfg[k.dev] && !Cached(s.cache, k)
          case Filled(x, k, size) =>
            && Legit(cfg, st0, k) && size == cfg[k.dev] && !Cached(s.cache, k)
            && x < |s.cache.pool| && s.cache.pool[x].data == Some(View(cfg, st0, g, k))
          case NoMem(_) => true
          case Lost(_) => false
          case Half(_) => false
          case WbStart(x, cont) => cont == MarkDone && x < |s.cache.pool| && s.cache.pool[x].dirty
          case WbClear(_, cont) => cont == MarkDone
          case WbStore(_, cont, _, _) => cont == MarkDone
          case WbEnd(_, cont) => cont == MarkDone
          case Dropping(_, _) => true)
  }

  ghost predicate Faithful(cfg: Config, st0: Store, s: Sys, g: Client) {
    && Ready(s) && ConfigOk(cfg, st0) && s.store.table == st0.table
    && (forall k | k in g.mem :: k.dev in cfg && |g.mem[k]| == Size(cfg, k))
    && (forall k | k in g.edited :: k in s.pins)
    && DiskTrue(cfg, st0, s, g) && PagesTrue(cfg, st0, s, g) && MidCall(cfg, st0, s, g)
  }

  // ---------------------------------------------------------------- complete calls

  /** Good for thread 0 to go on: if it is about to reserve a slot, no other thread stands between
      its two stores. */
  ghost predicate Ready(s: Sys) {
    Inv(s) && (0 in s.threads && s.threads[0].Missed? ==> Calm(s.threads, 0))
  }

  lemma ReadyNext(s: Sys, a: Action)
    requires Ready(s) && (a.Lookup? ==> Calm(s.threads, 0))
    ensures Base(s) && Ready(Step(s, 0, a)) && Kept(s, Step(s, 0, a), false)
    ensures Calm(s.threads, 0) ==> Calm(Step(s, 0, a).threads, 0)
  {
    hide Inv, Base, Step, Kept;
    Basics(s);
    StepOthers(s, 0, a);
    assert !Races(s, 0, a) by { if Races(s, 0, a) { CalmNoRace(s, 0, a); } }
    StepKeepsInv(s, 0, a);
  }

  datatype Call =
    | Get(k: Key, size: u32, kallocOk: bool)
    | PutPage(k: Key)
    | Write(k: Key, data: Block)
    | MarkDirty(k: Key)
    | FlushDev(dev: u32)
    | InvalidateBlock(k: Key)
    | InvalidateDev(dev: u32)

  function Start(c: Call): Action {
    match c
    case Get(k, size, _) => Lookup(k, size)
    case PutPage(k) => Put(k)
    case Write(k, d) => Poke(k, d)
    case MarkDirty(k) => Mark(k)
    case FlushDev(dev) => Flush(dev, false)
    case InvalidateBlock(k) => Invalidate(k)
    case InvalidateDev(dev) => Flush(dev, true)
  }

  /** The next thing a thread inside a call does. */
  function Next(pc: Pc, kallocOk: bool): Action {
    match pc
    case Missed(_, _) => Reserve
    case Filling(_, _, _) => Fill(kallocOk)
    case Filled(_, _, _) => Publish
    case NoMem(_) => GiveUp
    case Lost(_) => Discard
    case Half(_) => Settle
    case WbStart(_, _) => WbIo
    case WbClear(_, _) => WbLoad
    case WbStore(_, _, _, _) => WbClean
    case WbEnd(_, _) => WbFinish
    case Dropping(_, _) => DropNext
  }

  lemma NextInside(pc: Pc, ok: bool)
    ensures !Next(pc, ok).Lookup?
  {}

  function Left(i: nat): nat { if i <= POOL then POOL - i else 0 }

  /** How far a call is from its end. */
  function Rank(pc: Pc): nat {
    match pc
    case Missed(_, _) => 5
    case Filling(_, _, _) => 4
    case Filled(_, _, _) => 3
    case NoMem(_) => 1
    case Lost(_) => 2
    case Half(_) => 1
    case WbStart(_, cont) => 4 + RankCont(cont)
    case WbClear(_, cont) => 3 + RankCont(cont)
    case WbStore(_, cont, _, _) => 2 + RankCont(cont)
    case WbEnd(_, cont) => 1 + RankCont(cont)
    case Dropping(_, i) => 1 + Left(i)
  }

  function RankCont(c: Cont): nat {
    match c
    case FlushFrom(_, i, _) => 5 * Left(i) + POOL + 2
    case _ => 0
  }

  function RankOf(s: Sys): nat { if 0 in s.threads then Rank(s.threads[0]) else 0 }

  lemma FlushRank(s: Sys, dev: u32, i: nat, inv: bool)
    requires |s.cache.pool| == POOL
    ensures RankOf(FlushScan(s, 0, dev, i, inv)) < RankCont(FlushFrom(dev, i, inv))
  {
    var f := FlushFlags(s.cache, dev, i);
    if First(f).Some? { assert f[First(f).value]; }
  }

  lemma GetRank(s: Sys, x: nat, k: Key, size: u32, ok: bool)
    requires Wf(s.cache)
    ensures RankOf(ReserveStep(s, 0, k, size)) < 5
    ensures x < |s.cache.pool| ==> RankOf(FillStep(s, 0, x, k, size, ok)) < 4 && RankOf(ReturnStep(s, 0, x)) == 0
    ensures x < |s.cache.pool| ==> RankOf(DiscardStep(s, 0, x)) == 1 && RankOf(SettleStep(s, 0, x)) == 0
    ensures x < POOL ==> RankOf(PublishStep(s, 0, x, k)) < 3
  {
    hide AllocPage, GetChecks, Find, ReadBlock, Touch, Insert;
  }

  lemma DropRank(s: Sys, dev: u32, i: nat)
    requires Wf(s.cache)
    ensures RankOf(DropStep(s, 0, dev, i)) < 1 + Left(i)
  {
    var f := DropFlags(s.cache, dev, i);
    if First(f).Some? { assert f[First(f).value]; }
    hide Drop;
  }

  lemma WbRank(s: Sys, x: nat, cont: Cont, used: bool, valid: bool)
    requires Wf(s.cache) && x < |s.cache.pool|
    ensures RankOf(WbIoStep(s, 0, x, cont)) < 4 + RankCont(cont)
    ensures RankOf(WbLoadStep(s, 0, x, cont)) < 3 + RankCont(cont)
    ensures RankOf(WbCleanStep(s, 0, x, cont, used, valid)) < 2 + RankCont(cont)
    ensures RankOf(WbFinishStep(s, 0, x, cont)) < 1 + RankCont(cont)
  {
    if cont.FlushFrom? { FlushRank(s.(cache := Unpinned(s.cache, x)), cont.dev, cont.i, cont.invalidate); }
    hide FlushScan, Drop;
  }

  /** Every step of a call brings it closer to its end. */
  lemma StepRank(s: Sys, ok: bool)
    requires Ready(s) && 0 in s.threads
    ensures RankOf(Step(s, 0, Next(s.threads[0], ok))) < Rank(s.threads[0])
  {
    hide Wf, Inv, Base, ReserveStep, FillStep, PublishStep, ReturnStep, DiscardStep, SettleStep, WbIoStep, WbLoadStep,
      WbCleanStep,
      WbFinishStep, DropStep, RankOf;
    var pc := s.threads[0];
    Basics(s);
    ThreadFact(s, 0);
    match pc
    case Missed(k, size) => GetRank(s, 0, k, size, ok);
    case Filling(x, k, size) => GetRank(s, x, k, size, ok);
    case Filled(x, k, size) => GetRank(s, x, k, size, ok);
    case NoMem(x) => GetRank(s, x, Key(0, 0), 0, ok);
    case Lost(x) => GetRank(s, x, Key(0, 0), 0, ok);
    case Half(x) => GetRank(s, x, Key(0, 0), 0, ok);
    case WbStart(x, cont) => WbRank(s, x, cont, true, true);
    case WbClear(x, cont) => WbRank(s, x, cont, true, true);
    case WbStore(x, cont, used, valid) => WbRank(s, x, cont, used, valid);
    case WbEnd(x, cont) => WbRank(s, x, cont, true, true);
    case Dropping(dev, i) => DropRank(s, dev, i);
  }

  ghost function Complete(s: Sys, ok: bool): (r: Sys)
    requires Ready(s)
    ensures Ready(r) && 0 !in r.threads && (Calm(s.threads, 0) ==> Calm(r.threads, 0))
    decreases RankOf(s)
  {
    if 0 !in s.threads then s
    else
      ReadyNext(s, Next(s.threads[0], ok));
      StepRank(s, ok);
      Complete(Step(s, 0, Next(s.threads[0], ok)), ok)
  }

  /** A call run from start to return. */
  ghost function Do(s: Sys, c: Call): (r: Sys)
    requires Ready(s) && (c.Get? ==> Calm(s.threads, 0))
    ensures Ready(r) && 0 !in r.threads && (Calm(s.threads, 0) ==> Calm(r.threads, 0))
  {
    ReadyNext(s, Start(c));
    Complete(Step(s, 0, Start(c)), if c.Get? then c.kallocOk else true)
  }

  /** How clients use the cache: one block size per device, only pinned blocks are written or
      released, and a written block is marked dirty before its last pin goes. */
  ghost predicate Allowed(cfg: Config, s: Sys, g: Client, c: Call) {
    match c
    case Get(k, size, _) => k.dev in cfg && size == cfg[k.dev]
    case PutPage(k) => k in s.pins && (s.pins[k] == 1 ==> k !in g.edited)
    case Write(k, d) => k in s.pins && k.dev in cfg && |d| == Size(cfg, k)
    case _ => true
  }

  function After(g: Client, c: Call): Client {
    match c
    case Write(k, d) => Client(g.mem[k := d], g.edited + {k})
    case MarkDirty(k) => Client(g.mem, g.edited - {k})
    case _ => g
  }

  // ---------------------------------------------------------------- steps that move no data

  ghost predicate SameOrFewer(s: Sys, s': Sys) {
    forall x: nat | Live(s'.cache, x) ::
      && Live(s.cache, x)
      && s'.cache.pool[x].key == s.cache.pool[x].key
      && s'.cache.pool[x].size == s.cache.pool[x].size
      && s'.cache.pool[x].data == s.cache.pool[x].data
  }

  lemma QuietStep(cfg: Config, st0: Store, s: Sys, s': Sys, g: Client)
    requires Faithful(cfg, st0, s, g) && Ready(s') && s'.store == s.store && SameOrFewer(s, s')
    requires !(0 in s.threads && s.threads[0].WbStart?)
    requires forall k | k in g.edited :: k in s'.pins
    requires MidCall(cfg, st0, s', g)
    ensures Faithful(cfg, st0, s', g)
  {
    hide Ready, ConfigOk, Legit, Direct, View, Wf, MidCall;
    assert PagesTrue(cfg, st0, s', g);
    assert DiskTrue(cfg, st0, s', g);
  }

  lemma NotCached(s: Sys, s': Sys, k: Key)
    requires !Cached(s.cache, k) && SameOrFewer(s, s')
    ensures !Cached(s'.cache, k)
  {}

  lemma StartGet(cfg: Config, st0: Store, s: Sys, g: Client, k: Key, size: u32)
    requires Faithful(cfg, st0, s, g) && 0 !in s.threads && k.dev in cfg && size == cfg[k.dev]
    requires Ready(LookupStep(s, 0, k, size))
    ensures Faithful(cfg, st0, LookupStep(s, 0, k, size), g)
  {
    hide Ready, Wf, ConfigOk, Legit, Direct, View, Find, Without, DiskTrue, PagesTrue, Faithful;
    FaithfulParts(cfg, st0, s, g);
    FindOk(s.cache, k);
    QuietStep(cfg, st0, s, LookupStep(s, 0, k, size), g);
  }

  lemma StartPut(cfg: Config, st0: Store, s: Sys, g: Client, k: Key)
    requires Faithful(cfg, st0, s, g) && 0 !in s.threads && Allowed(cfg, s, g, PutPage(k))
    requires Ready(PutStep(s, k))
    ensures Faithful(cfg, st0, PutStep(s, k), g)
  {
    hide Ready, Wf, ConfigOk, Legit, Direct, View, Find, DiskTrue, PagesTrue, Faithful;
    FaithfulParts(cfg, st0, s, g);
    FindOk(s.cache, k);
    QuietStep(cfg, st0, s, PutStep(s, k), g);
  }

  lemma NoneDirty(s: Sys)
    requires Ready(s) && s.threads == map[]
    ensures forall x: nat | Live(s.cache, x) :: !s.cache.pool[x].dirty
  {
    forall x: nat | Live(s.cache, x) ensures !s.cache.pool[x].dirty {
      if InFlight(s.threads, x) { assert false; }
    }
  }

  lemma StartFlush(cfg: Config, st0: Store, s: Sys, g: Client, dev: u32, inv: bool)
    requires Faithful(cfg, st0, s, g) && 0 !in s.threads
    requires Ready(FlushScan(s, 0, dev, 0, inv))
    ensures Faithful(cfg, st0, FlushScan(s, 0, dev, 0, inv), g)
    ensures FlushScan(s, 0, dev, 0, false) == s
  {
    hide Ready, ConfigOk, Legit, Direct, View, DiskTrue, PagesTrue, FlushScan;
    assert s.threads == map[];
    CleanScan(s, dev, inv);
    CleanScan(s, dev, false);
    QuietStep(cfg, st0, s, FlushScan(s, 0, dev, 0, inv), g);
  }

  /** With no thread at work there is nothing to flush. */
  lemma CleanScan(s: Sys, dev: u32, inv: bool)
    requires Ready(s) && s.threads == map[]
    ensures FlushScan(s, 0, dev, 0, inv) == if inv then Goto(s, 0, Dropping(dev, 0)) else s
  {
    hide Ready;
    NoneDirty(s);
    assert forall j | 0 <= j < |s.cache.pool| :: !FlushFlags(s.cache, dev, 0)[j];
    assert Done(s, 0) == s;
  }

  lemma StartInvalidate(cfg: Config, st0: Store, s: Sys, g: Client, k: Key)
    requires Faithful(cfg, st0, s, g) && 0 !in s.threads
    requires Ready(InvalidateStep(s, 0, k))
    ensures Faithful(cfg, st0, InvalidateStep(s, 0, k), g)
  {
    hide Ready, Wf, ConfigOk, Legit, Direct, View, Find, Without, DiskTrue, PagesTrue, Faithful;
    FaithfulParts(cfg, st0, s, g);
    FindOk(s.cache, k);
    if Find(s.cache, k).Some? { DirtyPinned(s, Find(s.cache, k).value); }
    InvalidateIs(s, k);
    hide InvalidateStep;
    QuietStep(cfg, st0, s, InvalidateStep(s, 0, k), g);
  }

  lemma InvalidateIs(s: Sys, k: Key)
    requires Wf(s.cache)
    requires Find(s.cache, k).Some? ==> var x := Find(s.cache, k).value;
      Live(s.cache, x) && (s.cache.pool[x].dirty ==> s.cache.pool[x].pin > 0)
    ensures var s' := InvalidateStep(s, 0, k);
      s'.store == s.store && s'.pins == s.pins && s'.threads == s.threads && SameOrFewer(s, s')
  {
    hide Wf, Find, Without;
    SizesOf(s.cache);
  }

  // ---------------------------------------------------------------- steps that move data

  lemma WritePages(cfg: Config, st0: Store, s: Sys, s': Sys, g: Client, k: Key, d: Block, x: nat)
    requires PagesTrue(cfg, st0, s, g) && KeysUnique(s.cache) && Live(s.cache, x) && s.cache.pool[x].key == k
      && k.dev in cfg
    requires s'.cache.pool == s.cache.pool[x := s.cache.pool[x].(data := Some(d))]
    ensures PagesTrue(cfg, st0, s', After(g, Write(k, d)))
  {
    hide Legit, Direct;
    var g' := After(g, Write(k, d));
    forall y: nat | Live(s'.cache, y) ensures PageTrue(cfg, st0, g', s'.cache.pool[y]) {
      assert Live(s.cache, y) && PageTrue(cfg, st0, g, s.cache.pool[y]);
      if y != x { assert s.cache.pool[y].key != k; }
    }
  }

  lemma WriteDisk(cfg: Config, st0: Store, s: Sys, s': Sys, g: Client, k: Key, d: Block)
    requires DiskTrue(cfg, st0, s, g) && 0 !in s.threads && s'.store == s.store && k.dev in cfg
    ensures DiskTrue(cfg, st0, s', After(g, Write(k, d)))
  {
    hide Direct, GetChecks;
  }

  lemma FaithfulParts(cfg: Config, st0: Store, s: Sys, g: Client)
    requires Faithful(cfg, st0, s, g)
    ensures Ready(s) && Wf(s.cache) && Sizes(s.cache) && KeysUnique(s.cache)
    ensures forall k | k in g.mem :: k.dev in cfg && |g.mem[k]| == Size(cfg, k)
    ensures forall k | k in g.edited :: k in s.pins
    ensures DiskTrue(cfg, st0, s, g) && PagesTrue(cfg, st0, s, g) && s.threads.Keys <= {0}
  {}

  lemma MidIdle(cfg: Config, st0: Store, s: Sys, g: Client)
    requires 0 !in s.threads && s.threads.Keys <= {0}
    ensures MidCall(cfg, st0, s, g)
  {}

  lemma MidWb(cfg: Config, st0: Store, s: Sys, g: Client, x: nat)
    requires s.threads.Keys <= {0} && 0 in s.threads && s.threads[0] == WbStart(x, MarkDone)
    requires x < |s.cache.pool| && s.cache.pool[x].dirty
    ensures MidCall(cfg, st0, s, g)
  {}

  /** Everything in Faithful that does not look at buffers. */
  lemma Refold(cfg: Config, st0: Store, s: Sys, s': Sys, g: Client, g': Client)
    requires Faithful(cfg, st0, s, g) && Ready(s') && s'.store.table == s.store.table
    requires forall k | k in g'.mem :: k.dev in cfg && |g'.mem[k]| == Size(cfg, k)
    requires forall k | k in g'.edited :: k in s'.pins
    requires DiskTrue(cfg, st0, s', g') && PagesTrue(cfg, st0, s', g') && MidCall(cfg, st0, s', g')
    ensures Faithful(cfg, st0, s', g')
  { hide Ready, ConfigOk, DiskTrue, PagesTrue, MidCall; }

  lemma PokeIs(s: Sys, k: Key, d: Block)
    requires Wf(s.cache) && Find(s.cache, k).Some? && Live(s.cache, Find(s.cache, k).value)
    ensures var x := Find(s.cache, k).value; var s' := PokeStep(s, k, d);
      && s'.cache.pool == s.cache.pool[x := s.cache.pool[x].(data := Some(d))]
      && s'.store == s.store && s'.threads == s.threads && s'.pins == s.pins
  {}

  lemma StartWrite(cfg: Config, st0: Store, s: Sys, g: Client, k: Key, d: Block)
    requires Faithful(cfg, st0, s, g) && 0 !in s.threads && Allowed(cfg, s, g, Write(k, d))
    requires Ready(PokeStep(s, k, d))
    ensures Faithful(cfg, st0, PokeStep(s, k, d), After(g, Write(k, d)))
  {
    hide Faithful, Ready, Wf, ConfigOk, Legit, Direct, Find, DiskTrue, PagesTrue, View, KeysUnique, PokeStep, Size,
      MidCall;
    FaithfulParts(cfg, st0, s, g);
    var s', g' := PokeStep(s, k, d), After(g, Write(k, d));
    HolderLive(s, k);
    PokeIs(s, k, d);
    WritePages(cfg, st0, s, s', g, k, d, Find(s.cache, k).value);
    WriteDisk(cfg, st0, s, s', g, k, d);
    MidIdle(cfg, st0, s', g');
    Refold(cfg, st0, s, s', g, g');
  }

  lemma MarkPages(cfg: Config, st0: Store, s: Sys, s': Sys, g: Client, k: Key, x: nat)
    requires PagesTrue(cfg, st0, s, g) && Live(s.cache, x)
    requires s'.cache.pool == s.cache.pool[x := s.cache.pool[x].(dirty := true, pin := s.cache.pool[x].pin + 1)]
    ensures PagesTrue(cfg, st0, s', After(g, MarkDirty(k)))
  {
    hide GetChecks, Direct;
    var g' := After(g, MarkDirty(k));
    forall y: nat | Live(s'.cache, y) ensures PageTrue(cfg, st0, g', s'.cache.pool[y]) {
      assert Live(s.cache, y) && PageTrue(cfg, st0, g, s.cache.pool[y]);
    }
  }

  lemma MarkDisk(cfg: Config, st0: Store, s: Sys, s': Sys, g: Client, k: Key)
    requires DiskTrue(cfg, st0, s, g) && 0 !in s.threads && s'.store == s.store && BeingWritten(s', k)
    ensures DiskTrue(cfg, st0, s', After(g, MarkDirty(k)))
  {
    hide Direct, GetChecks;
  }

  lemma MarkNone(s: Sys, k: Key)
    requires Wf(s.cache) && Find(s.cache, k).None?
    ensures MarkStep(s, 0, k) == s
  {}

  lemma MarkIs(s: Sys, k: Key)
    requires Wf(s.cache) && Find(s.cache, k).Some? && Live(s.cache, Find(s.cache, k).value)
    requires s.cache.pool[Find(s.cache, k).value].key == k
    ensures var x := Find(s.cache, k).value; var s' := MarkStep(s, 0, k);
      && s'.cache.pool == s.cache.pool[x := s.cache.pool[x].(dirty := true, pin := s.cache.pool[x].pin + 1)]
      && s'.store == s.store && s'.threads == s.threads[0 := WbStart(x, MarkDone)] && s'.pins == s.pins
      && BeingWritten(s', k)
  {}

  lemma StartMark(cfg: Config, st0: Store, s: Sys, g: Client, k: Key)
    requires Faithful(cfg, st0, s, g) && 0 !in s.threads
    requires Ready(MarkStep(s, 0, k))
    ensures Faithful(cfg, st0, MarkStep(s, 0, k), After(g, MarkDirty(k)))
  {
    hide Faithful, Ready, Wf, ConfigOk, Find, DiskTrue, PagesTrue, View, Direct, Legit, Size, MidCall, MarkStep;
    FaithfulParts(cfg, st0, s, g);
    var s', g', f := MarkStep(s, 0, k), After(g, MarkDirty(k)), Find(s.cache, k);
    FindOk(s.cache, k);
    if f.None? {
      MarkNone(s, k);
      if k in g.edited { HolderLive(s, k); }
      assert g' == g;
    } else {
      MarkIs(s, k);
      MarkPages(cfg, st0, s, s', g, k, f.value);
      MarkDisk(cfg, st0, s, s', g, k);
      MidWb(cfg, st0, s', g', f.value);
      Refold(cfg, st0, s, s', g, g');
    }
  }

  lemma StartIs(s: Sys, c: Call)
    requires Ready(s) && 0 !in s.threads
    ensures Base(s) && Wf(s.cache) && Step(s, 0, Start(c)) ==
      match c
      case Get(k, size, _) => LookupStep(s, 0, k, size)
      case PutPage(k) => if k in s.pins then PutStep(s, k) else s
      case Write(k, d) => if k in s.pins then PokeStep(s, k, d) else s
      case MarkDirty(k) => MarkStep(s, 0, k)
      case FlushDev(dev) => FlushScan(s, 0, dev, 0, false)
      case InvalidateBlock(k) => InvalidateStep(s, 0, k)
      case InvalidateDev(dev) => FlushScan(s, 0, dev, 0, true)
  {
    hide Ready, Wf, LookupStep, PutStep, PokeStep, MarkStep, FlushScan, InvalidateStep, ReserveStep, FillStep,
      PublishStep, ReturnStep, DiscardStep, SettleStep, WbIoStep, WbLoadStep, WbCleanStep, WbFinishStep, DropStep,
        ThreadOk;
    InvParts(s);
  }

  lemma StartFaithful(cfg: Config, st0: Store, s: Sys, g: Client, c: Call)
    requires Faithful(cfg, st0, s, g) && 0 !in s.threads && Allowed(cfg, s, g, c)
    ensures Ready(Step(s, 0, Start(c))) && Faithful(cfg, st0, Step(s, 0, Start(c)), After(g, c))
  {
    StartIs(s, c);
    ReadyNext(s, Start(c));
    hide Ready, Wf, Step, Kept, LookupStep, PutStep, PokeStep, MarkStep, FlushScan, InvalidateStep, Faithful;
    match c
    case Get(k, size, _) => StartGet(cfg, st0, s, g, k, size);
    case PutPage(k) => StartPut(cfg, st0, s, g, k);
    case Write(k, d) => StartWrite(cfg, st0, s, g, k, d);
    case MarkDirty(k) => StartMark(cfg, st0, s, g, k);
    case FlushDev(dev) => StartFlush(cfg, st0, s, g, dev, false);
    case InvalidateBlock(k) => StartInvalidate(cfg, st0, s, g, k);
    case InvalidateDev(dev) => StartFlush(cfg, st0, s, g, dev, true);
  }

  // ---------------------------------------------------------------- inside a call

  lemma ReserveIs(s: Sys, k: Key, size: u32)
    requires Ready(s) && 0 in s.threads
    ensures var s' := ReserveStep(s, 0, k, size);
      && s'.store == s.store && s'.pins == s.pins && SameOrFewer(s, s')
      && (|| s'.threads == s.threads - {0}
          || (GetChecks(s.store, k, size) && exists x :: s'.threads == s.threads[0 := Filling(x, k, size)]))
  {
    hide Ready, GetChecks, PickVictim, Without;
    InvParts(s);
    EvictionIsClean(s);
    AllocOk(s.cache, s.store);
    assert AllocPage(s.cache, s.store).store == s.store;
  }

  lemma InvParts(s: Sys)
    requires Ready(s)
    ensures Inv(s) && Base(s) && Wf(s.cache) && Sizes(s.cache)
  { Basics(s); }

  lemma SameChecks(st: Store, st0: Store, k: Key, size: u32)
    requires st.table == st0.table
    ensures GetChecks(st, k, size) == GetChecks(st0, k, size)
  {}

  lemma NextReserve(cfg: Config, st0: Store, s: Sys, g: Client, k: Key, size: u32)
    requires Faithful(cfg, st0, s, g) && 0 in s.threads && s.threads[0] == Missed(k, size)
    requires Ready(ReserveStep(s, 0, k, size))
    ensures Faithful(cfg, st0, ReserveStep(s, 0, k, size), g)
  {
    hide Ready, Wf, ConfigOk, Direct, View, ReserveStep, SameOrFewer, Cached, GetChecks, DiskTrue, PagesTrue;
    InvParts(s);
    ReserveIs(s, k, size);
    var s' := ReserveStep(s, 0, k, size);
    SameChecks(s.store, st0, k, size);
    NotCached(s, s', k);
    QuietStep(cfg, st0, s, s', g);
  }

  lemma FillIs(cfg: Config, st0: Store, s: Sys, x: nat, k: Key, size: u32, ok: bool)
    requires Ready(s) && 0 in s.threads && s.threads[0] == Filling(x, k, size)
    requires ConfigOk(cfg, s.store) && Legit(cfg, s.store, k) && size == cfg[k.dev]
    ensures x < |s.cache.pool|
    ensures var s' := FillStep(s, 0, x, k, size, ok);
      && s'.store == s.store && s'.pins == s.pins && SameOrFewer(s, s')
      && (|| s'.threads == s.threads[0 := NoMem(x)]
          || (s'.threads == s.threads[0 := Filled(x, k, size)] && x < |s'.cache.pool|
              && s'.cache.pool[x].data == Some(Direct(cfg, s.store, k))))
  {
    hide Wf, GetChecks, B.Inv, ReadBlock;
    assert ThreadOk(s.cache, s.threads[0]);
    InRange(cfg, s.store, k);
    assert ById(s.store, k.dev) == Some(k.dev);
  }

  lemma NotEdited(cfg: Config, st0: Store, s: Sys, g: Client, k: Key)
    requires Faithful(cfg, st0, s, g) && !Cached(s.cache, k)
    ensures k !in g.edited
  { hide Wf, ConfigOk, DiskTrue, PagesTrue, MidCall; }

  lemma SameConfig(cfg: Config, st: Store, st0: Store, k: Key)
    requires ConfigOk(cfg, st0) && st.table == st0.table
    ensures ConfigOk(cfg, st) && (Legit(cfg, st, k) <==> Legit(cfg, st0, k))
  { SameTable(cfg, st0, st, k); }

  lemma NextFill(cfg: Config, st0: Store, s: Sys, g: Client, x: nat, k: Key, size: u32, ok: bool)
    requires Faithful(cfg, st0, s, g) && 0 in s.threads && s.threads[0] == Filling(x, k, size)
    requires x < |s.cache.pool| && Ready(FillStep(s, 0, x, k, size, ok))
    ensures Faithful(cfg, st0, FillStep(s, 0, x, k, size, ok), g)
  {
    hide Ready, Wf, ConfigOk, GetChecks, Direct, View, FillStep, SameOrFewer, Cached, PagesTrue;
    SameConfig(cfg, s.store, st0, k);
    FillIs(cfg, st0, s, x, k, size, ok);
    var s' := FillStep(s, 0, x, k, size, ok);
    NotCached(s, s', k);
    NotEdited(cfg, st0, s, g, k);
    assert Direct(cfg, s.store, k) == View(cfg, st0, g, k);
    QuietStep(cfg, st0, s, s', g);
  }

  lemma PublishIs(s: Sys, x: nat, k: Key)
    requires Wf(s.cache) && x < POOL && !Cached(s.cache, k)
    ensures Find(s.cache, k).None?
    ensures var s' := PublishStep(s, 0, x, k);
      && s'.store == s.store && s'.threads == s.threads - {0} && s'.pins == More(s.pins, k)
      && s'.cache.pool == s.cache.pool[x := s.cache.pool[x].(valid := true)]
  {
    FindOk(s.cache, k);
    hide Wf, Find, Without;
  }

  lemma PublishPages(cfg: Config, st0: Store, s: Sys, s': Sys, g: Client, x: nat)
    requires PagesTrue(cfg, st0, s, g) && x < |s.cache.pool| && PageTrue(cfg, st0, g, s.cache.pool[x])
    requires s'.cache.pool == s.cache.pool[x := s.cache.pool[x].(valid := true)]
    ensures PagesTrue(cfg, st0, s', g)
  {
    hide Legit, View;
    forall y: nat | Live(s'.cache, y) ensures PageTrue(cfg, st0, g, s'.cache.pool[y]) {
      if y != x { assert Live(s.cache, y); }
    }
  }

  lemma QuietDisk(cfg: Config, st0: Store, s: Sys, s': Sys, g: Client)
    requires DiskTrue(cfg, st0, s, g) && s'.store == s.store && !(0 in s.threads && s.threads[0].WbStart?)
    ensures DiskTrue(cfg, st0, s', g)
  { hide Direct, GetChecks, View; }

  lemma FilledFacts(cfg: Config, st0: Store, s: Sys, g: Client, x: nat, k: Key, size: u32)
    requires Faithful(cfg, st0, s, g) && 0 in s.threads && s.threads[0] == Filled(x, k, size)
    ensures x < |s.cache.pool| == POOL && !Cached(s.cache, k) && PageTrue(cfg, st0, g, s.cache.pool[x])
  {
    hide Legit, View, DiskTrue, PagesTrue;
    assert ThreadOk(s.cache, s.threads[0]);
  }

  lemma NextPublish(cfg: Config, st0: Store, s: Sys, g: Client, x: nat, k: Key, size: u32)
    requires Faithful(cfg, st0, s, g) && 0 in s.threads && s.threads[0] == Filled(x, k, size)
    requires Wf(s.cache) && x < POOL && Ready(PublishStep(s, 0, x, k))
    ensures Faithful(cfg, st0, PublishStep(s, 0, x, k), g)
  {
    hide Faithful, Ready, Wf, PublishStep, DiskTrue, PagesTrue, PageTrue, MidCall;
    FaithfulParts(cfg, st0, s, g);
    FilledFacts(cfg, st0, s, g, x, k, size);
    PublishIs(s, x, k);
    var s' := PublishStep(s, 0, x, k);
    PublishPages(cfg, st0, s, s', g, x);
    QuietDisk(cfg, st0, s, s', g);
    MidIdle(cfg, st0, s', g);
    Refold(cfg, st0, s, s', g, g);
  }

  /** The write of a marked page puts exactly its contents on the disk. */
  lemma WbIoIs(cfg: Config, st0: Store, s: Sys, g: Client, x: nat)
    requires ConfigOk(cfg, s.store) && x < |s.cache.pool| && Legit(cfg, s.store, s.cache.pool[x].key)
    requires s.cache.pool[x].dirty && s.cache.pool[x].size == cfg[s.cache.pool[x].key.dev]
    requires s.cache.pool[x].data.Some? && |s.cache.pool[x].data.value| == Size(cfg, s.cache.pool[x].key)
    ensures var p := s.cache.pool[x]; var s' := WbIoStep(s, 0, x, MarkDone);
      && s'.cache == s.cache && s'.pins == s.pins && s'.threads == s.threads[0 := WbClear(x, MarkDone)]
      && s'.store == WriteBlock(s.store, p.key.dev, FirstLba(cfg, p.key), p.data.value)
  {
    hide Wf, GetChecks, B.Inv, WriteBlock;
    var p := s.cache.pool[x];
    InRange(cfg, s.store, p.key);
    assert ById(s.store, p.key.dev) == Some(p.key.dev);
    assert p.data.value[..Size(cfg, p.key)] == p.data.value;
  }

  lemma WbDisk(cfg: Config, st0: Store, s: Sys, s': Sys, g: Client, x: nat)
    requires DiskTrue(cfg, st0, s, g) && ConfigOk(cfg, st0) && s.store.table == st0.table
    requires 0 in s.threads && s.threads[0] == WbStart(x, MarkDone) && x < |s.cache.pool|
    requires PageTrue(cfg, st0, g, s.cache.pool[x])
      && |View(cfg, st0, g, s.cache.pool[x].key)| == Size(cfg, s.cache.pool[x].key)
    requires s'.store == WriteBlock(s.store, s.cache.pool[x].key.dev, FirstLba(cfg, s.cache.pool[x].key),
      s.cache.pool[x].data.value)
    requires s'.threads == s.threads[0 := WbClear(x, MarkDone)]
    ensures DiskTrue(cfg, st0, s', g)
  {
    hide GetChecks, ConfigOk, WriteBlock, Direct, View;
    var key := s.cache.pool[x].key;
    SameConfig(cfg, s.store, st0, key);
    WriteBlockDirect(cfg, s.store, key, s.cache.pool[x].data.value);
    forall k | Legit(cfg, st0, k) && k !in g.edited ensures Direct(cfg, s'.store, k) == View(cfg, st0, g, k) {
      SameConfig(cfg, s.store, st0, k);
    }
  }

  lemma ViewSize(cfg: Config, st0: Store, s: Sys, g: Client, k: Key)
    requires Faithful(cfg, st0, s, g) && k.dev in cfg
    ensures |View(cfg, st0, g, k)| == Size(cfg, k)
  { hide Ready, ConfigOk, DiskTrue, PagesTrue, MidCall; }

  lemma WbFacts(cfg: Config, st0: Store, s: Sys, g: Client, x: nat)
    requires Faithful(cfg, st0, s, g) && 0 in s.threads && s.threads[0] == WbStart(x, MarkDone)
    ensures x < |s.cache.pool| && s.cache.pool[x].dirty && PageTrue(cfg, st0, g, s.cache.pool[x])
    ensures ConfigOk(cfg, st0) && s.store.table == st0.table
  {
    hide Wf, ConfigOk, Legit, View, DiskTrue;
    assert ThreadOk(s.cache, s.threads[0]);
  }

  lemma NextWbIo(cfg: Config, st0: Store, s: Sys, g: Client, x: nat)
    requires Faithful(cfg, st0, s, g) && 0 in s.threads && s.threads[0] == WbStart(x, MarkDone)
    requires x < |s.cache.pool| && Ready(WbIoStep(s, 0, x, MarkDone))
    ensures Faithful(cfg, st0, WbIoStep(s, 0, x, MarkDone), g)
  {
    hide Faithful, Ready, Wf, ConfigOk, GetChecks, View, WbIoStep, DiskTrue, PagesTrue, WriteBlock, FirstLba, Size;
    FaithfulParts(cfg, st0, s, g);
    WbFacts(cfg, st0, s, g, x);
    var p := s.cache.pool[x];
    ViewSize(cfg, st0, s, g, p.key);
    SameConfig(cfg, s.store, st0, p.key);
    WbIoIs(cfg, st0, s, g, x);
    var s' := WbIoStep(s, 0, x, MarkDone);
    WbDisk(cfg, st0, s, s', g, x);
    PagesSame(cfg, st0, s, s', g);
    Refold(cfg, st0, s, s', g, g);
  }

  lemma PagesSame(cfg: Config, st0: Store, s: Sys, s': Sys, g: Client)
    requires PagesTrue(cfg, st0, s, g) && SameOrFewer(s, s')
    ensures PagesTrue(cfg, st0, s', g)
  { hide Legit, View; }

  ghost predicate Moved(s: Sys, s': Sys) {
    s'.store == s.store && s'.pins == s.pins && SameOrFewer(s, s')
  }

  lemma ReturnIs(s: Sys, x: nat)
    requires x < |s.cache.pool|
    ensures Moved(s, ReturnStep(s, 0, x)) && ReturnStep(s, 0, x).threads == s.threads - {0}
  {}

  lemma WbLoadIs(s: Sys, x: nat, cont: Cont)
    requires x < |s.cache.pool|
    ensures Moved(s, WbLoadStep(s, 0, x, cont))
    ensures exists used, valid :: WbLoadStep(s, 0, x, cont).threads == s.threads[0 := WbStore(x, cont, used, valid)]
  {}

  lemma WbCleanIs(s: Sys, x: nat, cont: Cont)
    requires Live(s.cache, x)
    ensures Moved(s, WbCleanStep(s, 0, x, cont, true, true))
    ensures WbCleanStep(s, 0, x, cont, true, true).threads == s.threads[0 := WbEnd(x, cont)]
  {}

  lemma FinishIs(s: Sys, x: nat)
    requires Wf(s.cache) && x < POOL
    ensures Moved(s, WbFinishStep(s, 0, x, MarkDone)) && WbFinishStep(s, 0, x, MarkDone).threads == s.threads - {0}
  { hide Drop; }

  lemma DropIs(s: Sys, dev: u32, i: nat)
    requires Wf(s.cache)
    ensures var s' := DropStep(s, 0, dev, i);
      Moved(s, s') && (s'.threads == s.threads - {0} || exists j :: s'.threads == s.threads[0 := Dropping(dev, j)])
  { hide Without; }

  /** The remaining steps move no data. */
  lemma NextQuiet(cfg: Config, st0: Store, s: Sys, s': Sys, g: Client)
    requires Faithful(cfg, st0, s, g) && 0 in s.threads && !s.threads[0].WbStart?
    requires Ready(s') && Moved(s, s')
    requires || s'.threads == s.threads - {0}
             || (exists j, dev :: s'.threads == s.threads[0 := Dropping(dev, j)])
             || (exists x :: s'.threads == s.threads[0 := WbEnd(x, MarkDone)])
             || (exists x, used, valid :: s'.threads == s.threads[0 := WbStore(x, MarkDone, used, valid)])
    ensures Faithful(cfg, st0, s', g)
  {
    hide Ready, Wf, ConfigOk, Legit, DiskTrue, PagesTrue, View, SameOrFewer;
    QuietStep(cfg, st0, s, s', g);
  }

  lemma NextIs(s: Sys, ok: bool)
    requires Ready(s) && 0 in s.threads
    ensures Wf(s.cache) && Sizes(s.cache) && ThreadOk(s.cache, s.threads[0])
    ensures Step(s, 0, Next(s.threads[0], ok)) ==
      match s.threads[0]
      case Missed(k, size) => ReserveStep(s, 0, k, size)
      case Filling(x, k, size) => FillStep(s, 0, x, k, size, ok)
      case NoMem(x) => ReturnStep(s, 0, x)
      case Filled(x, k, size) => PublishStep(s, 0, x, k)
      case Lost(x) => DiscardStep(s, 0, x)
      case Half(x) => SettleStep(s, 0, x)
      case WbStart(x, cont) => WbIoStep(s, 0, x, cont)
      case WbClear(x, cont) => WbLoadStep(s, 0, x, cont)
      case WbStore(x, cont, used, valid) => WbCleanStep(s, 0, x, cont, used, valid)
      case WbEnd(x, cont) => WbFinishStep(s, 0, x, cont)
      case Dropping(dev, i) => DropStep(s, 0, dev, i)
  {
    hide ReserveStep, FillStep, PublishStep, ReturnStep, DiscardStep, SettleStep, WbIoStep, WbLoadStep, WbCleanStep,
      WbFinishStep,
      DropStep;
  }

  lemma MidCont(cfg: Config, st0: Store, s: Sys, g: Client)
    requires Faithful(cfg, st0, s, g) && 0 in s.threads
    ensures Ready(s) && !s.threads[0].Lost? && !s.threads[0].Half?
    ensures var pc := s.threads[0]; pc.WbStart? || pc.WbClear? || pc.WbStore? || pc.WbEnd? ==> pc.cont == MarkDone
  { hide Ready, ConfigOk, Legit, DiskTrue, PagesTrue, View; }

  lemma NextFaithful(cfg: Config, st0: Store, s: Sys, g: Client, ok: bool)
    requires Faithful(cfg, st0, s, g) && 0 in s.threads && Ready(s)
    ensures Ready(Step(s, 0, Next(s.threads[0], ok))) && Faithful(cfg, st0, Step(s, 0, Next(s.threads[0], ok)), g)
  {
    hide Ready, Wf, Step, Kept, Next, ReserveStep, FillStep, PublishStep, ReturnStep, DiscardStep, SettleStep,
      WbIoStep, WbLoadStep, WbCleanStep, WbFinishStep, DropStep, Faithful, Moved;
    MidCont(cfg, st0, s, g);
    NextIs(s, ok);
    NextInside(s.threads[0], ok);
    ReadyNext(s, Next(s.threads[0], ok));
    match s.threads[0]
    case Missed(k, size) => NextReserve(cfg, st0, s, g, k, size);
    case Filling(x, k, size) => NextFill(cfg, st0, s, g, x, k, size, ok);
    case NoMem(x) => ReturnIs(s, x); NextQuiet(cfg, st0, s, ReturnStep(s, 0, x), g);
    case Filled(x, k, size) => NextPublish(cfg, st0, s, g, x, k, size);
    case WbStart(x, cont) => NextWbIo(cfg, st0, s, g, x);
    case WbClear(x, cont) => WbLoadIs(s, x, cont); NextQuiet(cfg, st0, s, WbLoadStep(s, 0, x, cont), g);
    case WbStore(x, cont, used, valid) =>
      WbCleanIs(s, x, cont);
      NextQuiet(cfg, st0, s, WbCleanStep(s, 0, x, cont, used, valid), g);
    case WbEnd(x, cont) => FinishIs(s, x); NextQuiet(cfg, st0, s, WbFinishStep(s, 0, x, cont), g);
    case Dropping(dev, i) => DropIs(s, dev, i); NextQuiet(cfg, st0, s, DropStep(s, 0, dev, i), g);
    case Lost(x) =>
    case Half(x) =>
  }

  lemma {:induction false} CompleteFaithful(cfg: Config, st0: Store, s: Sys, g: Client, ok: bool)
    requires Ready(s) && Faithful(cfg, st0, s, g)
    ensures Faithful(cfg, st0, Complete(s, ok), g)
    decreases RankOf(s)
  {
    hide Ready, Step, Faithful;
    InvParts(s);
    if 0 in s.threads {
      NextFaithful(cfg, st0, s, g, ok);
      StepRank(s, ok);
      CompleteFaithful(cfg, st0, Step(s, 0, Next(s.threads[0], ok)), g, ok);
    }
  }

  /** Every complete call keeps the cache faithful to the reference. */
  lemma CallFaithful(cfg: Config, st0: Store, s: Sys, g: Client, c: Call)
    requires Ready(s) && Faithful(cfg, st0, s, g) && 0 !in s.threads && Calm(s.threads, 0) && Allowed(cfg, s, g, c)
    ensures Ready(Do(s, c)) && 0 !in Do(s, c).threads && Faithful(cfg, st0, Do(s, c), After(g, c))
  {
    hide Ready, Step, Faithful, Complete, Allowed, After;
    InvParts(s);
    StartFaithful(cfg, st0, s, g, c);
    CompleteFaithful(cfg, st0, Step(s, 0, Start(c)), After(g, c), if c.Get? then c.kallocOk else true);
  }

  // ---------------------------------------------------------------- what pc_get_page answers

  ghost predicate Available(c: Cache) {
    exists x: nat :: x < |c.pool| && (!c.pool[x].used || (c.pool[x].valid && c.pool[x].pin == 0))
  }

  /** A miss that has not failed yet: `sure` when nothing can make it fail any more. */
  ghost predicate OnTheWay(s: Sys, k: Key, size: u32, ok: bool, sure: bool) {
    0 in s.threads &&
    match s.threads[0]
    case Missed(k', size') => k' == k && size' == size
      && (sure ==> ok && GetChecks(s.store, k, size) && Available(s.cache))
    case Filling(_, k', size') => k' == k && size' == size && (sure ==> ok)
    case Filled(_, k', size') => k' == k && size' == size
    case NoMem(_) => !sure
    case _ => false
  }

  lemma ReserveGoes(s: Sys, k: Key, size: u32, ok: bool, sure: bool)
    requires Ready(s) && OnTheWay(s, k, size, ok, sure) && s.threads[0] == Missed(k, size)
    ensures var s' := ReserveStep(s, 0, k, size);
      s'.pins == s.pins && (0 in s'.threads ==> OnTheWay(s', k, size, ok, sure))
    ensures sure ==> 0 in ReserveStep(s, 0, k, size).threads
  {
    hide Ready, GetChecks, PickVictim, Without;
    InvParts(s);
    AllocOk(s.cache, s.store);
    if sure {
      var x: nat :| x < |s.cache.pool|
        && (!s.cache.pool[x].used || (s.cache.pool[x].valid && s.cache.pool[x].pin == 0));
      assert FreeFlags(s.cache)[x] == !s.cache.pool[x].used;
    }
  }

  lemma {:induction false} MissPins(cfg: Config, st0: Store, s: Sys, g: Client, k: Key, size: u32, ok: bool, sure: bool)
    requires Ready(s) && Faithful(cfg, st0, s, g) && OnTheWay(s, k, size, ok, sure)
    ensures Complete(s, ok).pins == More(s.pins, k) || (!sure && Complete(s, ok).pins == s.pins)
    decreases RankOf(s)
  {
    hide Ready, Wf, Step, Faithful, ReserveStep, PublishStep, GetChecks, Cached, Next;
    InvParts(s);
    NextIs(s, ok);
    NextFaithful(cfg, st0, s, g, ok);
    StepRank(s, ok);
    var s' := Step(s, 0, Next(s.threads[0], ok));
    match s.threads[0] {
      case Missed(_, _) => ReserveGoes(s, k, size, ok, sure);
      case Filled(x, _, _) => FilledFacts(cfg, st0, s, g, x, k, size); PublishIs(s, x, k);
      case _ =>
    }
    if 0 in s'.threads { MissPins(cfg, st0, s', g, k, size, ok, sure); }
  }

  /** The buffer pc_get_page returns, None for a null result. */
  ghost function GetResult(s: Sys, k: Key, size: u32, ok: bool): Option<Block>
    requires Ready(s) && Calm(s.threads, 0)
  {
    var s' := Do(s, Get(k, size, ok));
    if s'.pins != More(s.pins, k) then None
    else match Find(s'.cache, k)
      case None => None
      case Some(x) =>
        FindOk(s'.cache, k);
        s'.cache.pool[x].data
  }

  lemma GetPins(cfg: Config, st0: Store, s: Sys, g: Client, k: Key, ok: bool)
    requires Ready(s) && Faithful(cfg, st0, s, g) && 0 !in s.threads && Calm(s.threads, 0) && k.dev in cfg
    ensures var s' := Do(s, Get(k, cfg[k.dev], ok));
      || s'.pins == More(s.pins, k)
      || (s'.pins == s.pins && !(Cached(s.cache, k) || (ok && Legit(cfg, s.store, k) && Available(s.cache))))
  {
    hide Wf, Ready, Faithful, GetChecks, Available, Touch, Find;
    var c, size := Get(k, cfg[k.dev], ok), cfg[k.dev];
    StartIs(s, c);
    StartFaithful(cfg, st0, s, g, c);
    InvParts(s);
    FindOk(s.cache, k);
    var s1 := Step(s, 0, Start(c));
    if Find(s.cache, k).None? {
      MissPins(cfg, st0, s1, g, k, size, ok, ok && Legit(cfg, s.store, k) && Available(s.cache));
    }
  }

  lemma PinnedPage(cfg: Config, st0: Store, s: Sys, g: Client, k: Key)
    requires Ready(s) && Faithful(cfg, st0, s, g) && k in s.pins
    ensures Find(s.cache, k).Some? && Live(s.cache, Find(s.cache, k).value)
    ensures k.dev in cfg && s.cache.pool[Find(s.cache, k).value].data == Some(View(cfg, st0, g, k))
  {
    hide Ready, Wf, ConfigOk, DiskTrue, Find, View, GetChecks;
    InvParts(s);
    HolderLive(s, k);
    assert PageTrue(cfg, st0, g, s.cache.pool[Find(s.cache, k).value]);
  }

  /** pc_get_page answers the block's contents under direct disk access. It returns a buffer
      whenever the block is cached, or lies on the device and a slot can be found. */
  lemma GetIsDirect(cfg: Config, st0: Store, s: Sys, g: Client, k: Key, ok: bool)
    requires Ready(s) && Faithful(cfg, st0, s, g) && 0 !in s.threads && Calm(s.threads, 0) && k.dev in cfg
    ensures var r := GetResult(s, k, cfg[k.dev], ok);
      && (r.Some? ==> r.value == View(cfg, st0, g, k))
      && (Cached(s.cache, k) || (ok && Legit(cfg, s.store, k) && Available(s.cache)) ==> r.Some?)
  {
    hide Ready, Wf, Faithful, Do, Find, View, GetChecks, Cached, Available;
    GetPins(cfg, st0, s, g, k, ok);
    CallFaithful(cfg, st0, s, g, Get(k, cfg[k.dev], ok));
    var s' := Do(s, Get(k, cfg[k.dev], ok));
    if s'.pins == More(s.pins, k) { PinnedPage(cfg, st0, s', g, k); }
  }

  // ---------------------------------------------------------------- whole runs

  ghost function RunCalls(s: Sys, calls: seq<Call>): (r: Sys)
    requires Ready(s) && Calm(s.threads, 0)
    ensures Ready(r) && Calm(r.threads, 0)
    decreases calls
  {
    if calls == [] then s else RunCalls(Do(s, calls[0]), calls[1..])
  }

  function ClientsAfter(g: Client, calls: seq<Call>): Client
    decreases calls
  { if calls == [] then g else ClientsAfter(After(g, calls[0]), calls[1..]) }

  ghost predicate Disciplined(cfg: Config, s: Sys, g: Client, calls: seq<Call>)
    requires Ready(s) && Calm(s.threads, 0)
    decreases calls
  {
    calls == [] || (Allowed(cfg, s, g, calls[0]) && Disciplined(cfg, Do(s, calls[0]), After(g, calls[0]), calls[1..]))
  }

  lemma {:induction false} RunFaithful(cfg: Config, st0: Store, s: Sys, g: Client, calls: seq<Call>)
    requires Ready(s) && Faithful(cfg, st0, s, g) && 0 !in s.threads && Calm(s.threads, 0)
      && Disciplined(cfg, s, g, calls)
    ensures Faithful(cfg, st0, RunCalls(s, calls), ClientsAfter(g, calls)) && 0 !in RunCalls(s, calls).threads
    decreases calls
  {
    hide Ready, Faithful, Do, Allowed;
    if calls != [] {
      CallFaithful(cfg, st0, s, g, calls[0]);
      RunFaithful(cfg, st0, Do(s, calls[0]), After(g, calls[0]), calls[1..]);
    }
  }

  lemma BootFaithful(cfg: Config, st0: Store)
    requires ConfigOk(cfg, st0)
    ensures Ready(Boot(st0)) && Faithful(cfg, st0, Boot(st0), Client(map[], {}))
  { InitInv(st0); }

  /** Transparency. After any disciplined sequence of calls from boot, (1) pc_get_page answers
      the last contents written to the block, or the block's original contents, and (2) every
      block with no unmarked write has exactly those contents on the disk. */
  lemma Transparent(cfg: Config, st0: Store, calls: seq<Call>, k: Key, ok: bool)
    requires ConfigOk(cfg, st0) && k.dev in cfg && Ready(Boot(st0))
    requires Disciplined(cfg, Boot(st0), Client(map[], {}), calls)
    ensures var s, g := RunCalls(Boot(st0), calls), ClientsAfter(Client(map[], {}), calls);
      && (GetResult(s, k, cfg[k.dev], ok).Some? ==> GetResult(s, k, cfg[k.dev], ok).value == View(cfg, st0, g, k))
      && (Cached(s.cache, k) || (ok && Legit(cfg, st0, k) && Available(s.cache)) ==>
        GetResult(s, k, cfg[k.dev], ok).Some?)
      && (Legit(cfg, st0, k) && k !in g.edited ==> Direct(cfg, s.store, k) == View(cfg, st0, g, k))
  {
    hide Ready, Wf, View, Direct, GetResult, Cached, Available, RunCalls, ClientsAfter, Disciplined, PagesTrue,
      MidCall, ConfigOk, GetChecks;
    BootFaithful(cfg, st0);
    RunFaithful(cfg, st0, Boot(st0), Client(map[], {}), calls);
    var s, g := RunCalls(Boot(st0), calls), ClientsAfter(Client(map[], {}), calls);
    GetIsDirect(cfg, st0, s, g, k, ok);
    SameConfig(cfg, s.store, st0, k);
  }
}
