/** The page cache object: page descriptors, hash chains and LRU list updated in place. Each
    method is one lock-held section or one public call, and is tied to the step functions of
    the protocol, whose properties are proved there. The methods run as thread 0; `threads`
    records where the other threads stand. */
module PageCache {
  import opened Common
  import B = BlkDev
  import opened PageCacheModel
  import opened PageCacheSteps
  import opened PageCacheProtocol
  import opened PageCacheTransparency
  import opened PageLists

  class PagePool {
    const pages: array<Page>
    const hash: HashChains
    const lru: LruList
    var store: Store
    ghost var threads: map<nat, Pc>
    ghost var pins: multiset<Key>

    ghost function Abs(): Cache
      reads this, pages, hash, lru
    { Cache(pages[..], hash.chains, lru.order) }

    ghost function Value(): Sys
      reads this, pages, hash, lru
    { Sys(Abs(), store, threads, pins) }

    /** The arrays and lists are separate objects and the links are those of the value. */
    ghost predicate Linked()
      reads this, pages, hash, hash.heads, hash.next, lru, lru.prev, lru.next
    {
      && hash.heads != lru.prev && hash.heads != lru.next && hash.next != lru.prev && hash.next != lru.next
      && hash.Valid() && lru.Valid()
    }

    ghost predicate Valid()
      reads this, pages, hash, hash.heads, hash.next, lru, lru.prev, lru.next
    { Linked() && Ready(Value()) }

    ghost predicate Holds(x: int, k: Key)
      reads pages
    { 0 <= x < pages.Length && pages[x].valid && pages[x].key == k }

    lemma Facts()
      requires Ready(Value())
      ensures Inv(Value()) && Base(Value()) && Wf(Abs()) && Sizes(Abs()) && pages.Length == POOL
    {
      InvParts(Value());
      assert |pages[..]| == POOL;
    }

    constructor (st: Store)
      ensures Valid() && Value() == Boot(st)
      ensures fresh(pages) && fresh(hash) && fresh(hash.heads) && fresh(hash.next) && fresh(lru) && fresh(lru.prev)
        && fresh(lru.next)
    {
      pages := new Page[POOL](_ => BLANK);
      hash := new HashChains();
      lru := new LruList();
      store, threads, pins := st, map[], multiset{};
      new;
      assert pages[..] == PageCacheModel.Empty().pool;
      InitInv(st);
    }

    // -------------------------------------------------------------- sections under the lock

    method HashFind(k: Key) returns (x: int)
      requires Linked() && Wf(Abs()) && pages.Length == POOL
      ensures x == match PageCacheModel.Find(Abs(), k) case Some(y) => y case None => -1
    {
      ChainBound(Abs(), Hash(k));
      x := hash.Find(Hash(k), pages, k);
    }

    /** A page's own fields change; the lists do not. */
    method SetPage(x: nat, p: Page)
      requires Linked() && x < pages.Length
      modifies pages
      ensures Linked() && Abs() == Set(old(Abs()), x, p)
    {
      pages[x] := p;
    }

    method LruTouch(x: nat)
      requires Linked() && x < POOL
      modifies lru, lru.prev, lru.next
      ensures Linked() && Abs() == Touch(old(Abs()), x)
    {
      lru.Touch(x);
    }

    /** A cached page is pinned and becomes the most recently used. */
    method PinAndTouch(x: nat)
      requires Linked() && x < pages.Length == POOL
      modifies pages, lru, lru.prev, lru.next
      ensures Linked() && Abs() == Touch(Pinned(old(Abs()), x), x)
      ensures pages[x] == old(pages[x]).(pin := old(pages[x].pin) + 1)
    {
      hide Touch;
      SetPage(x, pages[x].(pin := pages[x].pin + 1));
      LruTouch(x);
    }

    /** The hit path of pc_get_page. */
    method Lookup(k: Key, size: u32) returns (x: int)
      requires Valid() && 0 !in threads && Calm(threads, 0)
      modifies this`threads, this`pins, pages, lru, lru.prev, lru.next
      ensures Valid() && Value() == LookupStep(old(Value()), 0, k, size)
      ensures x == match PageCacheModel.Find(old(Abs()), k) case Some(y) => y case None => -1
      ensures if x >= 0 then Holds(x, k) && pins == More(old(pins), k) else pins == old(pins)
    {
      hide Ready, Inv, Base, Wf, PageCacheModel.Find, Without, Kept, Touch;
      ghost var s := Value();
      Facts();
      FindOk(Abs(), k);
      Looked(s, k, size);
      x := HashFind(k);
      if x >= 0 {
        PinAndTouch(x);
        pins := More(pins, k);
      } else {
        threads := threads[0 := Missed(k, size)];
      }
    }

    /** The transfer loop of _writeback. */
    method WriteSectors(dev: nat, lba: nat, data: Block)
      modifies this`store
      ensures store == WriteBlock(old(store), dev, lba, data)
    {
      var i := 0;
      assert data[..0] == [];
      while i < |data|
        invariant 0 <= i <= |data| && store == WriteBlock(old(store), dev, lba, data[..i])
      {
        assert data[..i + 1][..i] == data[..i];
        store := WriteSector(store, dev, (lba + i) % TWO32, data[i]);
        i := i + 1;
      }
      assert data[..|data|] == data;
    }

    /** _writeback */
    method Writeback(x: nat)
      requires Linked() && x < pages.Length
      modifies this`store, pages
      ensures Linked() && Abs() == Set(old(Abs()), x, old(pages[x]).(dirty := false))
      ensures store == if old(pages[x]).dirty then WritebackStore(old(store), old(pages[x])) else old(store)
    {
      hide WriteBlock;
      var p := pages[x];
      assert Set(Abs(), x, p) == Abs();
      if !p.dirty { return; }
      if p.data.Some? && ById(store, p.key.dev).Some? {
        var spb := if Spb(p.size) <= |p.data.value| then Spb(p.size) else |p.data.value|;
        WriteSectors(ById(store, p.key.dev).value, p.key.block * Spb(p.size) % TWO32, p.data.value[..spb]);
      }
      pages[x] := p.(dirty := false);
    }

    /** _lru_remove, _hash_remove and the clearing of flags and pin count. */
    method Detach(x: nat, data: Option<Block>)
      requires Linked() && Sizes(Abs()) && x in lru.order
      modifies pages, hash, hash.heads, hash.next, lru, lru.prev, lru.next
      requires x < POOL && pages.Length == POOL
      ensures Linked() && Abs() == Set(Remove(old(Abs()), x), x, Freed(old(pages[x])).(data := data))
    {
      hide Without;
      lru.Remove(x);
      hash.Remove(Hash(pages[x].key), x);
      pages[x] := Freed(pages[x]).(data := data);
    }

    /** The walk of _evict_one from the LRU tail to the first page that is not pinned. */
    method FindVictim() returns (x: int)
      requires Linked() && Wf(Abs()) && pages.Length == POOL
      ensures x == match PickVictim(Abs()) case Some(y) => y case None => -1
    {
      hide Wf;
      ghost var c, o := Abs(), lru.order;
      LruBound(c);
      x := lru.tail;
      ghost var n := |o|;
      assert o[..n] == o;
      while x >= 0 && pages[x].pin != 0
        invariant 0 <= n <= |o| && x == At(o, n - 1)
        invariant Victim(c.pool, o) == Victim(c.pool, o[..n])
        decreases n
      {
        assert o[..n][n - 1] == o[n - 1] && o[..n][..n - 1] == o[..n - 1];
        Back(n - 1);
        x := lru.prev[x];
        n := n - 1;
      }
      if n > 0 { assert o[..n][n - 1] == o[n - 1]; }
    }

    /** _evict_one */
    method Evict() returns (x: int)
      requires Linked() && Wf(Abs()) && pages.Length == POOL
      modifies this`store, pages, hash, hash.heads, hash.next, lru, lru.prev, lru.next
      ensures Linked()
      ensures var r := EvictOne(old(Abs()), old(store));
        Abs() == r.cache && store == r.store && x == match r.slot case Some(y) => y case None => -1
    {
      hide Wf, Without, WritebackStore, PickVictim, Remove;
      ghost var c := Abs();
      x := FindVictim();
      if x >= 0 {
        VictimFacts(c, x);
        Writeback(x);
        Detach(x, pages[x].data);
      }
    }

    lemma Back(i: nat)
      requires Linked() && i < |lru.order|
      ensures lru.order[i] < lru.prev.Length && lru.prev[lru.order[i]] == At(lru.order, i - 1)
    { assert lru.prev[..][lru.order[i]] == At(lru.order, i - 1); }

    /** _alloc_page */
    method Alloc() returns (x: int)
      requires Linked() && Wf(Abs()) && pages.Length == POOL
      modifies this`store, pages, hash, hash.heads, hash.next, lru, lru.prev, lru.next
      ensures Linked()
      ensures var r := AllocPage(old(Abs()), old(store));
        Abs() == r.cache && store == r.store && x == match r.slot case Some(y) => y case None => -1
    {
      hide Wf, EvictOne;
      ghost var f := FreeFlags(Abs());
      var i := 0;
      while i < POOL
        invariant 0 <= i <= POOL && forall j | 0 <= j < i :: !f[j]
        modifies {}
      {
        if !pages[i].used {
          assert f[i];
          return i;
        }
        i := i + 1;
      }
      x := Evict();
    }

    // -------------------------------------------------------------- the sections of pc_get_page

    method Reserve(k: Key, size: u32) returns (x: int)
      requires Valid() && 0 in threads && threads[0] == Missed(k, size)
      modifies this`store, this`threads, pages, hash, hash.heads, hash.next, lru, lru.prev, lru.next
      ensures Valid() && Value() == ReserveStep(old(Value()), 0, k, size)
      ensures if x >= 0 then 0 in threads && threads[0] == Filling(x, k, size) else x == -1 && 0 !in threads
    {
      hide Ready, Inv, Base, Wf, GetChecks, AllocPage, Kept, Remove;
      ghost var s := Value();
      Facts();
      ReserveGoesOn(s, k, size);
      if !GetChecks(store, k, size) {
        threads := threads - {0};
        return -1;
      }
      AllocOk(Abs(), store);
      x := Alloc();
      if x < 0 {
        threads := threads - {0};
        return;
      }
      SetPage(x, Page(k, size, true, false, false, 1, pages[x].data));
      threads := threads[0 := Filling(x, k, size)];
    }

    /** The read loop: the buffer is zeroed, then each sector is read into it. */
    method ReadSectors(dev: Option<nat>, lba: nat, n: nat) returns (d: Block)
      ensures d == ReadBlock(store, dev, lba, n)
    {
      d := seq(n, _ => ZeroSector());
      var i := 0;
      while i < n
        invariant 0 <= i <= n == |d|
        invariant forall j | 0 <= j < i :: d[j] == SectorAt(store, dev, (lba + j) % TWO32)
      {
        d := d[i := SectorAt(store, dev, (lba + i) % TWO32)];
        i := i + 1;
      }
    }

    method FillSlot(x: nat, k: Key, size: u32, kallocOk: bool) returns (filled: bool)
      requires Valid() && 0 in threads && threads[0] == Filling(x, k, size)
      modifies this`threads, pages
      ensures Valid() && x < |old(Abs()).pool| && Value() == FillStep(old(Value()), 0, x, k, size, kallocOk)
      ensures 0 in threads && threads[0] == if filled then Filled(x, k, size) else NoMem(x)
    {
      hide Ready, Inv, Base, Wf, ReadBlock;
      ghost var s := Value();
      Facts();
      FillGoesOn(s, x, k, size, kallocOk);
      FillingPage(s, x, k, size);
      if pages[x].data.None? && !kallocOk {
        threads := threads[0 := NoMem(x)];
        return false;
      }
      var d := ReadSectors(Target(store, k.dev), k.block * Spb(size) % TWO32, Spb(size));
      SetPage(x, pages[x].(data := Some(d)));
      threads := threads[0 := Filled(x, k, size)];
      return true;
    }

    /** A slot without memory goes back to the pool, under the lock. */
    method GiveBack(x: nat)
      requires Valid() && 0 in threads && threads[0] == NoMem(x)
      modifies this`threads, pages
      ensures Valid() && 0 !in threads && x < |old(Abs()).pool| && Value() == ReturnStep(old(Value()), 0, x)
    {
      hide Ready, Inv, Base, Wf, Complete;
      Facts();
      Onward(Value(), true);
      SetPage(x, Freed(pages[x]));
      threads := threads - {0};
    }

    /** A slot that lost the race to publish goes back in two stores, outside the lock. */
    method LoseSlot(x: nat)
      requires Valid() && 0 in threads && threads[0] == Lost(x)
      modifies this`threads, pages
      ensures Valid() && 0 !in threads && x < |old(Abs()).pool|
      ensures Value() == SettleStep(DiscardStep(old(Value()), 0, x), 0, x)
      ensures forall ok :: Complete(Value(), ok) == Complete(old(Value()), ok)
      ensures forall y | 0 <= y < pages.Length && y != x :: pages[y] == old(pages[y])
    {
      hide Ready, Inv, Base, Wf, Complete;
      ghost var s := Value();
      Facts();
      Lose(s, x);
      SetPage(x, pages[x].(used := false, valid := false, dirty := false));
      threads := threads[0 := Half(x)];
      SetPage(x, pages[x].(pin := 0));
      threads := threads - {0};
    }

    /** The VALID flag, _hash_insert and _lru_touch. */
    method Attach(x: nat)
      requires Linked() && Sizes(Abs()) && x < pages.Length == POOL
      requires forall b: nat | b < BUCKETS :: x !in hash.chains[b]
      modifies pages, hash, hash.heads, hash.next, lru, lru.prev, lru.next
      ensures Linked() && Abs() == Insert(old(Abs()), x)
      ensures pages[x] == old(pages[x]).(valid := true)
    {
      hide Without;
      pages[x] := pages[x].(valid := true);
      hash.Insert(Hash(pages[x].key), x);
      lru.Touch(x);
    }

    method PublishSlot(x: nat, k: Key, size: u32) returns (r: nat)
      requires Valid() && 0 in threads && threads[0] == Filled(x, k, size)
      modifies this`threads, this`pins, pages, hash, hash.heads, hash.next, lru, lru.prev, lru.next
      ensures Valid() && x < |old(Abs()).pool| == POOL && Value() == PublishStep(old(Value()), 0, x, k)
      ensures if r == x then 0 !in threads else 0 in threads && threads[0] == Lost(x)
      ensures r == match PageCacheModel.Find(old(Abs()), k) case Some(e) => e case None => x
      ensures Holds(r, k) && pins == More(old(pins), k)
    {
      hide Ready, Inv, Base, Wf, PageCacheModel.Find, Without, Kept, Insert, Touch, Hash, ThreadOk;
      ghost var s := Value();
      Facts();
      PublishGoesOn(s, x, k, size);
      FilledPage0(s, x, k, size);
      FindOk(Abs(), k);
      var e := HashFind(k);
      if e >= 0 {
        PinAndTouch(e);
        pins, threads := More(pins, k), threads[0 := Lost(x)];
        return e;
      }
      Attach(x);
      pins, threads := More(pins, k), threads - {0};
      return x;
    }

    /** pc_get_page: a hit, or reserve, read and publish, or a null result (-1). */
    method GetPage(k: Key, size: u32, kallocOk: bool) returns (r: int)
      requires Valid() && 0 !in threads && Calm(threads, 0)
      modifies this`store, this`threads, this`pins, pages, hash, hash.heads, hash.next, lru, lru.prev, lru.next
      ensures Valid() && 0 !in threads && Value() == Do(old(Value()), Get(k, size, kallocOk))
      ensures if r >= 0 then Holds(r, k) && pins == More(old(pins), k) else r == -1 && pins == old(pins)
    {
      hide Ready, Inv, Base, Wf, Kept, ThreadOk, LookupStep, ReserveStep, FillStep, PublishStep, ReturnStep,
        DiscardStep, SettleStep, PageCacheModel.Find, Complete;
      ghost var s, c := Value(), Get(k, size, kallocOk);
      StartIs(s, c);
      BeginDo(s, c);
      r := Lookup(k, size);
      LookupOutcome(s, k, size);
      if r >= 0 { Stop(Value(), kallocOk); return; }
      Onward(Value(), kallocOk);
      r := Reserve(k, size);
      if r < 0 { Stop(Value(), kallocOk); return; }
      var x: nat := r;
      Onward(Value(), kallocOk);
      var filled := FillSlot(x, k, size, kallocOk);
      Onward(Value(), kallocOk);
      if !filled {
        GiveBack(x);
        Stop(Value(), kallocOk);
        return -1;
      }
      r := PublishSlot(x, k, size);
      if r != x { LoseSlot(x); }
      Stop(Value(), kallocOk);
    }

    // -------------------------------------------------------------- the other calls

    /** The unlocked part of _writeback_pinned. */
    method WritebackPinned(x: nat, cont: Cont)
      requires Valid() && 0 in threads && threads[0] == WbStart(x, cont)
      modifies this`store, this`threads, pages
      ensures Valid() && threads == old(threads)[0 := WbEnd(x, cont)]
      ensures Complete(Value(), true) == Complete(old(Value()), true)
    {
      hide Ready, Inv, Base, Wf, Complete, WritebackStore, ReserveStep, FillStep, PublishStep, ReturnStep,
        WbFinishStep, DropStep;
      ghost var s := Value();
      Facts();
      WritesBack(s, x, cont);
      Writeback(x);
      threads := threads[0 := WbEnd(x, cont)];
      if !s.cache.pool[x].dirty { assert Set(s.cache, x, s.cache.pool[x].(dirty := false)) == s.cache; }
    }

    method FinishMark(x: nat)
      requires Valid() && 0 in threads && threads[0] == WbEnd(x, MarkDone)
      modifies this`threads, pages
      ensures Valid() && 0 !in threads && Value() == Complete(old(Value()), true)
    {
      hide Ready, Inv, Base, Wf, Complete, FlushScan;
      Facts();
      Unpinning(Value(), x, MarkDone);
      SetPage(x, pages[x].(pin := pages[x].pin - 1));
      threads := threads - {0};
      Stop(Value(), true);
    }

    /** pc_mark_dirty */
    method MarkPageDirty(k: Key)
      requires Valid() && 0 !in threads
      modifies this`store, this`threads, pages
      ensures Valid() && 0 !in threads && Value() == Do(old(Value()), MarkDirty(k))
    {
      hide Ready, Inv, Base, Wf, Complete, Kept, PageCacheModel.Find, Do, Step, Start, LookupStep, PutStep, PokeStep,
        FlushScan, InvalidateStep;
      ghost var s, c := Value(), MarkDirty(k);
      Facts();
      StartIs(s, c);
      BeginDo(s, c);
      FindOk(Abs(), k);
      var x := HashFind(k);
      if x < 0 { Stop(s, true); return; }
      SetPage(x, pages[x].(dirty := true, pin := pages[x].pin + 1));
      threads := threads[0 := WbStart(x, MarkDone)];
      WritebackPinned(x, MarkDone);
      FinishMark(x);
    }

    /** Only clients have the block pinned, or this one has. */
    ghost predicate MayRelease(k: Key)
      reads this, pages
    { k in pins || forall x | Holds(x, k) :: pages[x].pin == 0 }

    /** pc_put_page: a block that is not cached, or has no pin, is left alone; otherwise the count
        goes down, also when the pin was a writeback's. */
    method ReleasePage(k: Key)
      requires Valid() && 0 !in threads
      modifies this`pins, pages
      ensures Wf(old(Abs())) && Linked() && Abs() == Released(old(Abs()), k)
      ensures old(MayRelease(k)) ==> Valid() && Value() == Do(old(Value()), PutPage(k))
    {
      hide Ready, Inv, Base, Wf, Complete, Kept, PageCacheModel.Find, Do;
      ghost var s, c := Value(), PutPage(k);
      Facts();
      StartIs(s, c);
      BeginDo(s, c);
      Stop(Step(s, 0, Start(c)), true);
      FindOk(Abs(), k);
      if k in s.pins { HolderLive(s, k); }
      var x := HashFind(k);
      if x < 0 { return; }
      if pages[x].pin == 0 { return; }
      SetPage(x, pages[x].(pin := pages[x].pin - 1));
      if k in pins { pins := Fewer(pins, k); }
    }

    /** _writeback_pinned on one page that pc_flush_dev meets. */
    method FlushPage(dev: u32, i: nat, invalidate: bool)
      requires Linked() && 0 !in threads && i < pages.Length == POOL
      requires pages[i].valid && pages[i].dirty && pages[i].key.dev == dev
        && Ready(FlushScan(Value(), 0, dev, i, invalidate))
      modifies this`store, this`threads, pages
      ensures Linked() && 0 !in threads && Ready(FlushScan(Value(), 0, dev, i + 1, invalidate))
      ensures Complete(FlushScan(Value(), 0, dev, i + 1, invalidate), true) ==
        Complete(FlushScan(old(Value()), 0, dev, i, invalidate), true)
    {
      hide Ready, Inv, Base, Wf, Complete, FlushScan, FlushFlags;
      ScanFrom(Value(), dev, i, invalidate);
      SetPage(i, pages[i].(pin := pages[i].pin + 1));
      threads := threads[0 := WbStart(i, FlushFrom(dev, i + 1, invalidate))];
      WritebackPinned(i, FlushFrom(dev, i + 1, invalidate));
      FinishFlush(dev, i, invalidate);
    }

    method FinishFlush(dev: u32, i: nat, invalidate: bool)
      requires Valid() && 0 in threads && threads[0] == WbEnd(i, FlushFrom(dev, i + 1, invalidate))
      modifies this`threads, pages
      ensures Linked() && 0 !in threads && Ready(FlushScan(Value(), 0, dev, i + 1, invalidate))
      ensures Complete(FlushScan(Value(), 0, dev, i + 1, invalidate), true) == Complete(old(Value()), true)
    {
      hide Ready, Inv, Base, Wf, Complete, FlushScan;
      Facts();
      Unpinning(Value(), i, FlushFrom(dev, i + 1, invalidate));
      SetPage(i, pages[i].(pin := pages[i].pin - 1));
      ScanIgnoresSelf(Value(), dev, i + 1, invalidate);
      threads := threads - {0};
    }

    /** The loop of pc_flush_dev. With `invalidate` the caller goes on to remove the pages. */
    method FlushPages(dev: u32, invalidate: bool)
      requires Linked() && 0 !in threads && pages.Length == POOL && Ready(FlushScan(Value(), 0, dev, 0, invalidate))
      modifies this`store, this`threads, pages
      ensures Valid() && if invalidate then 0 in threads && threads[0] == Dropping(dev, 0) else 0 !in threads
      ensures Complete(Value(), true) == Complete(FlushScan(old(Value()), 0, dev, 0, invalidate), true)
    {
      hide Ready, Inv, Base, Wf, Complete, FlushScan, FlushFlags, ReserveStep, FillStep, PublishStep, ReturnStep,
        DiscardStep, SettleStep, WbIoStep, WbLoadStep, WbCleanStep, DropStep;
      ghost var goal := Complete(FlushScan(Value(), 0, dev, 0, invalidate), true);
      var i := 0;
      while i < POOL
        invariant 0 <= i <= POOL && Linked() && 0 !in threads
        invariant Ready(FlushScan(Value(), 0, dev, i, invalidate))
        invariant Complete(FlushScan(Value(), 0, dev, i, invalidate), true) == goal
      {
        if pages[i].valid && pages[i].dirty && pages[i].key.dev == dev {
          FlushPage(dev, i, invalidate);
        } else {
          ScanFrom(Value(), dev, i, invalidate);
        }
        i := i + 1;
      }
      ScanEnd(Value(), dev, invalidate);
      assert threads - {0} == threads;
      if invalidate { threads := threads[0 := Dropping(dev, 0)]; }
    }

    /** pc_flush_dev */
    method Flush(dev: u32)
      requires Valid() && 0 !in threads
      modifies this`store, this`threads, pages
      ensures Valid() && 0 !in threads && Value() == Do(old(Value()), FlushDev(dev))
    {
      hide Ready, Inv, Base, Wf, Complete, Do, Step, Start, LookupStep, PutStep, PokeStep, MarkStep, FlushScan,
        InvalidateStep;
      Facts();
      StartIs(Value(), FlushDev(dev));
      BeginDo(Value(), FlushDev(dev));
      FlushPages(dev, false);
      Stop(Value(), true);
    }

    /** pc_invalidate_block. Its writeback branch is dead: an unpinned page is clean. */
    method Invalidate(k: Key)
      requires Valid() && 0 !in threads
      modifies pages, hash, hash.heads, hash.next, lru, lru.prev, lru.next
      ensures Valid() && Value() == Do(old(Value()), InvalidateBlock(k))
    {
      hide Ready, Inv, Base, Wf, Complete, Kept, PageCacheModel.Find, Do, Step, Start, LookupStep, PutStep, PokeStep,
        MarkStep, FlushScan, Remove;
      ghost var s, c := Value(), InvalidateBlock(k);
      Facts();
      StartIs(s, c);
      BeginDo(s, c);
      FindOk(Abs(), k);
      var x := HashFind(k);
      if x < 0 { Stop(s, true); return; }
      DirtyPinned(s, x);
      LiveListed(Abs(), x);
      if pages[x].pin > 0 { Stop(s, true); return; }
      if pages[x].dirty { assert false; }
      Detach(x, None);
      Stop(Value(), true);
    }

    /** The removal of one page by pc_invalidate_dev. */
    method DropPage(dev: u32, i: nat)
      requires Linked() && Wf(Abs()) && 0 !in threads && i < pages.Length == POOL
      requires pages[i].valid && pages[i].key.dev == dev && pages[i].pin <= 0 && Ready(DropStep(Value(), 0, dev, i))
      modifies this`threads, pages, hash, hash.heads, hash.next, lru, lru.prev, lru.next
      ensures Linked() && Wf(Abs()) && Sizes(Abs()) && 0 !in threads && Ready(DropStep(Value(), 0, dev, i + 1))
      ensures Complete(DropStep(Value(), 0, dev, i + 1), true) == Complete(DropStep(old(Value()), 0, dev, i), true)
    {
      hide Ready, Inv, Base, Wf, Complete, DropStep, DropFlags, Drop, ReserveStep, FillStep, PublishStep, ReturnStep,
        DiscardStep, SettleStep, WbIoStep, WbLoadStep, WbCleanStep, WbFinishStep;
      DropFrom(Value(), dev, i);
      Dropped(Abs(), i);
      LiveListed(Abs(), i);
      Detach(i, None);
      threads := threads[0 := Dropping(dev, i + 1)];
      Onward(Value(), true);
      DropIgnoresSelf(Value(), dev, i + 1);
      threads := threads - {0};
    }

    /** The removal loop of pc_invalidate_dev. */
    method DropPages(dev: u32)
      requires Valid() && 0 in threads && threads[0] == Dropping(dev, 0)
      modifies this`threads, pages, hash, hash.heads, hash.next, lru, lru.prev, lru.next
      ensures Valid() && 0 !in threads && Value() == Complete(old(Value()), true)
    {
      hide Ready, Inv, Base, Wf, Complete, DropStep, DropFlags, Drop, ReserveStep, FillStep, PublishStep, ReturnStep,
        DiscardStep, SettleStep, WbIoStep, WbLoadStep, WbCleanStep, WbFinishStep;
      ghost var goal := Complete(Value(), true);
      Facts();
      Onward(Value(), true);
      DropIgnoresSelf(Value(), dev, 0);
      threads := threads - {0};
      var i := 0;
      while i < POOL
        invariant 0 <= i <= POOL && Linked() && Wf(Abs()) && Sizes(Abs()) && 0 !in threads
        invariant Ready(DropStep(Value(), 0, dev, i))
        invariant Complete(DropStep(Value(), 0, dev, i), true) == goal
      {
        if pages[i].valid && pages[i].key.dev == dev && pages[i].pin <= 0 {
          DropPage(dev, i);
        } else {
          DropFrom(Value(), dev, i);
        }
        i := i + 1;
      }
      DropEnd(Value(), dev);
      assert threads - {0} == threads;
      Stop(Value(), true);
    }

    /** pc_invalidate_dev */
    method InvalidateAll(dev: u32)
      requires Valid() && 0 !in threads
      modifies this`store, this`threads, pages, hash, hash.heads, hash.next, lru, lru.prev, lru.next
      ensures Valid() && 0 !in threads && Value() == Do(old(Value()), InvalidateDev(dev))
    {
      hide Ready, Inv, Base, Wf, Complete, Do, Step, Start, LookupStep, PutStep, PokeStep, MarkStep, FlushScan,
        InvalidateStep;
      Facts();
      StartIs(Value(), InvalidateDev(dev));
      BeginDo(Value(), InvalidateDev(dev));
      FlushPages(dev, true);
      DropPages(dev);
    }
  }

  // ---------------------------------------------------------------- unrolling a call

  lemma BeginDo(s: Sys, c: Call)
    requires Ready(s) && (c.Get? ==> Calm(s.threads, 0))
    ensures Base(s) && Ready(Step(s, 0, Start(c)))
      && Do(s, c) == Complete(Step(s, 0, Start(c)), if c.Get? then c.kallocOk else true)
  { hide Ready, Complete, Step; ReadyNext(s, Start(c)); }

  lemma Stop(s: Sys, ok: bool)
    requires Ready(s) && 0 !in s.threads
    ensures Complete(s, ok) == s
  { hide Ready; }

  lemma Onward(s: Sys, ok: bool)
    requires Ready(s) && 0 in s.threads
    ensures Wf(s.cache) && Sizes(s.cache) && ThreadOk(s.cache, s.threads[0])
    ensures var s' := match s.threads[0]
        case Missed(k, size) => ReserveStep(s, 0, k, size)
        case Filling(x, k, size) => FillStep(s, 0, x, k, size, ok)
        case NoMem(x) => ReturnStep(s, 0, x)
        case Filled(x, k, size) => PublishStep(s, 0, x, k)
        case Lost(x) => DiscardStep(s, 0, x)
        case Half(x) => SettleStep(s, 0, x)
        case WbStart(x, cont) => WbIoStep(s, 0, x, cont)
        case WbClear(x, cont) => WbLoadStep(s, 0, x, cont)
        case WbStore(x, cont, used, valid) => WbCleanStep(s, 0, x, cont, used, valid)
        case WbEnd(x, cont) => WbFinishStep(s, 0, x, cont)
        case Dropping(dev, i) => DropStep(s, 0, dev, i);
      Ready(s') && Complete(s, ok) == Complete(s', ok)
  {
    hide Ready, Inv, Base, Wf, ReserveStep, FillStep, PublishStep, ReturnStep, DiscardStep, SettleStep, WbIoStep,
      WbLoadStep,
      WbCleanStep, WbFinishStep, DropStep, Step, Next;
    NextIs(s, ok);
    NextInside(s.threads[0], ok);
    ReadyNext(s, Next(s.threads[0], ok));
  }

  lemma ReserveGoesOn(s: Sys, k: Key, size: u32)
    requires Ready(s) && 0 in s.threads && s.threads[0] == Missed(k, size)
    ensures Wf(s.cache) && Ready(ReserveStep(s, 0, k, size))
  {
    hide *;
    Onward(s, true);
  }

  lemma FillGoesOn(s: Sys, x: nat, k: Key, size: u32, ok: bool)
    requires Ready(s) && 0 in s.threads && s.threads[0] == Filling(x, k, size)
    ensures x < |s.cache.pool| && Ready(FillStep(s, 0, x, k, size, ok))
  {
    hide Ready, Wf, Complete, FillStep, ThreadOk;
    Onward(s, ok);
    FillingPage(s, x, k, size);
  }

  lemma PublishGoesOn(s: Sys, x: nat, k: Key, size: u32)
    requires Ready(s) && 0 in s.threads && s.threads[0] == Filled(x, k, size)
    ensures Wf(s.cache) && x < POOL && Ready(PublishStep(s, 0, x, k))
  {
    hide Ready, Wf, Complete, PublishStep, ThreadOk;
    Onward(s, true);
    FilledPage0(s, x, k, size);
  }

  lemma Looked(s: Sys, k: Key, size: u32)
    requires Ready(s) && 0 !in s.threads && Calm(s.threads, 0)
    ensures Wf(s.cache) && Ready(LookupStep(s, 0, k, size))
  {
    hide Ready, Step, LookupStep, PutStep, PokeStep, MarkStep, FlushScan, InvalidateStep;
    StartIs(s, Get(k, size, true));
    ReadyNext(s, PageCacheSteps.Lookup(k, size));
  }

  lemma Lose(s: Sys, x: nat)
    requires Ready(s) && 0 in s.threads && s.threads[0] == Lost(x)
    ensures x < |s.cache.pool| == |DiscardStep(s, 0, x).cache.pool| && Ready(SettleStep(DiscardStep(s, 0, x), 0, x))
    ensures forall ok :: Complete(SettleStep(DiscardStep(s, 0, x), 0, x), ok) == Complete(s, ok)
  {
    hide Ready, Complete, Wf;
    Onward(s, true);
    Onward(DiscardStep(s, 0, x), true);
    forall ok ensures Complete(SettleStep(DiscardStep(s, 0, x), 0, x), ok) == Complete(s, ok) {
      Onward(s, ok);
      Onward(DiscardStep(s, 0, x), ok);
    }
  }

  /** The unlocked steps of a writeback together: the page is written if it is dirty, and clean. */
  lemma WritesBack(s: Sys, x: nat, cont: Cont)
    requires Ready(s) && 0 in s.threads && s.threads[0] == WbStart(x, cont)
    ensures x < |s.cache.pool|
    ensures var p := s.cache.pool[x];
      var s' := s.(cache := if p.dirty then Set(s.cache, x, p.(dirty := false)) else s.cache,
                   store := if p.dirty then WritebackStore(s.store, p) else s.store,
                   threads := s.threads[0 := WbEnd(x, cont)]);
      Ready(s') && Complete(s, true) == Complete(s', true)
  {
    hide Ready, Wf, Complete, WritebackStore;
    InvParts(s);
    Onward(s, true);
    var p := s.cache.pool[x];
    if p.dirty {
      LiveUsed(s, x);
      var s2 := WbIoStep(s, 0, x, cont);
      Onward(s2, true);
      var s3 := WbLoadStep(s2, 0, x, cont);
      Onward(s3, true);
      assert WbCleanStep(s3, 0, x, cont, true, true).threads == s.threads[0 := WbEnd(x, cont)];
    }
  }

  lemma Unpinning(s: Sys, x: nat, cont: Cont)
    requires Ready(s) && 0 in s.threads && s.threads[0] == WbEnd(x, cont)
    ensures Wf(s.cache) && Sizes(s.cache) && x < POOL
    ensures Ready(WbFinishStep(s, 0, x, cont)) && Complete(s, true) == Complete(WbFinishStep(s, 0, x, cont), true)
  {
    hide Ready, Inv, Base, Wf, Complete, ReserveStep, FillStep, PublishStep, ReturnStep, DiscardStep, SettleStep,
      WbIoStep, WbLoadStep, WbCleanStep, WbFinishStep, DropStep;
    Onward(s, true);
  }

  lemma LookupOutcome(s: Sys, k: Key, size: u32)
    requires Ready(s) && 0 !in s.threads
    ensures Wf(s.cache)
    ensures var s' := LookupStep(s, 0, k, size);
      if PageCacheModel.Find(s.cache, k).Some? then 0 !in s'.threads else
        0 in s'.threads
        && s'.threads[0] == Missed(k, size)
  { hide PageCacheModel.Find, Touch; InvParts(s); FindOk(s.cache, k); }

  lemma FillingPage(s: Sys, x: nat, k: Key, size: u32)
    requires Ready(s) && 0 in s.threads && s.threads[0] == Filling(x, k, size)
    ensures x < |s.cache.pool| && s.cache.pool[x].key == k && s.cache.pool[x].size == size
  { hide Wf; assert ThreadOk(s.cache, s.threads[0]); }

  lemma FilledPage0(s: Sys, x: nat, k: Key, size: u32)
    requires Ready(s) && 0 in s.threads && s.threads[0] == Filled(x, k, size)
    ensures x < |s.cache.pool| == POOL && s.cache.pool[x].key == k && !Live(s.cache, x) && |s.cache.chains| == BUCKETS
    ensures forall b: nat | b < BUCKETS :: x !in s.cache.chains[b]
  {
    assert ThreadOk(s.cache, s.threads[0]);
    forall b: nat | b < BUCKETS ensures x !in s.cache.chains[b] { assert ChainOk(s.cache, b); }
  }

  lemma VictimFacts(c: Cache, x: nat)
    requires Wf(c) && PickVictim(c) == Some(x)
    ensures x in c.lru && Sizes(c) && x < POOL == |c.pool|
    ensures Sizes(Set(c, x, c.pool[x].(dirty := false)))
    ensures Set(Remove(Set(c, x, c.pool[x].(dirty := false)), x), x, Freed(c.pool[x])) == Remove(c, x)
  {
    PickVictimOk(c);
    assert Live(c, x);
  }

  // ---------------------------------------------------------------- the scanning loops

  lemma ScanFrom(s: Sys, dev: u32, i: nat, inv: bool)
    requires i < |s.cache.pool|
    ensures var p := s.cache.pool[i];
      FlushScan(s, 0, dev, i, inv) ==
      if p.valid && p.dirty && p.key.dev == dev
      then Goto(s.(cache := Pinned(s.cache, i)), 0, WbStart(i, FlushFrom(dev, i + 1, inv)))
      else FlushScan(s, 0, dev, i + 1, inv)
  {
    var f := FlushFlags(s.cache, dev, i);
    if f[i] { assert First(f) == Some(i); } else { assert f == FlushFlags(s.cache, dev, i + 1); }
  }

  lemma ScanEnd(s: Sys, dev: u32, inv: bool)
    requires |s.cache.pool| == POOL
    ensures FlushScan(s, 0, dev, POOL, inv) == if inv then Goto(s, 0, Dropping(dev, 0)) else Done(s, 0)
  { assert First(FlushFlags(s.cache, dev, POOL)) == None; }

  lemma GotoDone(s: Sys, c: Cache, pc: Pc)
    ensures Goto(Done(s, 0).(cache := c), 0, pc) == Goto(s.(cache := c), 0, pc) && Done(Done(s, 0), 0) == Done(s, 0)
  {
    assert (s.threads - {0})[0 := pc] == s.threads[0 := pc];
    assert s.threads - {0} - {0} == s.threads - {0};
  }

  lemma ScanIgnoresSelf(s: Sys, dev: u32, i: nat, inv: bool)
    ensures FlushScan(s, 0, dev, i, inv) == FlushScan(Done(s, 0), 0, dev, i, inv)
  {
    match First(FlushFlags(s.cache, dev, i))
    case Some(j) => GotoDone(s, Pinned(s.cache, j), WbStart(j, FlushFrom(dev, j + 1, inv)));
    case None => GotoDone(s, s.cache, Dropping(dev, 0));
  }

  lemma DropFrom(s: Sys, dev: u32, i: nat)
    requires Wf(s.cache) && i < |s.cache.pool| == POOL
    ensures Sizes(s.cache)
    ensures var p := s.cache.pool[i];
      DropStep(s, 0, dev, i) ==
      if p.valid && p.key.dev == dev && p.pin <= 0
      then Goto(s.(cache := Drop(s.cache, i)), 0, Dropping(dev, i + 1))
      else DropStep(s, 0, dev, i + 1)
  {
    hide Drop, Without, LruOk, ChainOk, KeysUnique;
    var f := DropFlags(s.cache, dev, i);
    if f[i] { assert First(f) == Some(i); } else { assert f == DropFlags(s.cache, dev, i + 1); }
  }

  lemma DropEnd(s: Sys, dev: u32)
    requires Wf(s.cache) && |s.cache.pool| == POOL
    ensures DropStep(s, 0, dev, POOL) == Done(s, 0)
  { assert First(DropFlags(s.cache, dev, POOL)) == None; }

  lemma DropIgnoresSelf(s: Sys, dev: u32, i: nat)
    requires Wf(s.cache)
    ensures DropStep(s, 0, dev, i) == DropStep(Done(s, 0), 0, dev, i)
  {
    hide Drop;
    match First(DropFlags(s.cache, dev, i))
    case Some(j) => GotoDone(s, Drop(s.cache, j), Dropping(dev, j + 1));
    case None => GotoDone(s, s.cache, Dropping(dev, 0));
  }

  lemma Dropped(c: Cache, x: nat)
    requires Sizes(c) && x < POOL
    ensures Drop(c, x) == Set(Remove(c, x), x, Freed(c.pool[x]).(data := None))
  {}

  lemma LiveListed(c: Cache, x: nat)
    requires Wf(c) && Live(c, x)
    ensures x in c.lru && Sizes(c) && x < POOL == |c.pool|
  { assert LruOk(c); }

  // ---------------------------------------------------------------- what invalidation leaves

  /** A complete pc_invalidate_block removes the block, unless it is pinned; then nothing changes. */
  lemma InvalidateRemoves(s: Sys, k: Key)
    requires Ready(s) && 0 !in s.threads
    ensures var s' := Do(s, InvalidateBlock(k));
      if k in s.pins || exists x: nat :: Live(s.cache, x) && s.cache.pool[x].key == k && s.cache.pool[x].pin > 0
      then s' == s
      else Wf(s'.cache) && Find(s'.cache, k) == None && s'.store == s.store
  {
    hide Ready, Inv, Base, Wf, Complete, PageCacheModel.Find, Do, Step, Start, LookupStep, PutStep, PokeStep, MarkStep,
      FlushScan, Drop;
    var c := InvalidateBlock(k);
    InvParts(s);
    StartIs(s, c);
    BeginDo(s, c);
    FindOk(s.cache, k);
    if k in s.pins { HolderLive(s, k); }
    match PageCacheModel.Find(s.cache, k) {
      case None => Stop(s, true);
      case Some(x) =>
        DirtyPinned(s, x);
        OneHolder(s, k, x);
        if s.cache.pool[x].pin <= 0 { DropKeepsWf(s.cache, x); DropGone(s.cache, k, x); }
        Stop(InvalidateStep(s, 0, k), true);
    }
  }

  lemma OneHolder(s: Sys, k: Key, x: nat)
    requires Ready(s) && Live(s.cache, x) && s.cache.pool[x].key == k
    ensures forall y: nat | Live(s.cache, y) && s.cache.pool[y].key == k :: y == x
  { assert KeysUnique(s.cache); }

  lemma DropGone(c: Cache, k: Key, x: nat)
    requires Wf(c) && Live(c, x) && c.pool[x].key == k && Sizes(c)
    ensures Wf(Drop(c, x)) && PageCacheModel.Find(Drop(c, x), k) == None
  {
    hide Wf, PageCacheModel.Find;
    DropKeepsWf(c, x);
    FindOk(Drop(c, x), k);
    assert KeysUnique(c) by { UniqueKeys(c); }
    forall y: nat | Live(Drop(c, x), y) ensures Drop(c, x).pool[y].key != k { assert Drop(c, x).pool[y] == c.pool[y]; }
  }

  lemma UniqueKeys(c: Cache)
    requires Wf(c)
    ensures KeysUnique(c)
  {}

  /** No unpinned page of the device is left below slot i. */
  ghost predicate Swept(c: Cache, dev: u32, i: nat) {
    forall x: nat | x < i && Live(c, x) && c.pool[x].key.dev == dev :: c.pool[x].pin > 0
  }

  lemma {:induction false} DropsSweep(s: Sys, dev: u32, i: nat)
    requires Wf(s.cache) && i <= |s.cache.pool| == POOL && 0 !in s.threads && Ready(DropStep(s, 0, dev, i))
      && Swept(s.cache, dev, i)
    ensures Swept(Complete(DropStep(s, 0, dev, i), true).cache, dev, POOL)
    decreases POOL - i
  {
    hide Ready, Inv, Base, Wf, Complete, DropStep, Drop, ReserveStep, FillStep, PublishStep, ReturnStep, DiscardStep,
      SettleStep, WbIoStep, WbLoadStep, WbCleanStep, WbFinishStep;
    if i == POOL {
      DropEnd(s, dev);
      assert Done(s, 0) == s;
      Stop(s, true);
    } else {
      DropFrom(s, dev, i);
      var p := s.cache.pool[i];
      if p.valid && p.key.dev == dev && p.pin <= 0 {
        var s1 := Goto(s.(cache := Drop(s.cache, i)), 0, Dropping(dev, i + 1));
        Onward(s1, true);
        DropIgnoresSelf(s1, dev, i + 1);
        DropSweeps(s.cache, dev, i);
        DropsSweep(Done(s1, 0), dev, i + 1);
      } else {
        DropsSweep(s, dev, i + 1);
      }
    }
  }

  lemma DropSweeps(c: Cache, dev: u32, i: nat)
    requires Wf(c) && Sizes(c) && i < POOL && Live(c, i) && Swept(c, dev, i)
    ensures |Drop(c, i).pool| == POOL && Swept(Drop(c, i), dev, i + 1)
  {
    hide Wf;
    DropKeepsWf(c, i);
    forall x: nat | x < i + 1 && Live(Drop(c, i), x)
      && Drop(c, i).pool[x].key.dev == dev ensures Drop(c, i).pool[x].pin > 0 {
      assert x != i && Drop(c, i).pool[x] == c.pool[x];
    }
  }

  /** A complete pc_invalidate_dev with no other thread at work leaves no unpinned page of the
      device. */
  lemma InvalidateDevSweeps(s: Sys, dev: u32)
    requires Ready(s) && s.threads == map[]
    ensures Swept(Do(s, InvalidateDev(dev)).cache, dev, POOL)
  {
    hide Ready, Inv, Base, Wf, Complete, Do, Step, Start, LookupStep, PutStep, PokeStep, MarkStep, InvalidateStep,
      DropStep, ReserveStep, FillStep, PublishStep, ReturnStep, DiscardStep, SettleStep, WbIoStep, WbLoadStep,
        WbCleanStep,
      WbFinishStep;
    var c := InvalidateDev(dev);
    InvParts(s);
    StartIs(s, c);
    BeginDo(s, c);
    CleanScan(s, dev, true);
    var s1 := Goto(s, 0, Dropping(dev, 0));
    Onward(s1, true);
    DropIgnoresSelf(s1, dev, 0);
    assert Done(s1, 0) == s;
    DropsSweep(s, dev, 0);
  }
}
