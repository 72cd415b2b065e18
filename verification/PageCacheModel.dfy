/** The page cache as a value: the pool of page descriptors, the hash chains and the LRU
    list, with one function for every section of pagecache.c that runs under the lock. */
module PageCacheModel {
  import opened Common
  import B = BlkDev

  const POOL: nat := 256
  const BUCKETS: nat := 64
  const MAX_BLOCK: nat := 4096

  datatype Key = Key(dev: u32, block: u32)

  /** A block buffer, seen as its 512-byte sectors. */
  type Block = seq<B.Sector>

  datatype Page = Page(key: Key, size: nat, used: bool, valid: bool, dirty: bool, pin: int, data: Option<Block>)

  const BLANK := Page(Key(0, 0), 0, false, false, false, 0, None)

  /** `chains[b]` is the bucket's chain from its head; `lru` runs from head to tail. */
  datatype Cache = Cache(pool: seq<Page>, chains: seq<seq<nat>>, lru: seq<nat>)

  function Hash(k: Key): nat {
    var h := (k.dev as bv32) ^ (k.block as bv32);
    var h1 := h ^ (h >> 16);
    var h2 := h1 * 0x45d9f3b;
    var h3 := h2 ^ (h2 >> 16);
    (h3 as int) % BUCKETS
  }

  // ---------------------------------------------------------------- the device store

  datatype Store = Store(table: B.Table, media: map<B.Loc, B.Sector>)

  function ZeroSector(): B.Sector { seq(512, _ => 0) }

  function ById(st: Store, id: u32): Option<nat> {
    if id < B.SLOTS && id < |st.table.used| && st.table.used[id] then Some(id) else None
  }

  /** The device pc_get_page reads from: the named one, or the boot disk when it is not registered. */
  function Target(st: Store, id: u32): Option<nat> {
    if ById(st, id).Some? then ById(st, id) else st.table.boot
  }

  function SectorAt(st: Store, dev: Option<nat>, lba: nat): B.Sector {
    if dev.Some? then
      match B.Locate(st.table, dev.value, lba)
      case Some(l) => B.Fetch(st.media, l)
      case None => ZeroSector()
    else ZeroSector()
  }

  function ReadBlock(st: Store, dev: Option<nat>, lba: nat, n: nat): (b: Block)
    ensures |b| == n
  { seq(n, i requires 0 <= i < n => SectorAt(st, dev, (lba + i) % TWO32)) }

  function WriteSector(st: Store, dev: nat, lba: u32, s: B.Sector): Store {
    match B.Locate(st.table, dev, lba)
    case Some(l) => st.(media := st.media[l := s])
    case None => st
  }

  function WriteBlock(st: Store, dev: nat, lba: nat, b: Block): (r: Store)
    ensures r.table == st.table
    decreases |b|
  {
    if b == [] then st
    else
      var n := |b| - 1;
      WriteSector(WriteBlock(st, dev, lba, b[..n]), dev, (lba + n) % TWO32, b[n])
  }

  function Spb(size: nat): nat { size / 512 }

  /** The disk traffic of _writeback for a dirty page. */
  function WritebackStore(st: Store, p: Page): (r: Store)
    ensures r.table == st.table
  {
    match ById(st, p.key.dev)
    case None => st
    case Some(d) =>
      if p.data.None? then st
      else
        var spb := if Spb(p.size) <= |p.data.value| then Spb(p.size) else |p.data.value|;
        WriteBlock(st, d, p.key.block * Spb(p.size) % TWO32, p.data.value[..spb])
  }

  // ---------------------------------------------------------------- well-formed caches

  ghost predicate PageOk(p: Page) {
    && (p.valid ==> p.used && p.data.Some?)
    && (p.dirty ==> p.valid)
  }

  ghost predicate Sizes(c: Cache) {
    && |c.pool| == POOL && |c.chains| == BUCKETS
    && forall x: nat | x < POOL :: PageOk(c.pool[x])
  }

  ghost predicate Live(c: Cache, x: nat) { x < |c.pool| && c.pool[x].valid }

  ghost predicate LruOk(c: Cache) {
    NoDup(c.lru) && forall x: nat :: x in c.lru <==> Live(c, x)
  }

  ghost predicate ChainOk(c: Cache, b: nat)
    requires b < |c.chains|
  {
    && NoDup(c.chains[b])
    && forall x: nat :: x in c.chains[b] <==> Live(c, x) && Hash(c.pool[x].key) == b
  }

  ghost predicate KeysUnique(c: Cache) {
    forall x: nat, y: nat | Live(c, x) && Live(c, y) && c.pool[x].key == c.pool[y].key :: x == y
  }

  /** The three views of the pool agree: the hashed slots, the LRU slots and the VALID slots
      are the same set, each once and in its own bucket, and no two hold the same block. */
  ghost predicate Wf(c: Cache) {
    && Sizes(c) && LruOk(c) && KeysUnique(c)
    && forall b: nat | b < BUCKETS :: ChainOk(c, b)
  }

  function Empty(): Cache {
    Cache(seq(POOL, _ => BLANK), seq(BUCKETS, _ => []), [])
  }

  lemma EmptyWf() ensures Wf(Empty()) {}

  // ---------------------------------------------------------------- list primitives

  /** Drop the first occurrence of x. */
  function Without(s: seq<nat>, x: nat): seq<nat> {
    if s == [] then [] else if s[0] == x then s[1..] else [s[0]] + Without(s[1..], x)
  }

  lemma {:induction false} WithoutOk(s: seq<nat>, x: nat)
    requires NoDup(s)
    ensures NoDup(Without(s, x))
    ensures forall y: nat :: y in Without(s, x) <==> y in s && y != x
  {
    if s != [] {
      assert NoDup(s[1..]);
      if s[0] != x {
        WithoutOk(s[1..], x);
        var r := Without(s[1..], x);
        forall i, j | 0 <= i < j < |r| + 1 ensures ([s[0]] + r)[i] != ([s[0]] + r)[j] {
          if i == 0 { assert r[j - 1] in r; assert r[j - 1] in s[1..]; }
        }
        assert forall y: nat :: y in s <==> y == s[0] || y in s[1..];
      } else {
        assert forall y: nat :: y in s <==> y == s[0] || y in s[1..];
        assert x !in s[1..];
      }
    }
  }

  function FindIn(pool: seq<Page>, chain: seq<nat>, k: Key): Option<nat>
    requires forall i | 0 <= i < |chain| :: chain[i] < |pool|
  {
    if chain == [] then None
    else if pool[chain[0]].key == k then Some(chain[0])
    else FindIn(pool, chain[1..], k)
  }

  lemma ChainBound(c: Cache, b: nat)
    requires Wf(c) && b < BUCKETS
    ensures forall i | 0 <= i < |c.chains[b]| :: c.chains[b][i] < POOL
  {
    assert ChainOk(c, b);
    forall i | 0 <= i < |c.chains[b]| ensures c.chains[b][i] < POOL { assert c.chains[b][i] in c.chains[b]; }
  }

  function Find(c: Cache, k: Key): Option<nat>
    requires Wf(c)
  {
    ChainBound(c, Hash(k));
    FindIn(c.pool, c.chains[Hash(k)], k)
  }

  lemma {:induction false} FindInOk(pool: seq<Page>, chain: seq<nat>, k: Key)
    requires forall i | 0 <= i < |chain| :: chain[i] < |pool|
    ensures match FindIn(pool, chain, k)
            case Some(x) => x in chain && pool[x].key == k
            case None => forall x | x in chain :: pool[x].key != k
  {
    if chain != [] && pool[chain[0]].key != k { FindInOk(pool, chain[1..], k); }
  }

  /** A lookup answers exactly: the live slot that holds the block, if there is one. */
  lemma FindOk(c: Cache, k: Key)
    requires Wf(c)
    ensures match Find(c, k)
            case Some(x) => Live(c, x) && c.pool[x].key == k
            case None => forall x: nat | Live(c, x) :: c.pool[x].key != k
  {
    ChainBound(c, Hash(k));
    assert ChainOk(c, Hash(k));
    FindInOk(c.pool, c.chains[Hash(k)], k);
  }

  function Set(c: Cache, x: nat, p: Page): Cache
    requires x < |c.pool|
  { c.(pool := c.pool[x := p]) }

  function Touch(c: Cache, x: nat): Cache {
    c.(lru := [x] + Without(c.lru, x))
  }

  function Freed(p: Page): Page { p.(used := false, valid := false, dirty := false, pin := 0) }

  /** _lru_remove, _hash_remove, then flags and pin count cleared. */
  function Remove(c: Cache, x: nat): Cache
    requires Sizes(c) && x < POOL
  {
    var b := Hash(c.pool[x].key);
    Cache(c.pool[x := Freed(c.pool[x])], c.chains[b := Without(c.chains[b], x)], Without(c.lru, x))
  }

  /** The VALID flag, _hash_insert and _lru_touch of a page that is in no list. */
  function Insert(c: Cache, x: nat): Cache
    requires Sizes(c) && x < POOL
  {
    var b := Hash(c.pool[x].key);
    Cache(c.pool[x := c.pool[x].(valid := true)], c.chains[b := [x] + c.chains[b]], [x] + Without(c.lru, x))
  }

  // ---------------------------------------------------------------- what keeps Wf

  lemma SetKeepsWf(c: Cache, x: nat, p: Page)
    requires Wf(c) && x < POOL && PageOk(p)
    requires p.valid == c.pool[x].valid && (p.valid ==> p.key == c.pool[x].key)
    ensures Wf(Set(c, x, p))
  {
    var c' := Set(c, x, p);
    assert forall y: nat :: Live(c', y) == Live(c, y);
    forall b: nat | b < BUCKETS ensures ChainOk(c', b) { assert ChainOk(c, b); }
  }

  lemma TouchKeepsWf(c: Cache, x: nat)
    requires Wf(c) && Live(c, x)
    ensures Wf(Touch(c, x))
  {
    var c' := Touch(c, x);
    WithoutOk(c.lru, x);
    assert forall y: nat :: Live(c', y) == Live(c, y);
    forall b: nat | b < BUCKETS ensures ChainOk(c', b) { assert ChainOk(c, b); }
  }

  lemma RemoveKeepsWf(c: Cache, x: nat)
    requires Wf(c) && Live(c, x)
    ensures Wf(Remove(c, x))
    ensures forall y: nat :: Live(Remove(c, x), y) <==> Live(c, y) && y != x
  {
    var c' := Remove(c, x);
    var h := Hash(c.pool[x].key);
    WithoutOk(c.lru, x);
    assert ChainOk(c, h);
    WithoutOk(c.chains[h], x);
    assert forall y: nat :: Live(c', y) <==> Live(c, y) && y != x;
    forall b: nat | b < BUCKETS ensures ChainOk(c', b) { assert ChainOk(c, b); }
  }

  lemma InsertKeepsWf(c: Cache, x: nat)
    requires Wf(c) && x < POOL && c.pool[x].used && !c.pool[x].valid && c.pool[x].data.Some?
    requires forall y: nat | Live(c, y) :: c.pool[y].key != c.pool[x].key
    ensures Wf(Insert(c, x))
    ensures forall y: nat :: Live(Insert(c, x), y) <==> Live(c, y) || y == x
  {
    hide ChainOk, Without;
    var c' := Insert(c, x);
    WithoutOk(c.lru, x);
    assert forall y: nat :: Live(c', y) <==> Live(c, y) || y == x;
    forall b: nat | b < BUCKETS ensures ChainOk(c', b) { InsertChain(c, x, b); }
  }

  lemma InsertChain(c: Cache, x: nat, b: nat)
    requires Sizes(c) && x < POOL && !Live(c, x) && b < BUCKETS && ChainOk(c, b)
    ensures ChainOk(Insert(c, x), b)
  {
    hide Without, Hash;
    var c' := Insert(c, x);
    assert x !in c.chains[b];
    assert forall y: nat :: Live(c', y) <==> Live(c, y) || y == x;
  }

  // ---------------------------------------------------------------- allocation

  /** The least recently used slot that is not pinned, searching from the tail. */
  function Victim(pool: seq<Page>, lru: seq<nat>): Option<nat>
    requires forall i | 0 <= i < |lru| :: lru[i] < |pool|
  {
    if lru == [] then None
    else
      var n := |lru| - 1;
      if pool[lru[n]].pin == 0 then Some(lru[n]) else Victim(pool, lru[..n])
  }

  lemma {:induction false} VictimOk(pool: seq<Page>, lru: seq<nat>)
    requires forall i | 0 <= i < |lru| :: lru[i] < |pool|
    ensures match Victim(pool, lru)
            case Some(x) => exists i :: 0 <= i < |lru| && lru[i] == x && pool[x].pin == 0
                                        && forall j | i < j < |lru| :: pool[lru[j]].pin != 0
            case None => forall i | 0 <= i < |lru| :: pool[lru[i]].pin != 0
  {
    if lru != [] {
      var n := |lru| - 1;
      if pool[lru[n]].pin != 0 {
        VictimOk(pool, lru[..n]);
        match Victim(pool, lru[..n])
        case None =>
        case Some(x) =>
          var i :| 0 <= i < n && lru[..n][i] == x && pool[x].pin == 0
                   && forall j | i < j < n :: pool[lru[..n][j]].pin != 0;
          assert lru[i] == x;
          forall j | i < j < |lru| ensures pool[lru[j]].pin != 0 { if j < n { assert lru[..n][j] == lru[j]; } }
      } else {
        assert lru[n] == Victim(pool, lru).value;
      }
    }
  }

  lemma LruBound(c: Cache)
    requires Wf(c)
    ensures forall i | 0 <= i < |c.lru| :: c.lru[i] < POOL
  {
    forall i | 0 <= i < |c.lru| ensures c.lru[i] < POOL { assert c.lru[i] in c.lru; }
  }

  function PickVictim(c: Cache): Option<nat>
    requires Wf(c)
  { LruBound(c); Victim(c.pool, c.lru) }

  lemma PickVictimOk(c: Cache)
    requires Wf(c)
    ensures PickVictim(c).Some? ==> Live(c, PickVictim(c).value) && c.pool[PickVictim(c).value].pin == 0
    ensures PickVictim(c).None? ==> forall x: nat | Live(c, x) :: c.pool[x].pin != 0
  {
    LruBound(c);
    VictimOk(c.pool, c.lru);
    if PickVictim(c).None? {
      forall x: nat | Live(c, x) ensures c.pool[x].pin != 0 { assert x in c.lru; }
    } else {
      assert PickVictim(c).value in c.lru;
    }
  }

  function FreeFlags(c: Cache): (f: seq<bool>)
    ensures |f| == |c.pool|
  { seq(|c.pool|, i requires 0 <= i < |c.pool| => !c.pool[i].used) }

  datatype Alloc = Alloc(cache: Cache, store: Store, slot: Option<nat>)

  function EvictOne(c: Cache, st: Store): Alloc
    requires Wf(c)
  {
    match PickVictim(c)
    case None => Alloc(c, st, None)
    case Some(x) =>
      PickVictimOk(c);
      Alloc(Remove(c, x), if c.pool[x].dirty then WritebackStore(st, c.pool[x]) else st, Some(x))
  }

  function AllocPage(c: Cache, st: Store): Alloc
    requires Wf(c)
  {
    match First(FreeFlags(c))
    case Some(x) => Alloc(c, st, Some(x))
    case None => EvictOne(c, st)
  }

  /** An allocated slot is unused and in no list; the cache stays well formed. */
  lemma AllocOk(c: Cache, st: Store)
    requires Wf(c)
    ensures Wf(AllocPage(c, st).cache)
    ensures match AllocPage(c, st).slot
            case None => AllocPage(c, st) == Alloc(c, st, None) && forall x: nat | x < POOL && c.pool[x].valid ::
              c.pool[x].pin != 0
            case Some(x) =>
              var c' := AllocPage(c, st).cache;
              && x < POOL && !c'.pool[x].used
              && c'.pool[x].data == c.pool[x].data
              && (forall y: nat | y < POOL && y != x :: c'.pool[y] == c.pool[y])
              && (|| (c' == c && AllocPage(c, st).store == st)
                  || (&& Live(c, x) && c.pool[x].pin == 0 && c' == Remove(c, x)
                      && AllocPage(c, st).store == if c.pool[x].dirty then WritebackStore(st, c.pool[x]) else st))
  {
    var f := FreeFlags(c);
    match First(f)
    case Some(x) => assert f[x];
    case None =>
      PickVictimOk(c);
      match PickVictim(c)
      case None => forall x: nat | x < POOL && c.pool[x].valid ensures c.pool[x].pin != 0 { assert Live(c, x); }
      case Some(x) => RemoveKeepsWf(c, x);
  }

  // ---------------------------------------------------------------- the pieces of pc_get_page

  /** The parameter and range checks, made with the lock dropped. */
  predicate GetChecks(st: Store, k: Key, size: u32) {
    && size != 0 && size % 512 == 0 && size <= MAX_BLOCK
    && match Target(st, k.dev)
       case None => true
       case Some(d) =>
         d < |st.table.devices| &&
         var spb, max := Spb(size), st.table.devices[d].maxLba;
         && k.block <= 0xFFFF_FFFF / spb
         && k.block * spb <= max && spb <= max - k.block * spb
  }

  /** A fresh slot takes the block's identity, USED and one pin. */
  function Claim(c: Cache, x: nat, k: Key, size: u32): Cache
    requires x < |c.pool|
  { Set(c, x, Page(k, size, true, false, false, 1, c.pool[x].data)) }

  function FilledPage(st: Store, p: Page): Page {
    p.(data := Some(ReadBlock(st, Target(st, p.key.dev), p.key.block * Spb(p.size) % TWO32, Spb(p.size))))
  }

  function Pinned(c: Cache, x: nat): Cache
    requires x < |c.pool|
  { Set(c, x, c.pool[x].(pin := c.pool[x].pin + 1)) }

  function Unpinned(c: Cache, x: nat): Cache
    requires x < |c.pool|
  { Set(c, x, c.pool[x].(pin := c.pool[x].pin - 1)) }

  /** pc_put_page on the pool. */
  function Released(c: Cache, k: Key): Cache
    requires Wf(c)
  {
    FindOk(c, k);
    match Find(c, k)
    case None => c
    case Some(x) => if c.pool[x].pin == 0 then c else Unpinned(c, x)
  }

  /** First slot at or after i that satisfies the flush test / the invalidation test. */
  function FlushFlags(c: Cache, dev: u32, i: nat): (f: seq<bool>)
    ensures |f| == |c.pool|
  { seq(|c.pool|, j requires 0 <= j < |c.pool| => i <= j && c.pool[j].valid && c.pool[j].dirty
    && c.pool[j].key.dev == dev) }

  function DropFlags(c: Cache, dev: u32, i: nat): (f: seq<bool>)
    ensures |f| == |c.pool|
  { seq(|c.pool|, j requires 0 <= j < |c.pool| => i <= j && c.pool[j].valid && c.pool[j].key.dev == dev
    && c.pool[j].pin <= 0) }

  /** Removal that also frees the data buffer. */
  function Drop(c: Cache, x: nat): Cache
    requires Sizes(c) && x < POOL
  { Set(Remove(c, x), x, Freed(c.pool[x]).(data := None)) }

  lemma DropKeepsWf(c: Cache, x: nat)
    requires Wf(c) && Live(c, x)
    ensures Wf(Drop(c, x))
    ensures forall y: nat :: Live(Drop(c, x), y) <==> Live(c, y) && y != x
  {
    RemoveKeepsWf(c, x);
    SetKeepsWf(Remove(c, x), x, Freed(c.pool[x]).(data := None));
  }
}
