/** The intrusive lists of the page pool: the doubly linked LRU list and the singly linked hash
    chains, held as link arrays over slot numbers (-1 is the null pointer). */
module PageLists {
  import opened Common
  import opened PageCacheModel

  lemma {:induction false} WithoutAt(s: seq<nat>, i: nat)
    requires NoDup(s) && i < |s|
    ensures Without(s, s[i]) == s[..i] + s[i + 1..]
  {
    if i > 0 {
      assert s[0] != s[i];
      assert NoDup(s[1..]);
      WithoutAt(s[1..], i - 1);
      assert s[1..][..i - 1] == s[1..i];
    }
  }

  lemma {:induction false} WithoutMissing(s: seq<nat>, x: nat)
    requires x !in s
    ensures Without(s, x) == s
  {
    if s != [] { WithoutMissing(s[1..], x); }
  }

  function At(s: seq<nat>, i: int): int { if 0 <= i < |s| then s[i] else -1 }

  ghost predicate Slots(o: seq<nat>) { NoDup(o) && forall i | 0 <= i < |o| :: o[i] < POOL }

  /** `n` holds the forward links of the list `o`, and is null off the list. */
  ghost predicate Forward(o: seq<nat>, n: seq<int>) {
    && |n| == POOL && Slots(o)
    && (forall i {:trigger n[o[i]]} | 0 <= i < |o| :: n[o[i]] == At(o, i + 1))
    && (forall x: nat | x < POOL && x !in o :: n[x] == -1)
  }

  /** `p` holds the backward links. */
  ghost predicate Backward(o: seq<nat>, p: seq<int>) {
    && |p| == POOL && Slots(o)
    && (forall i {:trigger p[o[i]]} | 0 <= i < |o| :: p[o[i]] == At(o, i - 1))
    && (forall x: nat | x < POOL && x !in o :: p[x] == -1)
  }

  function Cut(o: seq<nat>, i: nat): seq<nat>
    requires i < |o|
  { o[..i] + o[i + 1..] }

  lemma CutAt(o: seq<nat>, i: nat)
    requires i < |o|
    ensures |Cut(o, i)| == |o| - 1
    ensures forall j {:trigger Cut(o, i)[j]} | 0 <= j < |o| - 1 :: Cut(o, i)[j] == if j < i then o[j] else o[j + 1]
  {}

  lemma CutSlots(o: seq<nat>, i: nat)
    requires Slots(o) && i < |o|
    ensures Slots(Cut(o, i)) && Cut(o, i) == Without(o, o[i])
    ensures forall x: nat :: x in Cut(o, i) <==> x in o && x != o[i]
  {
    hide NoDup, Without;
    WithoutAt(o, i);
    WithoutOk(o, o[i]);
    CutAt(o, i);
  }

  lemma Distinct(o: seq<nat>, i: nat, j: nat)
    requires NoDup(o) && i < |o| && j < |o| && i != j
    ensures o[i] != o[j]
  {}

  lemma CutForward(o: seq<nat>, n: seq<int>, i: nat)
    requires Forward(o, n) && i < |o|
    ensures Forward(Cut(o, i), (if i > 0 then n[o[i - 1] := n[o[i]]] else n)[o[i] := -1])
  {
    hide NoDup, Without, Cut;
    CutSlots(o, i);
    CutAt(o, i);
    var c, n' := Cut(o, i), (if i > 0 then n[o[i - 1] := n[o[i]]] else n)[o[i] := -1];
    forall j | 0 <= j < |c| ensures n'[c[j]] == At(c, j + 1) { CutForwardAt(o, n, i, j); }
    forall x: nat | x < POOL && x !in c ensures n'[x] == -1 { CutForwardOff(o, n, i, x); }
  }

  lemma CutForwardOff(o: seq<nat>, n: seq<int>, i: nat, x: nat)
    requires Forward(o, n) && i < |o| && x < POOL && (x !in o || x == o[i])
    ensures (if i > 0 then n[o[i - 1] := n[o[i]]] else n)[o[i] := -1][x] == -1
  {
    hide NoDup;
    if i > 0 && x != o[i] { assert o[i - 1] in o; }
  }

  lemma CutForwardAt(o: seq<nat>, n: seq<int>, i: nat, j: nat)
    requires Forward(o, n) && i < |o| && j < |o| - 1 == |Cut(o, i)|
    ensures Cut(o, i)[j] < POOL
    ensures (if i > 0 then n[o[i - 1] := n[o[i]]] else n)[o[i] := -1][Cut(o, i)[j]] == At(Cut(o, i), j + 1)
  {
    hide NoDup, Cut;
    CutAt(o, i);
    var j' := if j < i then j else j + 1;
    assert n[o[j']] == At(o, j' + 1) && n[o[i]] == At(o, i + 1);
    Distinct(o, j', i);
    if i > 0 && j' != i - 1 { Distinct(o, j', i - 1); }
  }

  lemma CutBackward(o: seq<nat>, p: seq<int>, i: nat)
    requires Backward(o, p) && i < |o|
    ensures Backward(Cut(o, i), (if i + 1 < |o| then p[o[i + 1] := p[o[i]]] else p)[o[i] := -1])
  {
    hide NoDup, Without, Cut;
    CutSlots(o, i);
    CutAt(o, i);
    var c, p' := Cut(o, i), (if i + 1 < |o| then p[o[i + 1] := p[o[i]]] else p)[o[i] := -1];
    forall j | 0 <= j < |c| ensures p'[c[j]] == At(c, j - 1) { CutBackwardAt(o, p, i, j); }
    forall x: nat | x < POOL && x !in c ensures p'[x] == -1 { CutBackwardOff(o, p, i, x); }
  }

  lemma CutBackwardOff(o: seq<nat>, p: seq<int>, i: nat, x: nat)
    requires Backward(o, p) && i < |o| && x < POOL && (x !in o || x == o[i])
    ensures (if i + 1 < |o| then p[o[i + 1] := p[o[i]]] else p)[o[i] := -1][x] == -1
  {
    hide NoDup;
    if i + 1 < |o| && x != o[i] { assert o[i + 1] in o; }
  }

  lemma CutBackwardAt(o: seq<nat>, p: seq<int>, i: nat, j: nat)
    requires Backward(o, p) && i < |o| && j < |o| - 1 == |Cut(o, i)|
    ensures Cut(o, i)[j] < POOL
    ensures (if i + 1 < |o| then p[o[i + 1] := p[o[i]]] else p)[o[i] := -1][Cut(o, i)[j]] == At(Cut(o, i), j - 1)
  {
    hide NoDup, Cut;
    CutAt(o, i);
    var j' := if j < i then j else j + 1;
    assert p[o[j']] == At(o, j' - 1) && p[o[i]] == At(o, i - 1);
    Distinct(o, j', i);
    if i + 1 < |o| && j' != i + 1 { Distinct(o, j', i + 1); }
  }

  lemma PushSlots(o: seq<nat>, x: nat)
    requires Slots(o) && x < POOL && x !in o
    ensures Slots([x] + o)
  {}

  lemma PushForward(o: seq<nat>, n: seq<int>, x: nat)
    requires Forward(o, n) && x < POOL && x !in o
    ensures Forward([x] + o, n[x := At(o, 0)])
  {
    hide NoDup;
    PushSlots(o, x);
    var c := [x] + o;
    forall j | 0 <= j < |c| ensures n[x := At(o, 0)][c[j]] == At(c, j + 1) {
      if j > 0 { assert c[j] == o[j - 1] && o[j - 1] in o; }
    }
  }

  lemma PushBackward(o: seq<nat>, p: seq<int>, x: nat)
    requires Backward(o, p) && x < POOL && x !in o
    ensures Backward([x] + o, if o != [] then p[x := -1][o[0] := x] else p[x := -1])
  {
    hide NoDup;
    PushSlots(o, x);
    var c, p' := [x] + o, if o != [] then p[x := -1][o[0] := x] else p[x := -1];
    forall j | 0 <= j < |c| ensures p'[c[j]] == At(c, j - 1) {
      if j > 0 {
        assert c[j] == o[j - 1] && o[j - 1] in o;
        if j > 1 { HeadDistinct(o, j - 1); }
      }
    }
    if o != [] { assert o[0] in o; }
  }

  lemma HeadDistinct(o: seq<nat>, j: nat)
    requires Slots(o) && 0 < j < |o|
    ensures o[j] != o[0]
  {}

  class LruList {
    const prev: array<int>
    const next: array<int>
    var head: int
    var tail: int
    ghost var order: seq<nat>

    ghost predicate Valid()
      reads this, prev, next
    {
      && prev != next && Forward(order, next[..]) && Backward(order, prev[..])
      && head == At(order, 0) && tail == At(order, |order| - 1)
    }

    constructor ()
      ensures Valid() && order == [] && fresh(prev) && fresh(next)
    {
      prev := new int[POOL](_ => -1);
      next := new int[POOL](_ => -1);
      head, tail, order := -1, -1, [];
    }

    /** _lru_remove */
    method Remove(x: nat)
      requires Valid() && x in order
      modifies this, prev, next
      ensures Valid() && order == Without(old(order), x)
    {
      hide Without;
      ghost var o, n, p := order, next[..], prev[..];
      ghost var i: nat :| i < |o| && o[i] == x;
      CutSlots(o, i);
      CutForward(o, n, i);
      CutBackward(o, p, i);
      var before, after := prev[x], next[x];
      assert n[x] == At(o, i + 1) && p[x] == At(o, i - 1) && before == p[x] && after == n[x];
      hide Forward, Backward;
      if before >= 0 { next[before] := after; } else { head := after; }
      if after >= 0 { prev[after] := before; } else { tail := before; }
      prev[x] := -1;
      next[x] := -1;
      order := Cut(o, i);
    }

    /** _lru_touch */
    method Touch(x: nat)
      requires Valid() && x < POOL
      modifies this, prev, next
      ensures Valid() && order == [x] + Without(old(order), x)
    {
      hide Without;
      if head == x {
        WithoutAt(order, 0);
        assert order == [x] + order[1..];
        return;
      }
      OffList(x);
      if prev[x] >= 0 || next[x] >= 0 || tail == x {
        CutMember(order, x);
        Remove(x);
      }
      WithoutMissing(order, x);
      ghost var o, n, p := order, next[..], prev[..];
      PushForward(o, n, x);
      PushBackward(o, p, x);
      prev[x] := -1;
      next[x] := head;
      if head >= 0 { prev[head] := x; }
      head := x;
      if tail < 0 { tail := x; }
      order := [x] + o;
    }

    /** The link test of _lru_touch tells members from strangers. */
    lemma OffList(x: nat)
      requires Valid() && x < POOL && head != x
      ensures x in order <==> prev[x] >= 0 || next[x] >= 0 || tail == x
    {
      if x in order {
        var i: nat :| i < |order| && order[i] == x;
        assert prev[..][order[i]] == At(order, i - 1);
      } else {
        assert prev[..][x] == -1 && next[..][x] == -1;
      }
    }
  }

  lemma CutMember(o: seq<nat>, x: nat)
    requires Slots(o)
    ensures x !in Without(o, x)
  { WithoutOk(o, x); }

  /** `n` holds the links of the chain `o` that starts at `h`; every slot on it lives in bucket b. */
  ghost predicate Chained(o: seq<nat>, h: int, n: seq<int>, home: seq<nat>, b: nat) {
    && |n| == |home| == POOL && Slots(o) && h == At(o, 0)
    && (forall i {:trigger n[o[i]]} | 0 <= i < |o| :: n[o[i]] == At(o, i + 1))
    && (forall i | 0 <= i < |o| :: home[o[i]] == b)
  }

  lemma ChainCut(o: seq<nat>, h: int, n: seq<int>, home: seq<nat>, b: nat, i: nat)
    requires Chained(o, h, n, home, b) && i < |o|
    ensures Chained(Cut(o, i), if i > 0 then h else n[o[i]], (if i > 0 then n[o[i - 1] := n[o[i]]] else n)[o[i] := -1],
      home, b)
  {
    hide NoDup, Without, Cut;
    CutSlots(o, i);
    CutAt(o, i);
    var c, n' := Cut(o, i), (if i > 0 then n[o[i - 1] := n[o[i]]] else n)[o[i] := -1];
    assert n[o[i]] == At(o, i + 1);
    forall j | 0 <= j < |c| ensures n'[c[j]] == At(c, j + 1) {
      var j' := if j < i then j else j + 1;
      assert c[j] == o[j'] && n[o[j']] == At(o, j' + 1);
      Distinct(o, j', i);
      if i > 0 && j' != i - 1 { Distinct(o, j', i - 1); }
    }
  }

  lemma ChainElsewhere(o: seq<nat>, h: int, n: seq<int>, n': seq<int>, home: seq<nat>, b: nat)
    requires Chained(o, h, n, home, b) && |n'| == POOL
    requires forall x: nat | x < POOL && home[x] == b :: n'[x] == n[x]
    ensures Chained(o, h, n', home, b)
  { hide NoDup; }

  lemma ChainPush(o: seq<nat>, h: int, n: seq<int>, home: seq<nat>, b: nat, x: nat)
    requires Chained(o, h, n, home, b) && x < POOL && x !in o
    ensures Chained([x] + o, x, n[x := h], home[x := b], b)
  {
    hide NoDup;
    PushSlots(o, x);
    var c := [x] + o;
    forall j | 0 <= j < |c| ensures n[x := h][c[j]] == At(c, j + 1) && home[x := b][c[j]] == b {
      if j > 0 { assert c[j] == o[j - 1] && o[j - 1] in o && n[o[j - 1]] == At(o, j); }
    }
  }

  lemma ChainPushElsewhere(o: seq<nat>, h: int, n: seq<int>, home: seq<nat>, b: nat, x: nat, b': nat, h': int)
    requires Chained(o, h, n, home, b) && x < POOL && x !in o
    ensures Chained(o, h, n[x := h'], home[x := b'], b)
  {
    hide NoDup;
    forall i | 0 <= i < |o| ensures n[x := h'][o[i]] == At(o, i + 1) && home[x := b'][o[i]] == b {
      assert o[i] in o && n[o[i]] == At(o, i + 1);
    }
  }

  class HashChains {
    const heads: array<int>
    const next: array<int>
    ghost var chains: seq<seq<nat>>
    ghost var home: seq<nat>

    ghost predicate Valid()
      reads this, heads, next
    {
      && heads != next && heads.Length == |chains| == BUCKETS
      && forall b: nat | b < BUCKETS :: Chained(chains[b], heads[b], next[..], home, b)
    }

    constructor ()
      ensures Valid() && chains == seq(BUCKETS, _ => []) && fresh(heads) && fresh(next)
    {
      heads := new int[BUCKETS](_ => -1);
      next := new int[POOL](_ => -1);
      chains := seq(BUCKETS, _ => []);
      home := seq(POOL, _ => 0);
    }

    /** _hash_insert */
    method Insert(b: nat, x: nat)
      requires Valid() && b < BUCKETS && x < POOL
      requires forall b: nat | b < BUCKETS :: x !in chains[b]
      modifies this, heads, next
      ensures Valid() && chains == old(chains)[b := [x] + old(chains)[b]]
    {
      hide Chained;
      LinkSize();
      ghost var h, n, hm := heads[..], next[..], home;
      forall c: nat | c < BUCKETS
        ensures Chained(if c == b then [x] + chains[c] else chains[c], if c == b then x
          else h[c], n[x := h[b]], hm[x := b], c)
      {
        if c == b { ChainPush(chains[b], h[b], n, hm, b, x); }
        else { ChainPushElsewhere(chains[c], h[c], n, hm, c, x, b, h[b]); }
      }
      next[x] := heads[b];
      heads[b] := x;
      chains, home := chains[b := [x] + chains[b]], hm[x := b];
      assert next[..] == n[x := h[b]];
    }

    lemma LinkSize()
      requires Valid()
      ensures next.Length == |home| == POOL
    { assert Chained(chains[0], heads[0], next[..], home, 0); }

    lemma Link(b: nat, i: nat)
      requires Valid() && b < BUCKETS && i < |chains[b]|
      ensures chains[b][i] < next.Length && next[chains[b][i]] == At(chains[b], i + 1)
    {
      assert Chained(chains[b], heads[b], next[..], home, b);
      assert next[..][chains[b][i]] == At(chains[b], i + 1);
    }

    lemma Head(b: nat)
      requires Valid() && b < BUCKETS
      ensures heads[b] == At(chains[b], 0) && Slots(chains[b])
    { assert Chained(chains[b], heads[b], next[..], home, b); }

    /** The walk of _hash_find: stops at the first slot on the chain whose page has the key. */
    method Find(b: nat, pages: array<Page>, k: Key) returns (x: int)
      requires Valid() && b < BUCKETS && pages.Length == POOL
      requires forall i | 0 <= i < |chains[b]| :: chains[b][i] < |pages[..]|
      ensures x == match FindIn(pages[..], chains[b], k) case Some(y) => y case None => -1
    {
      hide Chained;
      ghost var o := chains[b];
      Head(b);
      x := heads[b];
      ghost var i := 0;
      while x >= 0
        invariant 0 <= i <= |o| && x == At(o, i)
        invariant FindIn(pages[..], o, k) == FindIn(pages[..], o[i..], k)
        decreases |o| - i
      {
        assert o[i..][0] == o[i] && o[i..][1..] == o[i + 1..];
        if pages[x].key == k { return; }
        Link(b, i);
        x := next[x];
        i := i + 1;
      }
    }

    /** _hash_remove: unlink the slot from its chain, if it is there. */
    method Remove(b: nat, x: nat)
      requires Valid() && b < BUCKETS
      modifies this, heads, next
      ensures Valid() && chains == old(chains)[b := Without(old(chains)[b], x)]
    {
      hide Chained, Without;
      ghost var o := chains[b];
      Head(b);
      LinkSize();
      var before, cur := -1, heads[b];
      ghost var i := 0;
      while cur >= 0 && cur != x
        invariant 0 <= i <= |o| && cur == At(o, i) && before == At(o, i - 1)
        invariant forall j | 0 <= j < i :: o[j] != x
        modifies {}
        decreases |o| - i
      {
        Link(b, i);
        before, cur := cur, next[cur];
        i := i + 1;
      }
      if cur < 0 {
        WithoutMissing(o, x);
        assert chains[b := o] == chains;
        return;
      }
      Unlinked(b, i);
      Link(b, i);
      ghost var h, n := heads[..], next[..];
      if before < 0 { heads[b] := next[x]; } else { next[before] := next[x]; }
      next[x] := -1;
      chains := chains[b := Cut(o, i)];
      assert next[..] == (if i > 0 then n[o[i - 1] := n[o[i]]] else n)[o[i] := -1];
    }

    lemma Unlinked(b: nat, i: nat)
      requires Valid() && b < BUCKETS && i < |chains[b]|
      ensures next.Length == |home| == POOL && Slots(chains[b]) && chains[b][i] < POOL
      ensures var o, n := chains[b], next[..];
        var n' := (if i > 0 then n[o[i - 1] := n[o[i]]] else n)[o[i] := -1];
        && Cut(o, i) == Without(o, o[i])
        && forall c: nat | c < BUCKETS ::
             Chained(if c == b then Cut(o, i) else chains[c], if c == b && i == 0 then n[o[i]]
               else heads[c], n', home, c)
    {
      hide Cut, Without;
      var o, n := chains[b], next[..];
      var n' := (if i > 0 then n[o[i - 1] := n[o[i]]] else n)[o[i] := -1];
      assert Chained(o, heads[b], n, home, b);
      ChainCut(o, heads[b], n, home, b, i);
      CutSlots(o, i);
      forall c: nat | c < BUCKETS && c != b ensures Chained(chains[c], heads[c], n', home, c) {
        ChainElsewhere(chains[c], heads[c], n, n', home, c);
      }
    }
  }
}
