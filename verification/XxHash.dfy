/** xxHash64: the one-shot hash and the incremental hasher with its 32-byte carry buffer.
    `Xxh64` is the hash of a byte string; both programs compute it, the hasher for every way
    of cutting the string into chunks. */
module XxHash {
  import opened Common

  const TWO64: int := 0x1_0000_0000_0000_0000
  const EINVAL: int := 22

  const PRIME_1: bv64 := 11400714785074694791
  const PRIME_2: bv64 := 14029467366897019727
  const PRIME_3: bv64 := 1609587929392839161
  const PRIME_4: bv64 := 9650029242287828579
  const PRIME_5: bv64 := 2870177450012600261

  // ---------------------------------------------------------------- rounds

  /** A 64-bit machine word. */
  datatype Word = Word(bits: bv64)

  function Rotl(x: bv64, r: nat): bv64
    requires r <= 64
  { (x << r) | (x >> (64 - r)) }

  function Round(acc: bv64, input: bv64): bv64 { Rotl(acc + input * PRIME_2, 31) * PRIME_1 }

  function MergeRound(acc: bv64, val: bv64): bv64 { (acc ^ Round(0, val)) * PRIME_1 + PRIME_4 }

  /** Little-endian value of a byte string. */
  function Le(b: seq<byte>): bv64 {
    if b == [] then 0 else (b[0] as bv64) + 256 * Le(b[1..])
  }

  datatype Acc = Acc(v1: Word, v2: Word, v3: Word, v4: Word)

  function Init(seed: Word): Acc {
    Acc(Word(seed.bits + PRIME_1 + PRIME_2), Word(seed.bits + PRIME_2), seed, Word(seed.bits - PRIME_1))
  }

  function Lane(v: Word, b: seq<byte>): Word { Word(Round(v.bits, Le(b))) }

  function Stripe(a: Acc, b: seq<byte>): Acc
    requires |b| == 32
  { Acc(Lane(a.v1, b[..8]), Lane(a.v2, b[8..16]), Lane(a.v3, b[16..24]), Lane(a.v4, b[24..])) }

  function Converge(a: Acc): Word {
    var h := Rotl(a.v1.bits, 1) + Rotl(a.v2.bits, 7) + Rotl(a.v3.bits, 12) + Rotl(a.v4.bits, 18);
    Word(MergeRound(MergeRound(MergeRound(MergeRound(h, a.v1.bits), a.v2.bits), a.v3.bits), a.v4.bits))
  }

  function ShortStart(v: Word): Word { Word(v.bits + PRIME_5) }

  function AddWord(h: Word, n: nat): Word
    requires n < TWO64
  { Word(h.bits + n as bv64) }

  function AddLength(h: Word, n: nat): Word { AddWord(h, n % TWO64) }

  function WordMix(h: Word, b: seq<byte>): Word { Word(Rotl(h.bits ^ Round(0, Le(b)), 27) * PRIME_1 + PRIME_4) }
  function HalfMix(h: Word, b: seq<byte>): Word { Word(Rotl(h.bits ^ (Le(b) * PRIME_1), 23) * PRIME_2 + PRIME_3) }
  function ByteMix(h: Word, b: byte): Word { Word(Rotl(h.bits ^ ((b as bv64) * PRIME_5), 11) * PRIME_1) }

  function Avalanche(h: Word): Word {
    var a := (h.bits ^ (h.bits >> 33)) * PRIME_2;
    var b := (a ^ (a >> 29)) * PRIME_3;
    Word(b ^ (b >> 32))
  }

  // ---------------------------------------------------------------- the hash of a byte string

  /** All whole 32-byte stripes of s, in order. */
  function Stripes(a: Acc, s: seq<byte>): Acc
    decreases |s|
  { if |s| < 32 then a else Stripes(Stripe(a, s[..32]), s[32..]) }

  /** What is left of s after its whole stripes. */
  function Rest(s: seq<byte>): seq<byte> { s[|s| - |s| % 32..] }

  function Bytes(h: Word, s: seq<byte>): Word
    decreases |s|
  { if s == [] then h else Bytes(ByteMix(h, s[0]), s[1..]) }

  function Words(h: Word, s: seq<byte>): Word
    decreases |s|
  {
    if |s| >= 8 then Words(WordMix(h, s[..8]), s[8..])
    else if |s| >= 4 then Bytes(HalfMix(h, s[..4]), s[4..])
    else Bytes(h, s)
  }

  function Xxh64(s: seq<byte>, seed: Word): Word {
    var h := if |s| >= 32 then Converge(Stripes(Init(seed), s)) else ShortStart(seed);
    Avalanche(Words(AddLength(h, |s|), Rest(s)))
  }

  /** The 64-bit length counter still tells whether there was a whole stripe. */
  predicate LengthTells(n: nat) { n < 32 || n % TWO64 >= 32 }

  /** What the digest is when it does not: the third lane stands in for the seed. */
  function WrappedHash(s: seq<byte>, seed: Word): Word {
    Avalanche(Words(AddLength(ShortStart(Stripes(Init(seed), s).v3), |s|), Rest(s)))
  }

  // ---------------------------------------------------------------- stripes of a concatenation

  /** The stripes of f followed by more are the stripes of f, then those of what f left over
      followed by more; what is left over depends only on the same. */
  lemma {:induction false} Absorb(a: Acc, f: seq<byte>, more: seq<byte>)
    ensures Stripes(a, f + more) == Stripes(Stripes(a, f), Rest(f) + more)
    ensures Rest(f + more) == Rest(Rest(f) + more)
    decreases |f|
  {
    hide Stripe;
    if |f| < 32 {
      assert Rest(f) == f;
    } else {
      Absorb(Stripe(a, f[..32]), f[32..], more);
      assert (f + more)[..32] == f[..32] && (f + more)[32..] == f[32..] + more;
      RestDrop(f);
      RestDrop(f + more);
    }
  }

  lemma RestDrop(s: seq<byte>)
    requires |s| >= 32
    ensures Rest(s) == Rest(s[32..])
  { assert |s| % 32 == |s[32..]| % 32; }

  lemma {:induction false} StripesShort(seed: Word, s: seq<byte>)
    requires |s| < 32
    ensures Stripes(Init(seed), s).v3 == seed
  {}

  lemma {:induction false} ConcatSnoc(chunks: seq<seq<byte>>, k: nat)
    requires k < |chunks|
    ensures Concat(chunks[..k + 1]) == Concat(chunks[..k]) + chunks[k]
  {
    if k == 0 {
      assert chunks[..1][1..] == [];
    } else {
      ConcatSnoc(chunks[1..], k - 1);
      assert chunks[..k + 1][1..] == chunks[1..][..k] && chunks[..k][1..] == chunks[1..][..k - 1];
    }
  }

  // ---------------------------------------------------------------- the tail loops

  /** The 8-byte loop, the 4-byte step and the byte loop shared by both programs. */
  method TailMix(h0: Word, s: seq<byte>) returns (h: Word)
    ensures h == Words(h0, s)
  {
    hide WordMix, HalfMix, ByteMix;
    h := h0;
    var p := 0;
    assert s[0..] == s;
    while p + 8 <= |s|
      invariant 0 <= p <= |s| && Words(h, s[p..]) == Words(h0, s)
    {
      assert s[p..][..8] == s[p..p + 8] && s[p..][8..] == s[p + 8..];
      h := WordMix(h, s[p..p + 8]);
      p := p + 8;
    }
    if p + 4 <= |s| {
      assert s[p..][..4] == s[p..p + 4] && s[p..][4..] == s[p + 4..];
      h := HalfMix(h, s[p..p + 4]);
      p := p + 4;
    }
    assert Bytes(h, s[p..]) == Words(h0, s);
    while p < |s|
      invariant 0 <= p <= |s| && Bytes(h, s[p..]) == Words(h0, s)
    {
      assert s[p..][1..] == s[p + 1..];
      h := ByteMix(h, s[p]);
      p := p + 1;
    }
  }

  /** The stripe loop from offset p0 to the last whole stripe. */
  method StripeLoop(a0: Acc, s: seq<byte>, p0: nat) returns (a: Acc, p: nat)
    requires p0 <= |s|
    ensures p0 <= p <= |s| && a == Stripes(a0, s[p0..]) && s[p..] == Rest(s[p0..])
  {
    hide Stripe, Stripes, Rest;
    a, p := a0, p0;
    while p + 32 <= |s|
      invariant p0 <= p <= |s|
      invariant Stripes(a, s[p..]) == Stripes(a0, s[p0..]) && Rest(s[p..]) == Rest(s[p0..])
    {
      StripesOne(a, s[p..]);
      assert s[p..][..32] == s[p..p + 32] && s[p..][32..] == s[p + 32..];
      a := Stripe(a, s[p..p + 32]);
      p := p + 32;
    }
    StripesNone(a, s[p..]);
  }

  /** xxh64 */
  method OneShot(input: seq<byte>, seed: Word) returns (h: Word)
    requires |input| < TWO32
    ensures h == Xxh64(input, seed)
  {
    hide Words, Avalanche, Converge, AddLength, ShortStart, Init, Stripe;
    var p := 0;
    assert input[0..] == input;
    if |input| >= 32 {
      var a;
      a, p := StripeLoop(Init(seed), input, 0);
      h := Converge(a);
    } else {
      assert Rest(input) == input;
      h := ShortStart(seed);
    }
    h := AddLength(h, |input|);
    h := TailMix(h, input[p..]);
    h := Avalanche(h);
  }

  // ---------------------------------------------------------------- the incremental hasher

  class Hasher {
    var totalLen: nat
    var acc: Acc
    const mem: array<byte>
    var memsize: nat
    ghost var seed: Word
    ghost var fed: seq<byte>

    /** The accumulators hold the whole stripes fed so far and the buffer the rest. */
    ghost predicate Valid()
      reads this, mem
    {
      && mem.Length == 32 && memsize == |fed| % 32
      && totalLen == |fed| % TWO64
      && acc == Stripes(Init(seed), fed)
      && mem[..memsize] == Rest(fed)
    }

    /** xxh64_reset */
    constructor (s: Word)
      ensures Valid() && fresh(mem) && fed == [] && seed == s
    {
      hide Init;
      totalLen, acc, memsize := 0, Init(s), 0;
      mem := new byte[32](_ => 0);
      seed, fed := s, [];
      new;
      assert mem[..0] == [];
    }

    /** memcpy into the carry buffer. */
    method CopyIn(at: nat, src: seq<byte>)
      requires mem.Length == 32 && at + |src| <= 32
      modifies mem
      ensures mem[..at] == old(mem[..at]) && mem[..at + |src|] == old(mem[..at]) + src
    {
      forall i | 0 <= i < |src| { mem[at + i] := src[i]; }
    }

    /** xxh64_update; None is the null pointer. */
    method Update(input: Option<seq<byte>>) returns (rc: int)
      requires Valid()
      requires input.Some? ==> memsize + |input.value| < TWO32
      modifies this`totalLen, this`acc, this`memsize, this`fed, mem
      ensures Valid()
      ensures input.None? ==> rc == -EINVAL && fed == old(fed)
      ensures input.Some? ==> rc == 0 && fed == old(fed) + input.value
    {
      hide Stripes, Stripe, Init, Rest;
      if input.None? { return -EINVAL; }
      var s := input.value;
      ghost var pending := Rest(fed) + s;
      Absorb(Init(seed), fed, s);
      RestLength(fed);
      RestLength(fed + s);
      SumMod(|fed|, |s|);
      fed := fed + s;
      totalLen := (totalLen + |s|) % TWO64;
      if memsize + |s| < 32 {
        CopyIn(memsize, s);
        memsize := memsize + |s|;
        StripesNone(acc, pending);
        return 0;
      }
      var p := 0;
      assert s[0..] == s;
      if memsize != 0 {
        p := 32 - memsize;
        CopyIn(memsize, s[..p]);
        StripesOne(acc, pending);
        assert mem[..32] == pending[..32] && pending[32..] == s[p..];
        acc := Stripe(acc, mem[..32]);
        memsize := 0;
      } else {
        assert pending == s;
      }
      assert Stripes(acc, s[p..]) == Stripes(Init(seed), fed) && Rest(s[p..]) == Rest(fed);
      acc, p := StripeLoop(acc, s, p);
      if p < |s| {
        CopyIn(0, s[p..]);
        memsize := |s| - p;
      }
      return 0;
    }

    /** xxh64_digest */
    method Digest() returns (h: Word)
      requires Valid()
      ensures h == if LengthTells(|fed|) then Xxh64(fed, seed) else WrappedHash(fed, seed)
    {
      hide Stripes, Stripe, Init, Words, Avalanche, Converge, AddLength, ShortStart;
      if totalLen >= 32 {
        h := Converge(acc);
      } else {
        if |fed| < 32 { StripesShort(seed, fed); }
        h := ShortStart(acc.v3);
      }
      SameLength(h, |fed|);
      h := AddLength(h, totalLen);
      h := TailMix(h, mem[..memsize]);
      h := Avalanche(h);
    }
  }

  lemma SameLength(h: Word, n: nat)
    ensures AddLength(h, n % TWO64) == AddLength(h, n)
  {
    hide AddWord;
    assert n % TWO64 % TWO64 == n % TWO64;
  }

  lemma StripesNone(a: Acc, s: seq<byte>)
    requires |s| < 32
    ensures Stripes(a, s) == a && Rest(s) == s
  {}

  lemma StripesOne(a: Acc, s: seq<byte>)
    requires |s| >= 32
    ensures Stripes(a, s) == Stripes(Stripe(a, s[..32]), s[32..]) && Rest(s) == Rest(s[32..])
  { hide Stripe; RestDrop(s); }

  lemma SumMod(a: nat, b: nat)
    ensures (a % TWO64 + b) % TWO64 == (a + b) % TWO64
  {}

  lemma RestLength(s: seq<byte>)
    ensures |Rest(s)| == |s| % 32
  {}

  /** Reset, one update per chunk, digest. */
  method Streamed(chunks: seq<seq<byte>>, seed: Word) returns (h: Word)
    requires forall i | 0 <= i < |chunks| :: |chunks[i]| + 32 <= TWO32
    ensures LengthTells(|Concat(chunks)|) ==> h == Xxh64(Concat(chunks), seed)
    ensures !LengthTells(|Concat(chunks)|) ==> h == WrappedHash(Concat(chunks), seed)
  {
    hide Xxh64, WrappedHash, LengthTells, Stripes, Rest;
    var s := new Hasher(seed);
    var k := 0;
    while k < |chunks|
      invariant 0 <= k <= |chunks| && s.Valid() && s.seed == seed && fresh(s) && fresh(s.mem)
      invariant s.fed == Concat(chunks[..k])
    {
      ConcatSnoc(chunks, k);
      var _ := s.Update(Some(chunks[k]));
      k := k + 1;
    }
    assert chunks[..k] == chunks;
    h := s.Digest();
  }
}
