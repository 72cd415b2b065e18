/** Machine words, bytes, the option type and scans of flag arrays, shared by every module. */
module Common {
  datatype Option<+T> = None | Some(value: T)

  const TWO32: int := 0x1_0000_0000

  type u32 = x: int | 0 <= x < 0x1_0000_0000
  type byte = x: int | 0 <= x < 256

  /** The little-endian word at an offset. */
  function U32At(b: seq<byte>, off: nat): (v: u32)
    requires off + 4 <= |b|
  { (b[off] as int) + 256 * (b[off + 1] as int) + 65536 * (b[off + 2] as int) + 16777216 * (b[off + 3] as int) }

  function Concat(chunks: seq<seq<byte>>): seq<byte> {
    if chunks == [] then [] else chunks[0] + Concat(chunks[1..])
  }

  predicate NoDup<T(==)>(s: seq<T>) {
    forall i, j | 0 <= i < j < |s| :: s[i] != s[j]
  }

  // ---------------------------------------------------------------- scans

  /** The least index whose flag is set. */
  function First(flags: seq<bool>): (r: Option<nat>)
    ensures r.None? ==> forall i | 0 <= i < |flags| :: !flags[i]
    ensures r.Some? ==> r.value < |flags| && flags[r.value] && forall i | 0 <= i < r.value :: !flags[i]
  {
    if flags == [] then None
    else if flags[0] then Some(0)
    else match First(flags[1..]) case None => None case Some(k) => Some(k + 1)
  }

  function Count(flags: seq<bool>): nat {
    if flags == [] then 0 else (if flags[0] then 1 else 0) + Count(flags[1..])
  }

  lemma {:induction false} CountUpdate(flags: seq<bool>, k: nat, v: bool)
    requires k < |flags|
    ensures Count(flags[k := v]) == Count(flags) - (if flags[k] then 1 else 0) + (if v then 1 else 0)
  {
    if k == 0 {
      assert flags[k := v][1..] == flags[1..];
    } else {
      CountUpdate(flags[1..], k - 1, v);
      assert flags[k := v][1..] == flags[1..][k - 1 := v];
    }
  }

  lemma {:induction false} CountSnoc(flags: seq<bool>, v: bool)
    ensures Count(flags + [v]) == Count(flags) + (if v then 1 else 0)
  {
    if flags != [] {
      CountSnoc(flags[1..], v);
      assert (flags + [v])[1..] == flags[1..] + [v];
    }
  }

  /** Splitting a set of flags into two disjoint parts splits the count. */
  lemma {:induction false} CountSplit(all: seq<bool>, a: seq<bool>, b: seq<bool>)
    requires |all| == |a| == |b|
    requires forall i | 0 <= i < |all| :: all[i] == (a[i] || b[i]) && !(a[i] && b[i])
    ensures Count(all) == Count(a) + Count(b)
  {
    if all != [] { CountSplit(all[1..], a[1..], b[1..]); }
  }

  lemma {:induction false} CountNone(f: seq<bool>)
    requires forall i | 0 <= i < |f| :: !f[i]
    ensures Count(f) == 0
  { if f != [] { CountNone(f[1..]); } }

  lemma {:induction false} CountMonotone(a: seq<bool>, b: seq<bool>)
    requires |a| == |b| && forall i | 0 <= i < |a| :: a[i] ==> b[i]
    ensures Count(a) <= Count(b)
  { if a != [] { CountMonotone(a[1..], b[1..]); } }
}
