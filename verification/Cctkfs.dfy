/** The cctkfs archive: its byte layout, the repacking writer, and what repacking keeps.
    CRC-32 and the signature are computed by functions shared with the reader; the signature
    is a parameter. */
module Cctkfs {
  import opened Common

  const MAGIC: u32 := 0x53464B43
  const VERSION: u32 := 1
  const HEADER_SIZE: nat := 32
  const ENTRY_SIZE: nat := 24
  const DATA_ALIGN: nat := 16
  const CKSUM_OFF: nat := 28

  // ---------------------------------------------------------------- little-endian words

  function Pack(v: u32): (b: seq<byte>)
    ensures |b| == 4
  { [v % 256, v / 256 % 256, v / 65536 % 256, v / 16777216] }

  lemma PackRoundTrip(v: u32)
    ensures U32At(Pack(v), 0) == v
  {
    var a, b, c := v / 256, v / 65536, v / 16777216;
    assert v == 256 * a + v % 256;
    assert a == 256 * b + a % 256 by { assert a / 256 == b; }
    assert b == 256 * c + b % 256 by { assert b / 256 == c; }
  }

  function PackAll(vs: seq<u32>): (b: seq<byte>)
    ensures |b| == 4 * |vs|
  { if vs == [] then [] else PackAll(vs[..|vs| - 1]) + Pack(vs[|vs| - 1]) }

  lemma {:induction false} PackAllAt(vs: seq<u32>, k: nat)
    requires k < |vs|
    ensures U32At(PackAll(vs), 4 * k) == vs[k]
  {
    var n := |vs| - 1;
    if k < n {
      PackAllAt(vs[..n], k);
    } else {
      PackRoundTrip(vs[n]);
    }
  }

  /** A word is read the same wherever the bytes around it come from. */
  lemma U32Local(b: seq<byte>, off: nat, c: seq<byte>, at: nat)
    requires off + 4 <= |b| && at + 4 <= |c| && b[off..off + 4] == c[at..at + 4]
    ensures U32At(b, off) == U32At(c, at)
  {
    var w := b[off..off + 4];
    assert w[0] == b[off] && w[1] == b[off + 1] && w[2] == b[off + 2] && w[3] == b[off + 3];
    assert w[0] == c[at] && w[1] == c[at + 1] && w[2] == c[at + 2] && w[3] == c[at + 3];
  }

  function SetU32(b: seq<byte>, off: nat, v: u32): (r: seq<byte>)
    requires off + 4 <= |b|
    ensures |r| == |b|
  { b[..off] + Pack(v) + b[off + 4..] }

  // ---------------------------------------------------------------- CRC-32

  function CrcBits(c: bv32, n: nat): bv32
    decreases n
  {
    if n == 0 then c else CrcBits(if c & 1 == 1 then (c >> 1) ^ 0xEDB88320 else c >> 1, n - 1)
  }

  /** One byte: the table entry for the low byte, and the rest shifted down. */
  function CrcStep(c: bv32, b: byte): bv32 { CrcBits((c ^ (b as bv32)) & 0xFF, 8) ^ (c >> 8) }

  function CrcFold(data: seq<byte>): bv32 {
    if data == [] then 0xFFFF_FFFF else CrcStep(CrcFold(data[..|data| - 1]), data[|data| - 1])
  }

  function CrcFinish(c: bv32): u32 { (c ^ 0xFFFF_FFFF) as int }

  /** The checksum of an image: its own field counts as zero. */
  function Crc(img: seq<byte>): u32
    requires |img| >= HEADER_SIZE
  { CrcFinish(CrcFold(SetU32(img, CKSUM_OFF, 0))) }

  // ---------------------------------------------------------------- layout

  function AlignUp(v: nat): (r: nat)
    ensures r % DATA_ALIGN == 0 && v <= r < v + DATA_ALIGN
  { (v + 15) / 16 * 16 }

  function Zeros(n: nat): (r: seq<byte>)
    ensures |r| == n
  { seq(n, _ => 0) }

  /** Zero bytes up to the next 16-byte boundary. */
  function Pad(b: seq<byte>): (r: seq<byte>)
    ensures b <= r && |r| == AlignUp(|b|)
  { b + Zeros(AlignUp(|b|) - |b|) }

  /** What the archive says about one entry besides its payload. */
  datatype Meta = Meta(nameOff: u32, nameLen: u32, flags: u32)

  datatype Archive = Archive(names: seq<byte>, metas: seq<Meta>, blobs: seq<seq<byte>>)

  ghost predicate Shaped(a: Archive) { |a.metas| == |a.blobs| }

  function NamesOff(a: Archive): nat { HEADER_SIZE + ENTRY_SIZE * |a.metas| }
  function DataOff(a: Archive): nat { AlignUp(NamesOff(a) + |a.names|) }

  /** Where payload i starts. */
  function Offset(a: Archive, i: nat): (r: nat)
    requires i <= |a.blobs|
    ensures r % DATA_ALIGN == 0 && r >= DataOff(a)
  { if i == 0 then DataOff(a) else AlignUp(Offset(a, i - 1) + |a.blobs[i - 1]|) }

  /** The length of the image. */
  function Total(a: Archive): nat { Offset(a, |a.blobs|) }

  function EntryBytes(m: Meta, off: u32, size: u32): seq<byte> {
    PackAll([m.nameOff, m.nameLen, off, size, m.flags, 0])
  }

  /** The first n table entries; offsets and sizes fit a word when the image does. */
  function Table(a: Archive, n: nat): (b: seq<byte>)
    requires Shaped(a) && n <= |a.metas| && Total(a) < TWO32
    ensures |b| == ENTRY_SIZE * n
  {
    if n == 0 then [] else
      OffsetsGrow(a, n - 1, |a.blobs|);
      Table(a, n - 1) + EntryBytes(a.metas[n - 1], Offset(a, n - 1), |a.blobs[n - 1]|)
  }

  /** The first n payloads, each padded. */
  function Payload(a: Archive, n: nat): (b: seq<byte>)
    requires n <= |a.blobs|
  { if n == 0 then [] else Payload(a, n - 1) + Pad(a.blobs[n - 1]) }

  function Header(a: Archive, total: u32): seq<byte>
    requires NamesOff(a) < TWO32 && |a.names| < TWO32 && |a.metas| < TWO32
  { PackAll([MAGIC, VERSION, total, |a.metas|, HEADER_SIZE, NamesOff(a), |a.names|, 0]) }

  /** The image before its checksum is filled in. */
  function Unsummed(a: Archive): (b: seq<byte>)
    requires Shaped(a) && Total(a) < TWO32
    ensures |b| == Total(a)
  {
    SizesFit(a);
    PayloadLength(a, |a.blobs|);
    Pad(Header(a, Total(a)) + Table(a, |a.metas|) + a.names) + Payload(a, |a.blobs|)
  }

  function Image(a: Archive): (b: seq<byte>)
    requires Shaped(a) && Total(a) < TWO32
    ensures |b| == Total(a)
  {
    SizesFit(a);
    SetU32(Unsummed(a), CKSUM_OFF, Crc(Unsummed(a)))
  }

  lemma {:induction false} OffsetsGrow(a: Archive, i: nat, j: nat)
    requires i < j <= |a.blobs|
    ensures Offset(a, i) + |a.blobs[i]| <= Offset(a, j)
    decreases j
  { if i < j - 1 { OffsetsGrow(a, i, j - 1); } }

  lemma {:induction false} OffsetsAbove(a: Archive, j: nat)
    requires j <= |a.blobs|
    ensures DataOff(a) <= Offset(a, j)
  {}

  lemma SizesFit(a: Archive)
    requires Shaped(a) && Total(a) < TWO32
    ensures NamesOff(a) + |a.names| <= Total(a) && |a.metas| < TWO32
  { OffsetsAbove(a, |a.blobs|); }

  lemma {:induction false} PayloadLength(a: Archive, n: nat)
    requires n <= |a.blobs|
    ensures DataOff(a) + |Payload(a, n)| == Offset(a, n)
  {
    if n > 0 {
      PayloadLength(a, n - 1);
      AlignSum(Offset(a, n - 1), |a.blobs[n - 1]|);
    }
  }

  lemma AlignSum(base: nat, n: nat)
    requires base % DATA_ALIGN == 0
    ensures AlignUp(base + n) == base + AlignUp(n)
  {}

  // ---------------------------------------------------------------- reading the image back

  lemma SetOutside(b: seq<byte>, off: nat, v: u32, lo: nat, hi: nat)
    requires off + 4 <= |b| && lo <= hi <= |b| && (hi <= off || off + 4 <= lo)
    ensures SetU32(b, off, v)[lo..hi] == b[lo..hi]
  {
    hide Pack;
    var r := SetU32(b, off, v);
    forall k | lo <= k < hi ensures r[k] == b[k] { if k >= off + 4 { assert r[k] == b[off + 4..][k - off - 4]; } }
  }

  lemma SetInside(b: seq<byte>, off: nat, v: u32)
    requires off + 4 <= |b|
    ensures U32At(SetU32(b, off, v), off) == v
  {
    hide Pack;
    var r := SetU32(b, off, v);
    assert r[off..off + 4] == Pack(v) == Pack(v)[0..4];
    U32Local(r, off, Pack(v), 0);
    PackRoundTrip(v);
  }

  lemma SetTwice(b: seq<byte>, off: nat, v: u32, w: u32)
    requires off + 4 <= |b|
    ensures SetU32(SetU32(b, off, v), off, w) == SetU32(b, off, w)
  { hide Pack; }

  lemma {:induction false} TableAt(a: Archive, n: nat, i: nat)
    requires Shaped(a) && i < n <= |a.metas| && Total(a) < TWO32
    ensures Offset(a, i) + |a.blobs[i]| <= Total(a)
    ensures Table(a, n)[ENTRY_SIZE * i..ENTRY_SIZE * i + ENTRY_SIZE] ==
      EntryBytes(a.metas[i], Offset(a, i), |a.blobs[i]|)
  {
    hide Pack, PackAll, AlignUp, Offset;
    OffsetsGrow(a, i, |a.blobs|);
    if i < n - 1 {
      TableAt(a, n - 1, i);
    }
  }

  lemma {:induction false} PayloadAt(a: Archive, n: nat, i: nat)
    requires i < n <= |a.blobs|
    ensures var r := Offset(a, i) - DataOff(a);
      0 <= r && r + |a.blobs[i]| <= |Payload(a, n)| && Payload(a, n)[r..r + |a.blobs[i]|] == a.blobs[i]
  {
    hide AlignUp;
    PayloadLength(a, n - 1);
    PayloadLength(a, n);
    if i < n - 1 { PayloadAt(a, n - 1, i); }
  }

  /** The parts of the image, each where the header says. */
  lemma ImageParts(a: Archive)
    requires Shaped(a) && Total(a) < TWO32
    ensures NamesOff(a) + |a.names| <= DataOff(a) <= |Image(a)| == Total(a) && |a.metas| < TWO32
    ensures Image(a)[..CKSUM_OFF] == Header(a, Total(a))[..CKSUM_OFF]
    ensures Image(a)[HEADER_SIZE..NamesOff(a)] == Table(a, |a.metas|)
    ensures Image(a)[NamesOff(a)..NamesOff(a) + |a.names|] == a.names
    ensures Image(a)[DataOff(a)..] == Payload(a, |a.blobs|)
  {
    hide Pack, PackAll, AlignUp, Offset, Crc, Table, Payload, SetU32, Pad;
    SizesFit(a);
    PayloadLength(a, |a.blobs|);
    var h, t, p, u := Header(a, Total(a)), Table(a, |a.metas|), Payload(a, |a.blobs|), Unsummed(a);
    Parts(h, t, a.names, p);
    SetOutside(u, CKSUM_OFF, Crc(u), 0, CKSUM_OFF);
    SetOutside(u, CKSUM_OFF, Crc(u), HEADER_SIZE, NamesOff(a));
    SetOutside(u, CKSUM_OFF, Crc(u), NamesOff(a), NamesOff(a) + |a.names|);
    SetOutside(u, CKSUM_OFF, Crc(u), DataOff(a), |u|);
  }

  lemma Parts(h: seq<byte>, t: seq<byte>, names: seq<byte>, p: seq<byte>)
    requires |h| == HEADER_SIZE
    ensures var u, n := Pad(h + t + names) + p, |h| + |t|;
      && u[0..CKSUM_OFF] == h[..CKSUM_OFF] && u[HEADER_SIZE..n] == t && u[n..n + |names|] == names
        && u[AlignUp(n + |names|)..|u|] == p
  {
    hide AlignUp;
    var f := h + t + names;
    var u, n := Pad(f) + p, |h| + |t|;
    forall k | 0 <= k < |f| ensures u[k] == f[k] { assert f <= Pad(f); }
    assert u[HEADER_SIZE..n] == t;
    assert u[n..n + |names|] == names;
    assert u[|Pad(f)|..|u|] == p;
  }

  lemma Sub(b: seq<byte>, lo: nat, hi: nat, at: nat, n: nat)
    requires lo + at + n <= hi <= |b|
    ensures b[lo..hi][at..at + n] == b[lo + at..lo + at + n]
  {
    var x, y := b[lo..hi][at..at + n], b[lo + at..lo + at + n];
    forall j | 0 <= j < n ensures x[j] == y[j] { assert b[lo..hi][at + j] == b[lo + (at + j)]; }
  }

  lemma HeaderWord(a: Archive, k: nat)
    requires Shaped(a) && Total(a) < TWO32 && k < 7
    ensures |Image(a)| >= HEADER_SIZE && |a.metas| < TWO32 && NamesOff(a) + |a.names| < TWO32
    ensures U32At(Image(a), 4 * k) == [MAGIC, VERSION, Total(a), |a.metas|, HEADER_SIZE, NamesOff(a), |a.names|, 0][k]
  {
    hide Image, Pack, PackAll, U32At, Table, Payload;
    ImageParts(a);
    var h := Header(a, Total(a));
    var im := Image(a);
    Sub(im, 0, CKSUM_OFF, 4 * k, 4);
    Sub(h, 0, CKSUM_OFF, 4 * k, 4);
    U32Local(im, 4 * k, h, 4 * k);
    PackAllAt([MAGIC, VERSION, Total(a), |a.metas|, HEADER_SIZE, NamesOff(a), |a.names|, 0], k);
  }

  lemma EntryWord(a: Archive, i: nat, k: nat)
    requires Shaped(a) && Total(a) < TWO32 && i < |a.metas| && k < 6
    ensures |Image(a)| == Total(a) && HEADER_SIZE + ENTRY_SIZE * i + 4 * k + 4 <= Total(a)
      && Offset(a, i) + |a.blobs[i]| <= Total(a)
    ensures U32At(Image(a), HEADER_SIZE + ENTRY_SIZE * i + 4 * k) == [a.metas[i].nameOff, a.metas[i].nameLen,
      Offset(a, i), |a.blobs[i]|, a.metas[i].flags, 0][k]
  {
    hide Image, Pack, PackAll, U32At, Payload, Table, Offset, AlignUp;
    ImageParts(a);
    TableAt(a, |a.metas|, i);
    var im, t, at, m := Image(a), Table(a, |a.metas|), ENTRY_SIZE * i + 4 * k, a.metas[i];
    var e := EntryBytes(m, Offset(a, i), |a.blobs[i]|);
    Sub(im, HEADER_SIZE, NamesOff(a), at, 4);
    Sub(t, ENTRY_SIZE * i, ENTRY_SIZE * i + ENTRY_SIZE, 4 * k, 4);
    U32Local(im, HEADER_SIZE + at, e, 4 * k);
    PackAllAt([m.nameOff, m.nameLen, Offset(a, i), |a.blobs[i]|, m.flags, 0], k);
  }

  lemma BlobAt(a: Archive, i: nat)
    requires Shaped(a) && Total(a) < TWO32 && i < |a.blobs|
    ensures |Image(a)| == Total(a) && Offset(a, i) + |a.blobs[i]| <= Total(a)
    ensures Image(a)[Offset(a, i)..Offset(a, i) + |a.blobs[i]|] == a.blobs[i]
  {
    hide Image, Pack, PackAll, U32At, Payload, Table, Offset, AlignUp;
    ImageParts(a);
    PayloadAt(a, |a.blobs|, i);
    var im, r := Image(a), Offset(a, i) - DataOff(a);
    Sub(im, DataOff(a), |im|, r, |a.blobs[i]|);
  }

  /** Payloads start on 16-byte boundaries and do not overlap. */
  lemma PayloadsDisjoint(a: Archive, i: nat, j: nat)
    requires Shaped(a) && i < j < |a.blobs|
    ensures Offset(a, i) % DATA_ALIGN == 0 && Offset(a, j) % DATA_ALIGN == 0
    ensures NamesOff(a) + |a.names| <= Offset(a, i) && Offset(a, i) + |a.blobs[i]| <= Offset(a, j)
  { OffsetsGrow(a, i, j); }

  // ---------------------------------------------------------------- parsing

  /** A slice that stops at the end of the data. */
  function Slice(b: seq<byte>, lo: nat, hi: nat): seq<byte> {
    if lo >= |b| || hi <= lo then [] else if hi <= |b| then b[lo..hi] else b[lo..]
  }

  function CountOf(img: seq<byte>): u32
    requires |img| >= HEADER_SIZE
  { U32At(img, 12) }

  function EntryAt(img: seq<byte>, i: nat): nat
    requires |img| >= HEADER_SIZE
  { U32At(img, 16) + ENTRY_SIZE * i }

  /** The writer reads a header with the right magic and a table that lies in the file. */
  predicate Readable(img: seq<byte>) {
    |img| >= HEADER_SIZE && U32At(img, 0) == MAGIC && (CountOf(img) > 0 ==> EntryAt(img, CountOf(img)) <= |img|)
  }

  function ReadMeta(img: seq<byte>, at: nat): Meta
    requires at + ENTRY_SIZE <= |img|
  { Meta(U32At(img, at), U32At(img, at + 4), U32At(img, at + 16)) }

  function ReadBlob(img: seq<byte>, at: nat): seq<byte>
    requires at + ENTRY_SIZE <= |img|
  { Slice(img, U32At(img, at + 8), U32At(img, at + 8) + U32At(img, at + 12)) }

  function Parse(img: seq<byte>): (a: Archive)
    requires Readable(img)
    ensures Shaped(a) && |a.metas| == CountOf(img)
  {
    Archive(Slice(img, U32At(img, 20), U32At(img, 20) + U32At(img, 24)),
            seq(CountOf(img), i requires 0 <= i < CountOf(img) => ReadMeta(img, EntryAt(img, i))),
            seq(CountOf(img), i requires 0 <= i < CountOf(img) => ReadBlob(img, EntryAt(img, i))))
  }

  /** What the writer lays out, it reads back. */
  lemma ParseImage(a: Archive)
    requires Shaped(a) && Total(a) < TWO32
    ensures Readable(Image(a)) && Parse(Image(a)) == a && U32At(Image(a), 24) == |a.names|
  {
    hide Image, U32At, Offset, AlignUp, Pack, Total, Slice, ReadMeta, ReadBlob;
    ParseHeader(a);
    NamesRead(a);
    var p := Parse(Image(a));
    forall i: nat | i < |a.metas| ensures p.metas[i] == a.metas[i] && p.blobs[i] == a.blobs[i] { EntryRead(a, i); }
    assert p.metas == a.metas && p.blobs == a.blobs;
  }

  lemma ParseHeader(a: Archive)
    requires Shaped(a) && Total(a) < TWO32
    ensures var im := Image(a);
      && Readable(im) && CountOf(im) == |a.metas| && U32At(im, 16) == HEADER_SIZE
      && U32At(im, 20) == NamesOff(a) && U32At(im, 24) == |a.names|
  {
    hide Image, U32At, Offset, AlignUp, Pack, Total;
    SizesFit(a);
    HeaderWord(a, 0);
    HeaderWord(a, 3);
    HeaderWord(a, 4);
    HeaderWord(a, 5);
    HeaderWord(a, 6);
  }

  lemma NamesRead(a: Archive)
    requires Shaped(a) && Total(a) < TWO32
    ensures NamesOff(a) + |a.names| <= |Image(a)| && Slice(Image(a), NamesOff(a), NamesOff(a) + |a.names|) == a.names
  { hide Image; ImageParts(a); }

  lemma EntryRead(a: Archive, i: nat)
    requires Shaped(a) && Total(a) < TWO32 && i < |a.metas|
    ensures var at := HEADER_SIZE + ENTRY_SIZE * i;
      at + ENTRY_SIZE <= |Image(a)| && ReadMeta(Image(a), at) == a.metas[i] && ReadBlob(Image(a), at) == a.blobs[i]
  {
    hide Image, U32At, Offset, AlignUp;
    EntryWord(a, i, 0);
    EntryWord(a, i, 1);
    EntryWord(a, i, 2);
    EntryWord(a, i, 3);
    EntryWord(a, i, 4);
    EntryWord(a, i, 5);
    BlobAt(a, i);
  }
}
