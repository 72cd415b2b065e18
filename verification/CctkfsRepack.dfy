/** The signing tool: it reads an archive, signs the modules that are not signed for the
    current ABI, and lays the archive out again. */
module CctkfsRepack {
  import opened Common
  import opened Cctkfs

  const SIG_SIZE: nat := 64
  const TRAILER_SIZE: nat := 72

  /** "CMOD" */
  function TrailerMagic(): (b: seq<byte>)
    ensures |b| == 4
  { [67, 77, 79, 68] }

  /** ".cctk" */
  function ModuleSuffix(): (b: seq<byte>)
    ensures |b| == 5
  { [46, 99, 99, 116, 107] }

  // ---------------------------------------------------------------- trailers

  predicate AlreadySigned(d: seq<byte>) {
    |d| >= TRAILER_SIZE && d[|d| - TRAILER_SIZE..|d| - TRAILER_SIZE + 4] == TrailerMagic()
  }

  /** Signed for this vermagic. */
  predicate Current(d: seq<byte>, vermagic: u32) {
    AlreadySigned(d) && U32At(d, |d| - TRAILER_SIZE + 4) == vermagic
  }

  function StripTrailer(d: seq<byte>): seq<byte> { if AlreadySigned(d) then d[..|d| - TRAILER_SIZE] else d }

  function SignModule(d: seq<byte>, vermagic: u32, sign: seq<byte> -> seq<byte>): seq<byte> {
    var m := StripTrailer(d) + TrailerMagic() + Pack(vermagic);
    m + sign(m)
  }

  predicate IsModule(name: seq<byte>) { |name| >= 5 && name[|name| - 5..] == ModuleSuffix() }

  /** Only modules carry a trailer, and one that is current stays as it is. */
  function Signed(name: seq<byte>, d: seq<byte>, vermagic: u32, sign: seq<byte> -> seq<byte>): seq<byte> {
    if !IsModule(name) || Current(d, vermagic) then d else SignModule(d, vermagic, sign)
  }

  ghost predicate Signer(sign: seq<byte> -> seq<byte>) { forall m :: |sign(m)| == SIG_SIZE }

  /** A freshly signed module is current. */
  lemma SignModuleCurrent(d: seq<byte>, vermagic: u32, sign: seq<byte> -> seq<byte>)
    requires Signer(sign)
    ensures Current(SignModule(d, vermagic, sign), vermagic)
  {
    hide Pack, U32At;
    var e, m := StripTrailer(d), StripTrailer(d) + TrailerMagic() + Pack(vermagic);
    var r := m + sign(m);
    assert |r| == |e| + TRAILER_SIZE;
    assert r[|e|..|e| + 4] == TrailerMagic();
    assert r[|e| + 4..|e| + 8] == Pack(vermagic) == Pack(vermagic)[0..4];
    U32Local(r, |e| + 4, Pack(vermagic), 0);
    PackRoundTrip(vermagic);
  }

  /** Signing a second time changes nothing, whatever the second signer. */
  lemma SignedTwice(name: seq<byte>, d: seq<byte>, vermagic: u32, sign: seq<byte> -> seq<byte>,
    again: seq<byte> -> seq<byte>)
    requires Signer(sign)
    ensures Signed(name, Signed(name, d, vermagic, sign), vermagic, again) == Signed(name, d, vermagic, sign)
  {
    hide SignModule, Current;
    SignModuleCurrent(d, vermagic, sign);
  }

  // ---------------------------------------------------------------- archives

  /** Every entry's name lies in the name blob. */
  ghost predicate NamesInside(a: Archive) {
    forall i | 0 <= i < |a.metas| :: a.metas[i].nameOff + a.metas[i].nameLen <= |a.names|
  }

  /** The archive is readable, and its name blob and the names lie where the header says. */
  ghost predicate WellFormed(img: seq<byte>) {
    Readable(img) && |Parse(img).names| == U32At(img, 24) && NamesInside(Parse(img))
  }

  function NameOf(a: Archive, i: nat): seq<byte>
    requires i < |a.metas|
  { Slice(a.names, a.metas[i].nameOff, a.metas[i].nameOff + a.metas[i].nameLen) }

  function SignAll(a: Archive, vermagic: u32, sign: seq<byte> -> seq<byte>): (r: Archive)
    requires Shaped(a)
    ensures Shaped(r) && r.names == a.names && r.metas == a.metas
  { a.(blobs := seq(|a.blobs|, i requires 0 <= i < |a.blobs| => Signed(NameOf(a, i), a.blobs[i], vermagic, sign))) }

  lemma SignAllTwice(a: Archive, vermagic: u32, sign: seq<byte> -> seq<byte>, again: seq<byte> -> seq<byte>)
    requires Shaped(a) && Signer(sign)
    ensures SignAll(SignAll(a, vermagic, sign), vermagic, again) == SignAll(a, vermagic, sign)
  {
    hide Signed;
    var b := SignAll(a, vermagic, sign);
    forall i: nat | i < |a.blobs| ensures SignAll(b, vermagic, again).blobs[i] == b.blobs[i] {
      assert NameOf(b, i) == NameOf(a, i);
      SignedTwice(NameOf(a, i), a.blobs[i], vermagic, sign, again);
    }
    assert SignAll(b, vermagic, again).blobs == b.blobs;
  }

  /** What the tool writes for a well-formed archive; nothing when the result would not fit
      32-bit offsets. */
  ghost function Repacked(img: seq<byte>, vermagic: u32, sign: seq<byte> -> seq<byte>): Option<seq<byte>>
    requires Readable(img)
  {
    var a := SignAll(Parse(img), vermagic, sign);
    if Total(a) < TWO32 then Some(Image(a)) else None
  }

  /** Repacking the result again changes nothing. */
  lemma RepackTwice(img: seq<byte>, vermagic: u32, sign: seq<byte> -> seq<byte>, again: seq<byte> -> seq<byte>)
    requires WellFormed(img) && Signer(sign) && Repacked(img, vermagic, sign).Some?
    ensures var out := Repacked(img, vermagic, sign).value;
      WellFormed(out) && Repacked(out, vermagic, again) == Some(out)
  {
    hide Signed, Image, Parse, SignAll, Total;
    var a := SignAll(Parse(img), vermagic, sign);
    ParseImage(a);
    SignAllTwice(Parse(img), vermagic, sign, again);
  }

  /** The repacked archive has the same names and flags in the same order, and each payload is
      the original one, signed if it is a module. */
  lemma RepackKeeps(img: seq<byte>, vermagic: u32, sign: seq<byte> -> seq<byte>, i: nat)
    requires WellFormed(img) && Repacked(img, vermagic, sign).Some? && i < |Parse(img).metas|
    ensures var out, a := Repacked(img, vermagic, sign).value, Parse(img);
      && Readable(out) && |Parse(out).metas| == |a.metas| && Parse(out).metas[i] == a.metas[i]
      && NameOf(Parse(out), i) == NameOf(a, i)
      && Parse(out).blobs[i] == Signed(NameOf(a, i), a.blobs[i], vermagic, sign)
  {
    hide Signed, Image, Parse, Total, Slice;
    ParseImage(SignAll(Parse(img), vermagic, sign));
  }

  // ---------------------------------------------------------------- the tool

  lemma {:induction false} PackAllSet(vs: seq<u32>, k: nat, v: u32)
    requires k < |vs|
    ensures SetU32(PackAll(vs), 4 * k, v) == PackAll(vs[k := v])
  {
    hide Pack;
    var n := |vs| - 1;
    if k < n {
      PackAllSet(vs[..n], k, v);
      assert vs[k := v][..n] == vs[..n][k := v];
      assert PackAll(vs) == PackAll(vs[..n]) + Pack(vs[n]);
    } else {
      assert vs[k := v][..n] == vs[..n];
      assert PackAll(vs) == PackAll(vs[..n]) + Pack(vs[n]);
    }
  }

  lemma SetPrefix(b: seq<byte>, c: seq<byte>, off: nat, v: u32)
    requires off + 4 <= |b|
    ensures SetU32(b + c, off, v) == SetU32(b, off, v) + c
  { hide Pack; }

  /** Append zero bytes until the length is a multiple of 16. */
  method PadOut(b: seq<byte>) returns (r: seq<byte>)
    ensures r == Pad(b)
  {
    r := b;
    while |r| % DATA_ALIGN != 0
      invariant |b| <= |r| <= AlignUp(|b|) && r == b + Zeros(|r| - |b|)
      decreases AlignUp(|b|) - |r|
    {
      assert Zeros(|r| - |b|) + [0] == Zeros(|r| + 1 - |b|);
      r := r + [0];
    }
    assert |r| == AlignUp(|b|);
  }

  /** The first loop of main: names, flags and payloads, and each payload signed as needed. */
  method ReadAndSign(img: seq<byte>, vermagic: u32, sign: seq<byte> -> seq<byte>)
    returns (metas: seq<Meta>, blobs: seq<seq<byte>>)
    requires Readable(img)
    ensures |metas| == |blobs| == CountOf(img)
    ensures WellFormed(img) ==> metas == Parse(img).metas && blobs == SignAll(Parse(img), vermagic, sign).blobs
  {
    hide Signed, U32At, Slice, ReadMeta, ReadBlob, SignAll, WellFormed, Parse;
    metas, blobs := [], [];
    ghost var a := Parse(img);
    ghost var b := SignAll(a, vermagic, sign);
    var i := 0;
    while i < CountOf(img)
      invariant 0 <= i <= CountOf(img) && |metas| == |blobs| == i
      invariant WellFormed(img) ==> metas == a.metas[..i] && blobs == b.blobs[..i]
    {
      var at := EntryAt(img, i);
      var m := ReadMeta(img, at);
      var from := U32At(img, 20) + m.nameOff;
      var name := Slice(img, from, from + m.nameLen);
      if WellFormed(img) { EntrySigned(img, vermagic, sign, i); }
      metas := metas + [m];
      blobs := blobs + [Signed(name, ReadBlob(img, at), vermagic, sign)];
      i := i + 1;
    }
  }

  lemma EntrySigned(img: seq<byte>, vermagic: u32, sign: seq<byte> -> seq<byte>, i: nat)
    requires Readable(img) && WellFormed(img) && i < CountOf(img)
    ensures EntryAt(img, i) + ENTRY_SIZE <= |img|
    ensures var at := EntryAt(img, i);
      var m, from := ReadMeta(img, at), U32At(img, 20) + ReadMeta(img, at).nameOff;
      && m == Parse(img).metas[i]
      && SignAll(Parse(img), vermagic, sign).blobs[i] == Signed(Slice(img, from, from + m.nameLen), ReadBlob(img, at),
        vermagic, sign)
  {
    hide Signed, U32At, Slice, ReadMeta, ReadBlob, NameOf;
    NameRead(img, i);
  }

  lemma SliceOfSlice(b: seq<byte>, from: nat, len: nat, lo: nat, n: nat)
    requires len > 0 && |Slice(b, from, from + len)| == len && lo + n <= len
    ensures Slice(Slice(b, from, from + len), lo, lo + n) == Slice(b, from + lo, from + lo + n)
  {
    assert from + len <= |b| && Slice(b, from, from + len) == b[from..from + len];
    if n > 0 { assert b[from..from + len][lo..lo + n] == b[from + lo..from + lo + n]; }
  }

  /** A name read from the file is the name in the blob. */
  lemma NameRead(img: seq<byte>, i: nat)
    requires WellFormed(img) && i < CountOf(img)
    ensures var m := ReadMeta(img, EntryAt(img, i));
      m == Parse(img).metas[i] && Slice(img, U32At(img, 20) + m.nameOff, U32At(img, 20) + m.nameOff + m.nameLen) ==
        NameOf(Parse(img), i)
  {
    hide U32At;
    var a := Parse(img);
    var no: nat, ns: nat := U32At(img, 20), U32At(img, 24);
    var m := a.metas[i];
    assert m.nameOff + m.nameLen <= ns;
    if ns > 0 && m.nameLen > 0 {
      assert a.names == Slice(img, no, no + ns);
      SliceOfSlice(img, no, ns, m.nameOff, m.nameLen);
    }
  }

  /** The table loop; None when an offset or a size does not fit a 32-bit field. */
  method WriteTable(a: Archive) returns (out: Option<seq<byte>>)
    requires Shaped(a)
    ensures out.None? ==> Total(a) >= TWO32
    ensures out.Some? ==> |out.value| == ENTRY_SIZE * |a.metas|
    ensures out.Some? && Total(a) < TWO32 ==> out.value == Table(a, |a.metas|)
  {
    hide PackAll, Total, AlignUp;
    var b, i, cur := [], 0, DataOff(a);
    while i < |a.metas|
      invariant 0 <= i <= |a.metas| && cur == Offset(a, i)
      invariant |b| == ENTRY_SIZE * i && (Total(a) < TWO32 ==> b == Table(a, i))
    {
      TotalAbove(a, i);
      if cur >= TWO32 || |a.blobs[i]| >= TWO32 { return None; }
      b := b + EntryBytes(a.metas[i], cur, |a.blobs[i]|);
      cur := AlignUp(cur + |a.blobs[i]|);
      i := i + 1;
    }
    return Some(b);
  }

  lemma TotalAbove(a: Archive, i: nat)
    requires i < |a.blobs|
    ensures Offset(a, i) + |a.blobs[i]| <= Total(a)
  { hide AlignUp; OffsetsGrow(a, i, |a.blobs|); }

  /** set_checksum */
  method SetChecksum(b: seq<byte>) returns (r: seq<byte>)
    requires |b| >= HEADER_SIZE
    ensures r == SetU32(b, CKSUM_OFF, Crc(b))
  {
    hide Pack, CrcFinish, CrcFold;
    SetTwice(b, CKSUM_OFF, 0, Crc(b));
    r := SetU32(b, CKSUM_OFF, 0);
    r := SetU32(r, CKSUM_OFF, CrcFinish(CrcFold(r)));
  }

  /** The rebuild in main: header, table, names, padding, payloads, then the size and checksum. */
  method WriteImage(a: Archive) returns (out: Option<seq<byte>>)
    requires Shaped(a)
    ensures out == if Total(a) < TWO32 then Some(Image(a)) else None
  {
    hide Pack, PackAll, AlignUp, Total, Offset, Table, Crc, Pad;
    OffsetsAbove(a, |a.blobs|);
    TotalIs(a);
    if NamesOff(a) >= TWO32 || |a.names| >= TWO32 || |a.metas| >= TWO32 { return None; }
    var header := Header(a, 0);
    var table := WriteTable(a);
    if table.None? { return None; }
    var b := PadOut(header + table.value + a.names);
    var i := 0;
    ghost var front := b;
    while i < |a.blobs|
      invariant 0 <= i <= |a.blobs| && b == front + Payload(a, i) && |front| == DataOff(a)
    {
      PayloadLength(a, i);
      var before := b;
      b := PadOut(b + a.blobs[i]);
      PadAppend(before, a.blobs[i]);
      i := i + 1;
    }
    PayloadLength(a, |a.blobs|);
    if |b| >= TWO32 { return None; }
    ghost var u := b;
    b := SetU32(b, 8, |b|);
    SizePatched(a, table.value);
    b := SetChecksum(b);
    return Some(b);
  }

  lemma TotalIs(a: Archive)
    ensures Total(a) == Offset(a, |a.blobs|) && DataOff(a) >= NamesOff(a) + |a.names|
  {}

  lemma PadAppend(before: seq<byte>, blob: seq<byte>)
    requires |before| % DATA_ALIGN == 0
    ensures Pad(before + blob) == before + Pad(blob)
  { AlignSum(|before|, |blob|); }

  /** Patching the size word into the finished layout gives the image before its checksum. */
  lemma SizePatched(a: Archive, table: seq<byte>)
    requires Shaped(a) && Total(a) < TWO32 && table == Table(a, |a.metas|)
    requires NamesOff(a) < TWO32 && |a.names| < TWO32 && |a.metas| < TWO32
    ensures SetU32(Pad(Header(a, 0) + table + a.names) + Payload(a, |a.blobs|), 8, Total(a)) == Unsummed(a)
  {
    hide Pack, PackAll, AlignUp, Total, Offset, Table, SetU32;
    var h, rest := Header(a, 0), Zeros(AlignUp(NamesOff(a) + |a.names|) - (NamesOff(a) + |a.names|))
      + Payload(a, |a.blobs|);
    var vs := [MAGIC, VERSION, 0, |a.metas|, HEADER_SIZE, NamesOff(a), |a.names|, 0];
    PackAllSet(vs, 2, Total(a));
    assert vs[2 := Total(a)] == [MAGIC, VERSION, Total(a), |a.metas|, HEADER_SIZE, NamesOff(a), |a.names|, 0];
    assert Pad(h + table + a.names) + Payload(a, |a.blobs|) == h + (table + a.names + rest);
    SetPrefix(h, table + a.names + rest, 8, Total(a));
    assert Unsummed(a) == Header(a, Total(a)) + (table + a.names + rest);
  }

  /** main, from the file's bytes to the bytes written back. */
  method Repack(img: seq<byte>, vermagic: u32, sign: seq<byte> -> seq<byte>) returns (out: Option<seq<byte>>)
    ensures !Readable(img) ==> out == None
    ensures WellFormed(img) ==> out == Repacked(img, vermagic, sign)
  {
    hide U32At, Total, Image, Signed;
    if |img| < HEADER_SIZE || U32At(img, 0) != MAGIC { return None; }
    if CountOf(img) > 0 && EntryAt(img, CountOf(img)) > |img| { return None; }
    var metas, blobs := ReadAndSign(img, vermagic, sign);
    var names := Slice(img, U32At(img, 20), U32At(img, 20) + U32At(img, 24));
    out := WriteImage(Archive(names, metas, blobs));
  }
}
