/** The boot-time reader of the staged cctkfs image, and its agreement with the writer. */
module InitfsReader {
  import opened Common
  import opened Cctkfs
  import opened CctkfsRepack

  const MAX_IMAGE: nat := 4096 * 6144
  const COUNT_MAX: nat := 178956970
  const SLASH: byte := 47

  /** A 32-bit sum that wraps, as the range checks compute it. */
  function Sum32(a: u32, b: u32): u32 { (a + b) % TWO32 }

  // ---------------------------------------------------------------- the header

  /** validate_header: zero, or the code of the first check that fails. */
  function Validate(img: seq<byte>): (rc: int)
    requires |img| < TWO32
  {
    if |img| < HEADER_SIZE then -1
    else if U32At(img, 0) != MAGIC then -2
    else if U32At(img, 4) != VERSION then -3
    else if U32At(img, 8) != |img| then -4
    else if U32At(img, 16) < HEADER_SIZE then -5
    else
      var names, end := U32At(img, 20), Sum32(U32At(img, 20), U32At(img, 24));
      if end < names || end > |img| then -6
      else if U32At(img, 12) > COUNT_MAX then -7
      else
        var entries, last := U32At(img, 16), Sum32(U32At(img, 16), ENTRY_SIZE * U32At(img, 12));
        if last < entries || last > names then -7
        else if U32At(img, 28) != 0 && U32At(img, 28) != Crc(img) then -8
        else 0
  }

  /** What an accepted header guarantees. */
  lemma Validated(img: seq<byte>)
    requires |img| < TWO32 && Validate(img) == 0
    ensures Readable(img) && U32At(img, 20) + U32At(img, 24) <= |img|
    ensures HEADER_SIZE <= U32At(img, 16) && EntryAt(img, CountOf(img)) <= U32At(img, 20)
  { hide U32At, Crc; }

  /** The 32-bit checks accept exactly the headers whose table and name blob lie in order inside
      the image, counted without wrapping. */
  lemma ValidateIff(img: seq<byte>)
    requires |img| < TWO32
    ensures Validate(img) == 0 <==>
      && |img| >= HEADER_SIZE && U32At(img, 0) == MAGIC && U32At(img, 4) == VERSION && U32At(img, 8) == |img|
      && HEADER_SIZE <= U32At(img, 16) && U32At(img, 16) + ENTRY_SIZE * U32At(img, 12) <= U32At(img, 20)
      && U32At(img, 20) + U32At(img, 24) <= |img|
      && (U32At(img, 28) == 0 || U32At(img, 28) == Crc(img))
  { hide U32At, Crc; }

  // ---------------------------------------------------------------- entries

  /** Where an entry's path and payload lie in the image. */
  datatype Item = Item(path: nat, data: nat, size: nat)

  predicate NameInRange(img: seq<byte>, at: nat)
    requires |img| >= HEADER_SIZE && at + ENTRY_SIZE <= |img|
  {
    var end := Sum32(U32At(img, at), U32At(img, at + 4));
    U32At(img, at) <= end <= U32At(img, 24)
  }

  predicate DataInRange(img: seq<byte>, at: nat)
    requires at + ENTRY_SIZE <= |img| < TWO32
  {
    var end := Sum32(U32At(img, at + 8), U32At(img, at + 12));
    U32At(img, at + 8) <= end <= |img|
  }

  function ItemAt(img: seq<byte>, at: nat): Item
    requires |img| >= HEADER_SIZE && at + ENTRY_SIZE <= |img|
  { Item(U32At(img, 20) + U32At(img, at), U32At(img, at + 8), U32At(img, at + 12)) }

  ghost predicate Accepted(img: seq<byte>) { |img| < TWO32 && Validate(img) == 0 }

  lemma EntryInside(img: seq<byte>, i: nat)
    requires Accepted(img) && i < CountOf(img)
    ensures EntryAt(img, i) + ENTRY_SIZE <= |img|
  { Validated(img); }

  /** initfs_modblob_at */
  ghost function AtSpec(img: seq<byte>, i: int): Option<Item>
    requires Accepted(img)
  {
    Validated(img);
    if i < 0 || i >= CountOf(img) then None
    else
      EntryInside(img, i);
      var at := EntryAt(img, i);
      if DataInRange(img, at) && NameInRange(img, at) then Some(ItemAt(img, at)) else None
  }

  /** An entry is served exactly when its payload lies in the image and its name in the name
      blob, counted without wrapping. */
  lemma AtIff(img: seq<byte>, i: nat)
    requires Accepted(img) && i < CountOf(img)
    ensures EntryAt(img, i) + ENTRY_SIZE <= |img|
    ensures var at := EntryAt(img, i);
      AtSpec(img, i).Some? <==>
        U32At(img, at + 8) + U32At(img, at + 12) <= |img|
        && U32At(img, at) + U32At(img, at + 4) <= U32At(img, 24)
  {
    hide U32At, Validate;
    Validated(img);
    EntryInside(img, i);
    var at := EntryAt(img, i);
    NoWrap(U32At(img, at + 8), U32At(img, at + 12));
    NoWrap(U32At(img, at), U32At(img, at + 4));
  }

  /** The name's bytes as the table gives them. */
  ghost function NameBytes(img: seq<byte>, i: nat): seq<byte>
    requires Accepted(img) && i < CountOf(img)
  {
    EntryInside(img, i);
    var at := EntryAt(img, i);
    Slice(img, U32At(img, 20) + U32At(img, at), U32At(img, 20) + U32At(img, at) + U32At(img, at + 4))
  }

  /** The C string that starts here. */
  function CString(b: seq<byte>, at: nat): seq<byte>
    requires at <= |b|
    decreases |b| - at
  { if at == |b| || b[at] == 0 then [] else [b[at]] + CString(b, at + 1) }

  /** What follows the last slash. */
  function Basename(s: seq<byte>): (r: seq<byte>)
    ensures |r| <= |s| && s[|s| - |r|..] == r && SLASH !in r
  {
    if s == [] || s[|s| - 1] == SLASH then []
    else Basename(s[..|s| - 1]) + [s[|s| - 1]]
  }

  /** An archive is valid when the reader accepts its header and every entry. */
  ghost predicate ValidArchive(img: seq<byte>) {
    Accepted(img) && forall i | 0 <= i < CountOf(img) :: AtSpec(img, i).Some?
  }

  // ---------------------------------------------------------------- lookup by path

  ghost function MatchFlags(img: seq<byte>, path: seq<byte>): (f: seq<bool>)
    requires Accepted(img)
    ensures |f| == CountOf(img)
  {
    Validated(img);
    seq(CountOf(img), i requires 0 <= i < CountOf(img) =>
      EntryInside(img, i); NameInRange(img, EntryAt(img, i)) && NameBytes(img, i) == path)
  }

  ghost function BaseFlags(img: seq<byte>, base: seq<byte>): (f: seq<bool>)
    requires Accepted(img)
    ensures |f| == CountOf(img)
  {
    Validated(img);
    seq(CountOf(img), i requires 0 <= i < CountOf(img) =>
      EntryInside(img, i); NameInRange(img, EntryAt(img, i)) && Basename(NameBytes(img, i)) == base)
  }

  /** The entry, unless its payload range is bad. */
  ghost function Served(img: seq<byte>, i: nat): Option<Item>
    requires Accepted(img) && i < CountOf(img)
  {
    EntryInside(img, i);
    var at := EntryAt(img, i);
    if DataInRange(img, at) then Some(ItemAt(img, at)) else None
  }

  /** initfs_modblob_get: the first entry with this path, else the first with this last
      component. */
  ghost function GetSpec(img: seq<byte>, path: seq<byte>): Option<Item>
    requires Accepted(img)
  {
    Validated(img);
    match First(MatchFlags(img, path))
    case Some(i) => Served(img, i)
    case None =>
      if Basename(path) == [] then None
      else match First(BaseFlags(img, Basename(path))) case Some(i) => Served(img, i) case None => None
  }

  // ---------------------------------------------------------------- agreement with the writer

  /** The reader accepts every image the writer lays out. */
  lemma ImageAccepted(a: Archive)
    requires Shaped(a) && Total(a) < TWO32
    ensures |Image(a)| == Total(a) && Accepted(Image(a)) && CountOf(Image(a)) == |a.metas|
    ensures U32At(Image(a), 16) == HEADER_SIZE && U32At(Image(a), 20) == NamesOff(a) && U32At(Image(a), 24) == |a.names|
  {
    hide Image, U32At, Crc, Offset, AlignUp, Pack, Validate, Total;
    SizesFit(a);
    HeaderWord(a, 0);
    HeaderWord(a, 1);
    HeaderWord(a, 2);
    HeaderWord(a, 3);
    HeaderWord(a, 4);
    HeaderWord(a, 5);
    HeaderWord(a, 6);
    ChecksumMatches(a);
    WordsAccepted(Image(a));
  }

  lemma WordsAccepted(img: seq<byte>)
    requires HEADER_SIZE <= |img| < TWO32 && U32At(img, 0) == MAGIC && U32At(img, 4) == VERSION
      && U32At(img, 8) == |img|
    requires U32At(img, 16) == HEADER_SIZE && U32At(img, 20) == HEADER_SIZE + ENTRY_SIZE * U32At(img, 12)
    requires U32At(img, 20) + U32At(img, 24) <= |img| && U32At(img, 28) == Crc(img)
    ensures Validate(img) == 0
  { hide U32At, Crc; }

  lemma ChecksumMatches(a: Archive)
    requires Shaped(a) && Total(a) < TWO32
    ensures |Image(a)| >= HEADER_SIZE && U32At(Image(a), CKSUM_OFF) == Crc(Image(a))
  {
    hide U32At, CrcFold, CrcFinish, Pack, Unsummed;
    SizesFit(a);
    var u := Unsummed(a);
    SetInside(u, CKSUM_OFF, Crc(u));
    SetTwice(u, CKSUM_OFF, Crc(u), 0);
  }

  /** Entry i of a written image: its path is the stored name, up to the terminating zero, and
      its payload is blob i. */
  lemma AtImage(a: Archive, i: nat)
    requires Shaped(a) && Total(a) < TWO32 && i < |a.metas| && NamesInside(a)
    ensures Accepted(Image(a)) && CountOf(Image(a)) == |a.metas| && |Image(a)| == Total(a)
    ensures AtSpec(Image(a), i) == Some(Item(NamesOff(a) + a.metas[i].nameOff, Offset(a, i), |a.blobs[i]|))
    ensures Offset(a, i) + |a.blobs[i]| <= Total(a) && Image(a)[Offset(a, i)..Offset(a, i) + |a.blobs[i]|] == a.blobs[i]
    ensures NameBytes(Image(a), i) == NameOf(a, i)
  {
    hide Image, U32At, Offset, AlignUp, Pack, Validate, Slice, NameInRange, DataInRange, Accepted;
    ImageAccepted(a);
    BlobAt(a, i);
    ItemWords(a, i);
    EntryInside(Image(a), i);
    RangesGood(a, i);
    NameInImage(a, i);
  }

  lemma ItemWords(a: Archive, i: nat)
    requires Shaped(a) && Total(a) < TWO32 && i < |a.metas|
    ensures |Image(a)| == Total(a) && Offset(a, i) + |a.blobs[i]| <= Total(a)
    ensures var img, at := Image(a), HEADER_SIZE + ENTRY_SIZE * i;
      && at + ENTRY_SIZE <= |img| && EntryAt(img, i) == at
      && U32At(img, at) == a.metas[i].nameOff && U32At(img, at + 4) == a.metas[i].nameLen
      && U32At(img, at + 8) == Offset(a, i) && U32At(img, at + 12) == |a.blobs[i]|
  {
    hide Image, U32At, Offset, AlignUp, Pack, Validate;
    HeaderWord(a, 4);
    EntryWord(a, i, 0);
    EntryWord(a, i, 1);
    EntryWord(a, i, 2);
    EntryWord(a, i, 3);
    EntryWord(a, i, 5);
  }

  lemma RangesGood(a: Archive, i: nat)
    requires Shaped(a) && Total(a) < TWO32 && i < |a.metas| && NamesInside(a)
    ensures HEADER_SIZE <= |Image(a)| < TWO32 && HEADER_SIZE + ENTRY_SIZE * i + ENTRY_SIZE <= |Image(a)|
    ensures NameInRange(Image(a), HEADER_SIZE + ENTRY_SIZE * i) && DataInRange(Image(a), HEADER_SIZE + ENTRY_SIZE * i)
  {
    hide Image, U32At, Offset, AlignUp, Validate;
    ItemWords(a, i);
    HeaderWord(a, 6);
  }

  lemma NameInImage(a: Archive, i: nat)
    requires Shaped(a) && Total(a) < TWO32 && i < |a.metas| && NamesInside(a)
    ensures Accepted(Image(a)) && CountOf(Image(a)) == |a.metas| && NameBytes(Image(a), i) == NameOf(a, i)
  {
    hide Image, U32At, Offset, AlignUp, Validate, Slice;
    ImageAccepted(a);
    ItemWords(a, i);
    NamesRead(a);
    NameSlice(Image(a), NamesOff(a), a.names, a.metas[i]);
  }

  lemma NameSlice(img: seq<byte>, off: nat, names: seq<byte>, m: Meta)
    requires Slice(img, off, off + |names|) == names && m.nameOff + m.nameLen <= |names|
    ensures Slice(img, off + m.nameOff, off + m.nameOff + m.nameLen) == Slice(names, m.nameOff, m.nameOff + m.nameLen)
  { if m.nameLen > 0 { SliceOfSlice(img, off, |names|, m.nameOff, m.nameLen); } }

  /** A name that the packer terminated reads back as a C string. */
  lemma {:induction false} TerminatedName(b: seq<byte>, at: nat, n: nat)
    requires at + n < |b| && b[at + n] == 0 && forall k | at <= k < at + n :: b[k] != 0
    ensures CString(b, at) == b[at..at + n]
    decreases n
  {
    if n > 0 {
      TerminatedName(b, at + 1, n - 1);
      assert b[at..at + n] == [b[at]] + b[at + 1..at + n];
    }
  }

  /** The path pointer of entry i of a written image is the C string of its name, when the
      packer ended the name with a zero. */
  lemma PathReadsBack(a: Archive, i: nat)
    requires Shaped(a) && Total(a) < TWO32 && i < |a.metas|
    requires a.metas[i].nameOff + a.metas[i].nameLen < |a.names|
    requires a.names[a.metas[i].nameOff + a.metas[i].nameLen] == 0 && 0 !in NameOf(a, i)
    ensures NamesOff(a) + a.metas[i].nameOff <= |Image(a)|
    ensures CString(Image(a), NamesOff(a) + a.metas[i].nameOff) == NameOf(a, i)
  {
    hide Image, Total, Offset, AlignUp, Slice;
    ImageParts(a);
    NameText(a, i);
    NamesAre(Image(a), NamesOff(a), a.names, a.metas[i].nameOff, a.metas[i].nameLen);
  }

  lemma NameText(a: Archive, i: nat)
    requires i < |a.metas| && a.metas[i].nameOff + a.metas[i].nameLen <= |a.names|
    ensures NameOf(a, i) == a.names[a.metas[i].nameOff..][..a.metas[i].nameLen]
  {}

  lemma NamesAre(img: seq<byte>, off: nat, names: seq<byte>, lo: nat, n: nat)
    requires off + |names| <= |img| && img[off..off + |names|] == names && lo + n < |names| && names[lo + n] == 0
      && 0 !in names[lo..][..n]
    ensures CString(img, off + lo) == names[lo..][..n]
  {
    forall k | 0 <= k < |names| ensures img[off + k] == names[k] { assert img[off..off + |names|][k] == names[k]; }
    forall k | off + lo <= k < off + lo + n ensures img[k] != 0 { assert names[lo..][..n][k - off - lo] == img[k]; }
    TerminatedName(img, off + lo, n);
  }

  /** Every valid archive is well formed for the writer. */
  lemma ValidIsWellFormed(img: seq<byte>)
    requires ValidArchive(img)
    ensures WellFormed(img)
  {
    hide U32At, Validate;
    Validated(img);
    var a := Parse(img);
    forall i: nat | i < |a.metas| ensures a.metas[i].nameOff + a.metas[i].nameLen <= U32At(img, 24) {
      assert AtSpec(img, i).Some?;
      EntryInside(img, i);
      NoWrap(U32At(img, EntryAt(img, i)), U32At(img, EntryAt(img, i) + 4));
    }
  }

  lemma NoWrap(a: u32, b: u32)
    ensures Sum32(a, b) >= a <==> a + b < TWO32
    ensures a + b < TWO32 ==> Sum32(a, b) == a + b
  {}

  /** Repacking any valid archive gives a valid archive in which entry i has its original name
      and its original payload, signed if it is a module. */
  lemma RepackRoundTrip(img: seq<byte>, vermagic: u32, sign: seq<byte> -> seq<byte>, i: nat)
    requires ValidArchive(img) && Readable(img) && i < CountOf(img)
    requires Repacked(img, vermagic, sign).Some?
    ensures var out := Repacked(img, vermagic, sign).value;
      && ValidArchive(out) && CountOf(out) == CountOf(img) && AtSpec(out, i).Some?
      && NameBytes(out, i) == NameBytes(img, i)
      && var it := AtSpec(out, i).value;
         && it.data % DATA_ALIGN == 0 && it.data + it.size <= |out|
         && out[it.data..it.data + it.size] == Signed(NameBytes(img, i), Parse(img).blobs[i], vermagic, sign)
         && (forall j: nat | i < j < CountOf(img) && AtSpec(out, j).Some? ::
           it.data + it.size <= AtSpec(out, j).value.data)
  {
    hide U32At, Validate, Image, Parse, Signed, Slice, Offset, NameBytes, Total;
    ValidIsWellFormed(img);
    var a := SignAll(Parse(img), vermagic, sign);
    var out := Image(a);
    AtImage(a, i);
    NameIsParsed(img, i);
    forall j: nat | j < CountOf(img) ensures AtSpec(out, j).Some? { AtImage(a, j); }
    forall j: nat | i < j < CountOf(img) ensures Offset(a, i) + |a.blobs[i]| <= AtSpec(out, j).value.data {
      AtImage(a, j);
      PayloadsDisjoint(a, i, j);
    }
    assert NameOf(a, i) == NameOf(Parse(img), i);
  }

  lemma NameIsParsed(img: seq<byte>, i: nat)
    requires Accepted(img) && WellFormed(img) && i < CountOf(img)
    ensures NameBytes(img, i) == NameOf(Parse(img), i)
  {
    hide U32At, Validate, Slice;
    EntryInside(img, i);
    NameRead(img, i);
  }

  /** Looking up the name of entry i in a written image serves the first entry of that name. */
  lemma GetImage(a: Archive, i: nat) returns (k: nat)
    requires Shaped(a) && Total(a) < TWO32 && i < |a.metas| && NamesInside(a)
    ensures Accepted(Image(a))
    ensures k <= i && NameOf(a, k) == NameOf(a, i) && (forall j: nat | j < k :: NameOf(a, j) != NameOf(a, i))
    ensures GetSpec(Image(a), NameOf(a, i)) == Some(Item(NamesOff(a) + a.metas[k].nameOff, Offset(a, k), |a.blobs[k]|))
  {
    hide U32At, Validate, Image, Slice, Offset, NameBytes, Total, MatchFlags, BaseFlags, Accepted, NameOf;
    var img, name := Image(a), NameOf(a, i);
    ImageAccepted(a);
    var f := MatchFlags(img, name);
    forall j: nat | j < |a.metas| ensures f[j] <==> NameOf(a, j) == name { MatchImage(a, name, j); }
    assert f[i];
    k := First(f).value;
    ServedImage(a, k);
  }

  lemma MatchImage(a: Archive, name: seq<byte>, j: nat)
    requires Shaped(a) && Total(a) < TWO32 && j < |a.metas| && NamesInside(a)
    ensures Accepted(Image(a)) && CountOf(Image(a)) == |a.metas|
      && (MatchFlags(Image(a), name)[j] <==> NameOf(a, j) == name)
  {
    hide U32At, Validate, Image, Slice, Offset, NameBytes, Total, NameInRange, Accepted;
    NameInImage(a, j);
    RangesGood(a, j);
    ItemWords(a, j);
  }

  lemma ServedImage(a: Archive, k: nat)
    requires Shaped(a) && Total(a) < TWO32 && k < |a.metas| && NamesInside(a)
    ensures Accepted(Image(a)) && CountOf(Image(a)) == |a.metas|
    ensures Served(Image(a), k) == Some(Item(NamesOff(a) + a.metas[k].nameOff, Offset(a, k), |a.blobs[k]|))
  {
    hide U32At, Validate, Image, Slice, Offset, Total, DataInRange, Accepted;
    ImageAccepted(a);
    RangesGood(a, k);
    ItemWords(a, k);
  }

  // ---------------------------------------------------------------- the staged image

  class ModBlob {
    const stage: array<byte>
    var size: nat
    var ready: bool

    ghost function Img(): seq<byte>
      reads this, stage
      requires size <= stage.Length
    { stage[..size] }

    ghost predicate Valid()
      reads this, stage
    { stage.Length == MAX_IMAGE && size <= MAX_IMAGE && (ready ==> Accepted(Img())) }

    constructor ()
      ensures Valid() && !ready && fresh(stage)
    {
      stage := new byte[MAX_IMAGE](_ => 0);
      size, ready := 0, false;
    }

    /** compute_image_crc32: the checksum field counts as zero. */
    method ImageCrc(img: seq<byte>) returns (c: u32)
      requires |img| >= HEADER_SIZE
      ensures c == Crc(img)
    {
      hide CrcStep, CrcFinish, Pack;
      ghost var z := SetU32(img, CKSUM_OFF, 0);
      assert Pack(0) == [0, 0, 0, 0] by { ZeroWord(); }
      var acc: bv32, i := 0xFFFF_FFFF, 0;
      assert z[..0] == [];
      while i < |img|
        invariant 0 <= i <= |img| && acc == CrcFold(z[..i])
      {
        var b := img[i];
        if CKSUM_OFF <= i < CKSUM_OFF + 4 { b := 0; }
        assert b == z[i];
        assert z[..i + 1][..i] == z[..i];
        acc := CrcStep(acc, b);
        i := i + 1;
      }
      assert z[..|img|] == z;
      c := CrcFinish(acc);
    }

    /** validate_header */
    method ValidateHeader(img: seq<byte>) returns (rc: int)
      requires |img| <= MAX_IMAGE
      ensures rc == Validate(img)
    {
      hide U32At, Crc;
      if |img| < HEADER_SIZE { return -1; }
      if U32At(img, 0) != MAGIC { return -2; }
      if U32At(img, 4) != VERSION { return -3; }
      if U32At(img, 8) != |img| { return -4; }
      if U32At(img, 16) < HEADER_SIZE { return -5; }
      var end := Sum32(U32At(img, 20), U32At(img, 24));
      if end < U32At(img, 20) || end > |img| { return -6; }
      if U32At(img, 12) > COUNT_MAX { return -7; }
      var last := Sum32(U32At(img, 16), ENTRY_SIZE * U32At(img, 12));
      if last < U32At(img, 16) || last > U32At(img, 20) { return -7; }
      if U32At(img, 28) != 0 {
        var expected := ImageCrc(img);
        if U32At(img, 28) != expected { return -8; }
      }
      return 0;
    }

    /** initfs_modblob_load with the module's bytes; None is a null address. It is called once, at
        boot. A second call that is refused by the header check leaves an empty image marked
        ready. */
    method Load(source: Option<seq<byte>>) returns (rc: int)
      requires Valid()
      modifies this, stage
      ensures source.None? || source.value == [] ==> rc == -1
      ensures source.Some? && |source.value| > MAX_IMAGE ==> rc == -2
      ensures source.Some? && 0 < |source.value| <= MAX_IMAGE ==> rc == Validate(source.value)
      ensures rc == 0 ==> Valid() && ready && source.Some? && Img() == source.value
      ensures source.None? || source.value == [] || |source.value| > MAX_IMAGE ==>
        Valid() && ready == old(ready) && size == old(size) && stage[..] == old(stage[..])
      ensures source.Some? && 0 < |source.value| <= MAX_IMAGE && rc != 0 ==>
        size == 0 && ready == old(ready) && (Valid() <==> !old(ready))
    {
      hide Validate;
      if source.None? || source.value == [] { return -1; }
      var m := source.value;
      if |m| > MAX_IMAGE { return -2; }
      forall k | 0 <= k < |m| { stage[k] := m[k]; }
      assert stage[..|m|] == m;
      size := |m|;
      rc := ValidateHeader(m);
      if rc != 0 {
        size := 0;
        NothingAccepted();
        assert stage[..0] == [];
        return rc;
      }
      ready := true;
    }

    /** initfs_modblob_at */
    method At(idx: int) returns (r: Option<Item>)
      requires Valid()
      ensures r == if ready then AtSpec(Img(), idx) else None
    {
      hide Validate, U32At;
      if !ready { return None; }
      var img := stage[..size];
      Validated(img);
      if idx < 0 || idx >= CountOf(img) { return None; }
      EntryInside(img, idx);
      var at := EntryAt(img, idx);
      if !DataInRange(img, at) { return None; }
      if !NameInRange(img, at) { return None; }
      return Some(ItemAt(img, at));
    }

    /** name_eq: `want` is a C string. */
    method NameEq(want: seq<byte>, blob: seq<byte>, off: nat, len: nat) returns (eq: bool)
      requires off + len <= |blob| && 0 !in want
      ensures eq <==> want == blob[off..off + len]
    {
      ghost var part := blob[off..off + len];
      var i := 0;
      while i < len
        invariant 0 <= i <= len && i <= |want| && forall j | 0 <= j < i :: want[j] == part[j]
      {
        if i == |want| { return false; }
        assert part[i] == blob[off + i];
        if want[i] != blob[off + i] { return false; }
        i := i + 1;
      }
      eq := |want| == len;
    }

    /** basename_of, on a slice of the blob or on the path. */
    method BasenameAt(s: seq<byte>) returns (k: nat)
      ensures k <= |s| && s[k..] == Basename(s)
    {
      hide Basename;
      k := 0;
      var i := 0;
      BasenameEmpty();
      assert s[..0] == [] == s[0..0];
      while i < |s|
        invariant 0 <= k <= i <= |s| && s[k..i] == Basename(s[..i])
      {
        BasenameNext(s, k, i);
        if s[i] == SLASH { k := i + 1; }
        i := i + 1;
      }
      assert s[..|s|] == s && s[k..|s|] == s[k..];
    }

    method MatchesName(img: seq<byte>, off: nat, len: nat, want: seq<byte>, base: bool) returns (m: bool)
      requires off + len <= |img| && 0 !in want
      ensures m == (want == if base then Basename(img[off..off + len]) else img[off..off + len])
    {
      hide Basename;
      var k: nat := 0;
      if base { k := BasenameAt(img[off..off + len]); }
      Tail(img, off, len, k);
      m := NameEq(want, img, off + k, len - k);
    }

    /** Does entry i match, by full path or by last component? */
    method Matches(img: seq<byte>, i: nat, want: seq<byte>, base: bool) returns (m: bool)
      requires Accepted(img) && 0 !in want && i < CountOf(img)
      ensures m == (if base then BaseFlags(img, want) else MatchFlags(img, want))[i]
    {
      hide Validate, U32At, Slice, Basename, BaseFlags, MatchFlags, Accepted, NameInRange;
      EntryThere(img, i);
      var at := EntryAt(img, i);
      FlagIs(img, i, want);
      if !NameInRange(img, at) { return false; }
      NameWhere(img, i);
      m := MatchesName(img, U32At(img, 20) + U32At(img, at), U32At(img, at + 4), want, base);
    }

    /** One pass of initfs_modblob_get over the table. */
    method Scan(img: seq<byte>, want: seq<byte>, base: bool) returns (r: Option<nat>)
      requires Accepted(img) && 0 !in want
      ensures r == First(if base then BaseFlags(img, want) else MatchFlags(img, want))
    {
      hide BaseFlags, MatchFlags, U32At, Validate;
      Validated(img);
      ghost var f := if base then BaseFlags(img, want) else MatchFlags(img, want);
      var i := 0;
      while i < CountOf(img)
        invariant 0 <= i <= CountOf(img) && forall j | 0 <= j < i :: !f[j]
      {
        var m := Matches(img, i, want, base);
        if m { return Some(i); }
        i := i + 1;
      }
      return None;
    }

    /** initfs_modblob_get; None is a null path. */
    method Get(path: Option<seq<byte>>) returns (r: Option<Item>)
      requires Valid() && (path.Some? ==> 0 !in path.value)
      ensures r == if ready && path.Some? then GetSpec(Img(), path.value) else None
    {
      hide Validate, U32At, MatchFlags, BaseFlags, Basename;
      if !ready || path.None? { return None; }
      var img := stage[..size];
      Validated(img);
      var i := Scan(img, path.value, false);
      if i.None? {
        var k := BasenameAt(path.value);
        if path.value[k..] == [] { return None; }
        i := Scan(img, path.value[k..], true);
        if i.None? { return None; }
      }
      EntryInside(img, i.value);
      var at := EntryAt(img, i.value);
      if !DataInRange(img, at) { return None; }
      return Some(ItemAt(img, at));
    }
  }

  lemma NothingAccepted()
    ensures !Accepted([])
  {}

  lemma EntryThere(img: seq<byte>, i: nat)
    requires Accepted(img) && i < CountOf(img)
    ensures |img| >= HEADER_SIZE && EntryAt(img, i) + ENTRY_SIZE <= |img|
  { hide U32At; Validated(img); EntryInside(img, i); }

  lemma FlagIs(img: seq<byte>, i: nat, want: seq<byte>)
    requires Accepted(img) && i < CountOf(img) && EntryAt(img, i) + ENTRY_SIZE <= |img|
    ensures MatchFlags(img, want)[i] <==> NameInRange(img, EntryAt(img, i)) && NameBytes(img, i) == want
    ensures BaseFlags(img, want)[i] <==> NameInRange(img, EntryAt(img, i)) && Basename(NameBytes(img, i)) == want
  { hide U32At, Validate, NameBytes, Basename, NameInRange; }

  lemma Tail(img: seq<byte>, off: nat, len: nat, k: nat)
    requires off + len <= |img| && k <= len
    ensures img[off..off + len][k..] == img[off + k..off + len]
      && (k == 0 ==> img[off..off + len][k..] == img[off..off + len])
  {}

  lemma BasenameEmpty()
    ensures Basename([]) == []
  {}

  lemma BasenameNext(s: seq<byte>, k: nat, i: nat)
    requires k <= i < |s| && s[k..i] == Basename(s[..i])
    ensures Basename(s[..i + 1]) == if s[i] == SLASH then s[i + 1..i + 1] else s[k..i + 1]
  {
    hide Basename;
    BasenameSnoc(s[..i], s[i]);
    assert s[..i + 1] == s[..i] + [s[i]];
    assert s[k..i + 1] == s[k..i] + [s[i]];
  }

  lemma BasenameSnoc(s: seq<byte>, c: byte)
    ensures Basename(s + [c]) == if c == SLASH then [] else Basename(s) + [c]
  { assert (s + [c])[..|s|] == s; }

  lemma ZeroWord()
    ensures Pack(0) == [0, 0, 0, 0]
  {}

  /** A name in range is a plain slice of the image. */
  lemma NameWhere(img: seq<byte>, i: nat)
    requires Accepted(img) && i < CountOf(img) && EntryAt(img, i) + ENTRY_SIZE <= |img|
      && NameInRange(img, EntryAt(img, i))
    ensures var off, len := U32At(img, 20) + U32At(img, EntryAt(img, i)), U32At(img, EntryAt(img, i) + 4);
      off + len <= |img| && NameBytes(img, i) == img[off..off + len]
  {
    hide U32At, Validate;
    Validated(img);
    NoWrap(U32At(img, EntryAt(img, i)), U32At(img, EntryAt(img, i) + 4));
  }
}
