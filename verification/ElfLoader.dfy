/** Loading the PT_LOAD segments of an i386 ELF file, one page at a time, and the start of the
    program break. Memory is the map from page addresses to page contents. */
module ElfLoader {
  import opened Common

  const PAGE_SIZE: nat := 4096
  const USER_STACK_TOP: nat := 0xC000_0000
  const RESERVED_END: nat := 0x2000_0000
  const USER_FRAME_CEIL: nat := 0x8000_0000
  const ELF_MAGIC: nat := 0x464C457F
  const EHDR_SIZE: nat := 52
  const PHDR_SIZE: nat := 32
  const PT_LOAD: nat := 1

  datatype Ehdr = Ehdr(magic: u32, class_: byte, data: byte, version: byte, machine: nat, entry: u32, phoff: u32,
    phentsize: nat, phnum: nat)
  datatype Phdr = Phdr(kind: u32, offset: u32, vaddr: u32, filesz: u32, memsz: u32)

  type Memory = map<nat, seq<byte>>

  function U16At(b: seq<byte>, off: nat): nat
    requires off + 2 <= |b|
  { (b[off] as int) + 256 * (b[off + 1] as int) }

  function ParseEhdr(b: seq<byte>): Ehdr
    requires |b| == EHDR_SIZE
  { Ehdr(U32At(b, 0), b[4], b[5], b[6], U16At(b, 18), U32At(b, 24), U32At(b, 28), U16At(b, 42), U16At(b, 44)) }

  function ParsePhdr(b: seq<byte>): Phdr
    requires |b| == PHDR_SIZE
  { Phdr(U32At(b, 0), U32At(b, 4), U32At(b, 8), U32At(b, 16), U32At(b, 20)) }

  /** The header as read: a short file leaves the rest of the buffer as it was. */
  function HeaderBytes(file: seq<byte>, junk: seq<byte>): (b: seq<byte>)
    requires |junk| == EHDR_SIZE
    ensures |b| == EHDR_SIZE
  { if |file| >= EHDR_SIZE then file[..EHDR_SIZE] else file + junk[|file|..] }

  /** The program header table lies in the file and its entries are large enough. */
  predicate TableOk(h: Ehdr, size: nat) { h.phentsize >= PHDR_SIZE && h.phoff + h.phnum * h.phentsize <= size }

  predicate HeaderOk(h: Ehdr, size: nat) {
    h.magic == ELF_MAGIC && h.class_ == 1 && h.data == 1 && h.version == 1 && h.machine == 3 && TableOk(h, size)
  }

  function PhdrAt(file: seq<byte>, h: Ehdr, i: nat): Phdr
    requires TableOk(h, |file|) && i < h.phnum
  {
    PhdrInside(h, |file|, i);
    ParsePhdr(file[h.phoff + i * h.phentsize..h.phoff + i * h.phentsize + PHDR_SIZE])
  }

  lemma PhdrInside(h: Ehdr, size: nat, i: nat)
    requires TableOk(h, size) && i < h.phnum
    ensures h.phoff + i * h.phentsize + PHDR_SIZE <= size
  { assert (i + 1) * h.phentsize <= h.phnum * h.phentsize; }

  // ---------------------------------------------------------------- segments

  function PageDown(a: nat): (r: nat)
    ensures r % PAGE_SIZE == 0 && r <= a < r + PAGE_SIZE
  { a / PAGE_SIZE * PAGE_SIZE }

  /** Loaded: a PT_LOAD with memory, whose end does not wrap past 4 GiB. */
  predicate Loaded(p: Phdr) {
    p.kind == PT_LOAD && p.memsz != 0 && p.vaddr + p.memsz < TWO32 && p.vaddr + p.filesz < TWO32
  }

  function SegStart(p: Phdr): nat { PageDown(p.vaddr) }

  /** The rounded end is computed in 32 bits. */
  function SegEnd(p: Phdr): nat { PageDown((p.vaddr + p.memsz + 0xFFF) % TWO32) }

  /** _elf_seg_ok */
  predicate SegOk(start: nat, end: nat) {
    && start <= end <= USER_STACK_TOP && start >= PAGE_SIZE
    && !(start < USER_FRAME_CEIL && end > RESERVED_END)
  }

  /** The check accepts exactly the ranges inside one of the two user windows. */
  lemma SegOkIff(start: nat, end: nat)
    requires start < end
    ensures SegOk(start, end) <==>
      (PAGE_SIZE <= start && end <= RESERVED_END)
      || (USER_FRAME_CEIL <= start && end <= USER_STACK_TOP)
  {}

  predicate Covers(p: Phdr, va: nat) { va % PAGE_SIZE == 0 && SegStart(p) <= va < SegEnd(p) }

  /** A byte of the file; past its end a read stops and the buffer keeps its zeros. */
  function FileByte(file: seq<byte>, off: nat): byte { if off < |file| then file[off] else 0 }

  function CopyStart(p: Phdr, va: nat): nat { if va > p.vaddr then va else p.vaddr }
  function CopyEnd(p: Phdr, va: nat): nat {
    if va + PAGE_SIZE < p.vaddr + p.filesz then va + PAGE_SIZE else p.vaddr + p.filesz
  }

  predicate Copies(p: Phdr, va: nat) { va < p.vaddr + p.filesz && CopyEnd(p, va) > CopyStart(p, va) }

  function CopyFrom(p: Phdr, va: nat): nat
    requires CopyStart(p, va) >= p.vaddr
  { (p.offset + (CopyStart(p, va) - p.vaddr)) % TWO32 }

  /** The page's content: file bytes where the copy reaches, zero elsewhere. */
  function ByteOf(file: seq<byte>, p: Phdr, va: nat, k: nat): byte {
    if Copies(p, va) && CopyStart(p, va) <= va + k < CopyEnd(p, va)
    then FileByte(file, CopyFrom(p, va) + (va + k - CopyStart(p, va))) else 0
  }

  function PageOf(file: seq<byte>, p: Phdr, va: nat): (r: seq<byte>)
    ensures |r| == PAGE_SIZE
  { seq(PAGE_SIZE, k requires 0 <= k < PAGE_SIZE => ByteOf(file, p, va, k)) }

  /** Reading starts inside the file, or there is nothing to read. */
  predicate PageReads(file: seq<byte>, p: Phdr, va: nat) { Copies(p, va) ==> CopyFrom(p, va) < |file| }

  function Pages(p: Phdr): nat { if SegEnd(p) > SegStart(p) then (SegEnd(p) - SegStart(p)) / PAGE_SIZE else 0 }

  function PageAt(p: Phdr, n: nat): nat { SegStart(p) + n * PAGE_SIZE }

  /** Memory after the first n pages of a segment are mapped. */
  function MapPages(mem: Memory, file: seq<byte>, p: Phdr, n: nat): Memory {
    if n == 0 then mem else MapPages(mem, file, p, n - 1)[PageAt(p, n - 1) := PageOf(file, p, PageAt(p, n - 1))]
  }

  function MapSeg(mem: Memory, file: seq<byte>, p: Phdr): Memory {
    if Loaded(p) then MapPages(mem, file, p, Pages(p)) else mem
  }

  /** Memory after the segments, in table order; a later one replaces pages it shares. */
  function MapSegs(file: seq<byte>, ps: seq<Phdr>): Memory {
    if ps == [] then map[] else MapSeg(MapSegs(file, ps[..|ps| - 1]), file, ps[|ps| - 1])
  }

  predicate SegLoads(file: seq<byte>, p: Phdr) {
    Loaded(p) ==> SegOk(SegStart(p), SegEnd(p)) && forall n | 0 <= n < Pages(p) :: PageReads(file, p, PageAt(p, n))
  }

  function Frames(p: Phdr): nat { if Loaded(p) then Pages(p) else 0 }

  function FramesFor(ps: seq<Phdr>): nat {
    if ps == [] then 0 else FramesFor(ps[..|ps| - 1]) + Frames(ps[|ps| - 1])
  }

  function Table(file: seq<byte>, h: Ehdr): (ps: seq<Phdr>)
    requires TableOk(h, |file|)
    ensures |ps| == h.phnum
  { seq(h.phnum, i requires 0 <= i < h.phnum => PhdrAt(file, h, i)) }

  /** When loading succeeds. */
  ghost predicate Loads(file: seq<byte>, h: Ehdr, frames: nat) {
    && file != [] && HeaderOk(h, |file|)
    && (forall i | 0 <= i < h.phnum :: SegLoads(file, Table(file, h)[i]))
    && FramesFor(Table(file, h)) <= frames
  }

  // ---------------------------------------------------------------- the loader

  /** read_vfs into a page. */
  method ReadInto(p: array<byte>, at: nat, file: seq<byte>, off: nat, n: nat) returns (rd: nat)
    requires at + n <= p.Length
    modifies p
    ensures rd == if off >= |file| then 0 else if off + n <= |file| then n else |file| - off
    ensures forall k | 0 <= k < p.Length ::
      p[k] == if at <= k < at + n && off + (k - at) < |file| then file[off + (k - at)] else old(p[k])
  {
    if off >= |file| { return 0; }
    rd := if off + n <= |file| then n else |file| - off;
    forall k | 0 <= k < rd { p[at + k] := file[off + k]; }
  }

  /** One page: zeroed, then the part of the file that falls into it. */
  method FillPage(file: seq<byte>, ph: Phdr, va: nat) returns (page: Option<seq<byte>>)
    requires Loaded(ph) && Covers(ph, va) && SegOk(SegStart(ph), SegEnd(ph))
    ensures page == if PageReads(file, ph, va) then Some(PageOf(file, ph, va)) else None
  {
    var p := new byte[PAGE_SIZE](_ => 0);
    var fileEnd := ph.vaddr + ph.filesz;
    if va < fileEnd {
      var copyStart := if va > ph.vaddr then va else ph.vaddr;
      var copyEnd := if va + PAGE_SIZE < fileEnd then va + PAGE_SIZE else fileEnd;
      if copyEnd > copyStart {
        var from := (ph.offset + (copyStart - ph.vaddr)) % TWO32;
        var rd := ReadInto(p, copyStart - va, file, from, copyEnd - copyStart);
        if rd <= 0 { return None; }
      }
    }
    assert p[..] == PageOf(file, ph, va);
    return Some(p[..]);
  }

  /** The page loop of one segment, as long as frames last. */
  method LoadSegment(file: seq<byte>, ph: Phdr, mem0: Memory, frames0: nat) returns (ok: bool, mem: Memory, frames: nat)
    requires Loaded(ph) && SegOk(SegStart(ph), SegEnd(ph))
    ensures ok <==> (forall n | 0 <= n < Pages(ph) :: PageReads(file, ph, PageAt(ph, n))) && Pages(ph) <= frames0
    ensures ok ==> mem == MapPages(mem0, file, ph, Pages(ph)) && frames == frames0 - Pages(ph)
  {
    hide PageReads, PageOf;
    mem, frames := mem0, frames0;
    var va, end := SegStart(ph), SegEnd(ph);
    ghost var n := 0;
    PageCount(ph);
    while va < end
      invariant 0 <= n <= Pages(ph) && va == PageAt(ph, n) && n <= frames0 && frames == frames0 - n
      invariant mem == MapPages(mem0, file, ph, n)
      invariant forall j | 0 <= j < n :: PageReads(file, ph, PageAt(ph, j))
      decreases Pages(ph) - n
    {
      if frames == 0 { return false, mem, frames; }
      PageCovered(ph, n);
      var page := FillPage(file, ph, va);
      if page.None? { return false, mem, frames; }
      mem := mem[va := page.value];
      frames, va, n := frames - 1, va + PAGE_SIZE, n + 1;
    }
    return true, mem, frames;
  }

  /** One turn of the header loop. */
  method LoadOne(file: seq<byte>, ph: Phdr, mem0: Memory, frames0: nat) returns (ok: bool, mem: Memory, frames: nat)
    ensures ok <==> SegLoads(file, ph) && Frames(ph) <= frames0
    ensures ok ==> mem == MapSeg(mem0, file, ph) && frames == frames0 - Frames(ph)
  {
    hide SegOk, PageReads, PageAt, Pages, MapPages;
    if ph.kind != PT_LOAD || ph.memsz == 0 { return true, mem0, frames0; }
    if (ph.vaddr + ph.memsz) % TWO32 < ph.vaddr { return true, mem0, frames0; }
    if (ph.vaddr + ph.filesz) % TWO32 < ph.vaddr { return true, mem0, frames0; }
    if !SegOk(SegStart(ph), SegEnd(ph)) { return false, mem0, frames0; }
    ok, mem, frames := LoadSegment(file, ph, mem0, frames0);
  }

  lemma PageCount(p: Phdr)
    requires SegStart(p) <= SegEnd(p)
    ensures SegEnd(p) == SegStart(p) + Pages(p) * PAGE_SIZE
  {}

  lemma PageCovered(p: Phdr, n: nat)
    requires n < Pages(p)
    ensures Covers(p, PageAt(p, n))
  {
    PageCount(p);
    assert PageAt(p, n) % PAGE_SIZE == 0;
  }

  /** load_elf on the file's bytes, with so many free frames: the entry point and the memory. */
  method LoadElf(file: seq<byte>, junk: seq<byte>, frames0: nat) returns (entry: Option<u32>, mem: Memory)
    requires |junk| == EHDR_SIZE
    ensures var h := ParseEhdr(HeaderBytes(file, junk));
      && (entry.Some? <==> Loads(file, h, frames0))
      && (entry.Some? ==> entry.value == h.entry && mem == MapSegs(file, Table(file, h)))
  {
    hide SegLoads, MapSeg, Frames, U32At, U16At, PhdrAt, HeaderBytes;
    mem := map[];
    if file == [] { return None, mem; }
    var h := ParseEhdr(HeaderBytes(file, junk));
    if h.magic != ELF_MAGIC || h.class_ != 1 || h.data != 1 || h.version != 1 || h.machine != 3 { return None, mem; }
    if h.phentsize < PHDR_SIZE { return None, mem; }
    if h.phoff + h.phnum * h.phentsize > |file| { return None, mem; }
    ghost var ps := Table(file, h);
    var frames, i := frames0, 0;
    assert ps[..0] == [];
    while i < h.phnum
      invariant 0 <= i <= h.phnum && mem == MapSegs(file, ps[..i])
      invariant forall j | 0 <= j < i :: SegLoads(file, ps[j])
      invariant FramesFor(ps[..i]) <= frames0 && frames == frames0 - FramesFor(ps[..i])
    {
      var ph := PhdrAt(file, h, i);
      assert ps[i] == ph && ps[..i + 1][..i] == ps[..i] && ps[..i + 1][i] == ph;
      var ok;
      ok, mem, frames := LoadOne(file, ph, mem, frames);
      if !ok { FramesGrow(ps, i + 1); return None, mem; }
      i := i + 1;
    }
    assert ps[..h.phnum] == ps;
    return Some(h.entry), mem;
  }

  lemma {:induction false} FramesGrow(ps: seq<Phdr>, i: nat)
    requires i <= |ps|
    ensures FramesFor(ps[..i]) <= FramesFor(ps)
    decreases |ps| - i
  {
    if i < |ps| {
      FramesGrow(ps, i + 1);
      assert ps[..i + 1][..i] == ps[..i];
    } else {
      assert ps[..i] == ps;
    }
  }

  /** elf_get_brk_start on a file whose header table is sound; 0 otherwise. */
  method BrkStart(file: seq<byte>, junk: seq<byte>) returns (brk: nat)
    requires |junk| == EHDR_SIZE
    ensures var h := ParseEhdr(HeaderBytes(file, junk));
      if file == [] || h.magic != ELF_MAGIC || !TableOk(h, |file|) then brk == 0
      else brk == PageDown(Highest(Table(file, h)) + PAGE_SIZE - 1)
  {
    hide SegOk, U32At, U16At;
    if file == [] { return 0; }
    var h := ParseEhdr(HeaderBytes(file, junk));
    if h.magic != ELF_MAGIC || h.phentsize < PHDR_SIZE { return 0; }
    if h.phoff + h.phnum * h.phentsize > |file| { return 0; }
    ghost var ps := Table(file, h);
    var highest, i := 0, 0;
    assert ps[..0] == [];
    while i < h.phnum
      invariant 0 <= i <= h.phnum && highest == Highest(ps[..i])
    {
      var ph := PhdrAt(file, h, i);
      assert ps[i] == ph && ps[..i + 1][..i] == ps[..i] && ps[..i + 1][i] == ph;
      if ph.kind == PT_LOAD && ph.vaddr + ph.memsz < TWO32 && SegOk(SegStart(ph), SegEnd(ph)) {
        if ph.vaddr + ph.memsz > highest { highest := ph.vaddr + ph.memsz; }
      }
      i := i + 1;
    }
    assert ps[..h.phnum] == ps;
    return PageDown(highest + PAGE_SIZE - 1);
  }

  function Highest(ps: seq<Phdr>): nat {
    if ps == [] then 0
    else
      var rest, p := Highest(ps[..|ps| - 1]), ps[|ps| - 1];
      if p.kind == PT_LOAD && p.vaddr + p.memsz < TWO32 && SegOk(SegStart(p), SegEnd(p)) && p.vaddr + p.memsz > rest
      then p.vaddr + p.memsz else rest
  }

  // ---------------------------------------------------------------- what loading yields

  lemma {:induction false} MapPagesAt(mem: Memory, file: seq<byte>, p: Phdr, n: nat, va: nat)
    requires n <= Pages(p)
    ensures var covered := Covers(p, va) && va < PageAt(p, n);
      && (va in MapPages(mem, file, p, n) <==> covered || va in mem)
      && (covered ==> MapPages(mem, file, p, n)[va] == PageOf(file, p, va))
      && (!covered && va in mem ==> MapPages(mem, file, p, n)[va] == mem[va])
  {
    hide PageOf;
    if n > 0 {
      MapPagesAt(mem, file, p, n - 1, va);
      PageCovered(p, n - 1);
      if PageAt(p, n - 1) < va < PageAt(p, n) { NotAligned(p, n - 1, va); }
    }
  }

  lemma NotAligned(p: Phdr, n: nat, va: nat)
    requires PageAt(p, n) < va < PageAt(p, n) + PAGE_SIZE
    ensures va % PAGE_SIZE != 0
  {
    assert SegStart(p) % PAGE_SIZE == 0;
    assert PageAt(p, n) % PAGE_SIZE == 0;
  }

  /** The last loaded segment, of the first k, whose pages include this one. */
  ghost function Last(ps: seq<Phdr>, va: nat): (r: Option<nat>)
    ensures r.Some? ==> r.value < |ps| && Loaded(ps[r.value]) && Covers(ps[r.value], va)
    ensures r.Some? ==> forall j | r.value < j < |ps| :: !(Loaded(ps[j]) && Covers(ps[j], va))
    ensures r.None? ==> forall j | 0 <= j < |ps| :: !(Loaded(ps[j]) && Covers(ps[j], va))
  {
    if ps == [] then None
    else if Loaded(ps[|ps| - 1]) && Covers(ps[|ps| - 1], va) then Some(|ps| - 1)
    else Last(ps[..|ps| - 1], va)
  }

  /** A page is mapped exactly when a loaded segment covers it, and its content is that of the
      last such segment. */
  lemma {:induction false} MemoryIs(file: seq<byte>, ps: seq<Phdr>, va: nat)
    ensures va in MapSegs(file, ps) <==> Last(ps, va).Some?
    ensures va in MapSegs(file, ps) ==> MapSegs(file, ps)[va] == PageOf(file, ps[Last(ps, va).value], va)
  {
    hide PageOf, Loaded, Covers, Pages, MapPages;
    if ps != [] {
      var n := |ps| - 1;
      MemoryIs(file, ps[..n], va);
      MapSegAt(MapSegs(file, ps[..n]), file, ps[n], va);
    }
  }

  lemma MapSegAt(mem: Memory, file: seq<byte>, p: Phdr, va: nat)
    ensures var covered := Loaded(p) && Covers(p, va);
      && (va in MapSeg(mem, file, p) <==> covered || va in mem)
      && (covered ==> MapSeg(mem, file, p)[va] == PageOf(file, p, va))
      && (!covered && va in mem ==> MapSeg(mem, file, p)[va] == mem[va])
  {
    hide PageOf, MapPages;
    if Loaded(p) {
      MapPagesAt(mem, file, p, Pages(p), va);
      if SegStart(p) <= SegEnd(p) { PageCount(p); }
    }
  }

  /** Every mapped page lies in the low reservation or in the window above the frames. */
  lemma PagesInUserSpace(file: seq<byte>, ps: seq<Phdr>, va: nat)
    requires (forall i | 0 <= i < |ps| :: SegLoads(file, ps[i])) && va in MapSegs(file, ps)
    ensures (PAGE_SIZE <= va && va + PAGE_SIZE <= RESERVED_END)
      || (USER_FRAME_CEIL <= va && va + PAGE_SIZE <= USER_STACK_TOP)
  {
    hide MapSegs, PageReads;
    MemoryIs(file, ps, va);
    var p := ps[Last(ps, va).value];
    assert SegLoads(file, p);
    CoveredPage(p, va);
  }

  lemma CoveredPage(p: Phdr, va: nat)
    requires Covers(p, va)
    ensures va + PAGE_SIZE <= SegEnd(p)
  {
    assert SegEnd(p) % PAGE_SIZE == 0;
    var a, b := va / PAGE_SIZE, SegEnd(p) / PAGE_SIZE;
    assert va == a * PAGE_SIZE && SegEnd(p) == b * PAGE_SIZE;
  }

  /** No two loaded segments share a page. */
  ghost predicate PageDisjoint(ps: seq<Phdr>) {
    forall i, j, va: nat | 0 <= i < j < |ps| && Loaded(ps[i]) && Loaded(ps[j]) && Covers(ps[i], va) ::
      !Covers(ps[j], va)
  }

  /** Every read a loaded segment asks for is complete. */
  ghost predicate CompleteReads(file: seq<byte>, ps: seq<Phdr>) {
    |file| < TWO32 && forall i | 0 <= i < |ps| && Loaded(ps[i]) :: ps[i].offset + ps[i].filesz <= |file|
  }

  /** The byte-level image: with page-disjoint segments and complete reads, each byte of a page
      of segment i is the file byte where the segment is file-backed, and zero elsewhere. */
  lemma ByteImage(file: seq<byte>, ps: seq<Phdr>, i: nat, va: nat, k: nat)
    requires PageDisjoint(ps) && CompleteReads(file, ps)
    requires i < |ps| && Loaded(ps[i]) && Covers(ps[i], va) && k < PAGE_SIZE
    ensures va in MapSegs(file, ps) && |MapSegs(file, ps)[va]| == PAGE_SIZE
    ensures var p, a := ps[i], va + k;
      if p.vaddr <= a < p.vaddr + p.filesz
      then p.offset + (a - p.vaddr) < |file| && MapSegs(file, ps)[va][k] == file[p.offset + (a - p.vaddr)]
      else MapSegs(file, ps)[va][k] == 0
  {
    hide MapSegs, Loaded, Covers;
    MemoryIs(file, ps, va);
    var l := Last(ps, va).value;
    assert l == i;
  }

  lemma {:induction false} HighestAbove(ps: seq<Phdr>, i: nat)
    requires i < |ps| && Loaded(ps[i]) && SegOk(SegStart(ps[i]), SegEnd(ps[i]))
    ensures ps[i].vaddr + ps[i].memsz <= Highest(ps)
  {
    hide SegOk;
    if i < |ps| - 1 { HighestAbove(ps[..|ps| - 1], i); }
  }

  /** The break starts at or above the end of every mapped page. */
  lemma BrkAbovePages(file: seq<byte>, ps: seq<Phdr>, va: nat)
    requires (forall i | 0 <= i < |ps| :: SegLoads(file, ps[i])) && va in MapSegs(file, ps)
    ensures va + PAGE_SIZE <= PageDown(Highest(ps) + PAGE_SIZE - 1)
  {
    hide MapSegs, PageReads, Highest, PageOf;
    MemoryIs(file, ps, va);
    var i := Last(ps, va).value;
    assert SegLoads(file, ps[i]);
    HighestAbove(ps, i);
    CoveredPage(ps[i], va);
    EndRounds(ps[i]);
    PageDownMonotone(ps[i].vaddr + ps[i].memsz + 0xFFF, Highest(ps) + PAGE_SIZE - 1);
  }

  lemma EndRounds(p: Phdr)
    requires Loaded(p) && SegOk(SegStart(p), SegEnd(p))
    ensures SegEnd(p) <= PageDown(p.vaddr + p.memsz + 0xFFF)
  {
    hide SegOk;
    PageDownMonotone((p.vaddr + p.memsz + 0xFFF) % TWO32, p.vaddr + p.memsz + 0xFFF);
  }

  lemma PageDownMonotone(a: nat, b: nat)
    requires a <= b
    ensures PageDown(a) <= PageDown(b)
  {}
}
