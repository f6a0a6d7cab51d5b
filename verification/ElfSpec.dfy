/**
 ELF32 executables: header checks, and the memory image of the loadable
 segments (Book I of the TIS ELF Specification 1.2, Program Header).
 */
module ElfSpec {
  import opened Machine
  import opened Words
  import opened PagingSpec
  import opened ProcessBuild

  const EHDR_SIZE: nat := 52
  const PHDR_SIZE: nat := 32
  const USER_BASE: nat := 0x100_0000
  const STACK_PAGE: nat := 0xB_FFFF

  function HalfAt(b: seq<u8>, off: nat): (h: u16)
    requires off + 2 <= |b|
  {
    FromLe16(b[off..off + 2])
  }

  datatype Ehdr = Ehdr(kind: u16, machine: u16, entry: u32, phoff: u32, phentsize: u16, phnum: u16)

  function EhdrOf(b: seq<u8>): (h: Ehdr)
    requires EHDR_SIZE <= |b|
  {
    Ehdr(HalfAt(b, 16), HalfAt(b, 18), WordAt(b, 24), WordAt(b, 28), HalfAt(b, 42), HalfAt(b, 44))
  }

  /** elf_validate: a 32-bit little-endian static i386 executable. */
  predicate Validates(b: seq<u8>) {
    && EHDR_SIZE <= |b|
    && b[0] == 0x7F && b[1] == 0x45 && b[2] == 0x4C && b[3] == 0x46
    && b[4] == 1 && b[5] == 1
    && var h := EhdrOf(b);
    && h.kind == 2 && h.machine == 3
    && h.phoff != 0 && h.phnum != 0 && h.phentsize >= PHDR_SIZE
    && Wrap32(h.phoff + h.phnum * h.phentsize) <= |b|
    && h.entry != 0
  }

  /** The sum in the check is taken modulo 2^32: the table lies in the file exactly when it does not wrap. */
  lemma TableInFile(b: seq<u8>)
    requires Validates(b) && |b| < TWO_32
    ensures var h := EhdrOf(b);
            h.phoff + h.phnum * h.phentsize <= |b| <==> h.phoff + h.phnum * h.phentsize < TWO_32
  {
  }

  /** The bytes of a file that is one header: entry point 1, and a table of one entry at offset 2^32 - 32. */
  function WrappedByte(i: nat): (x: u8) {
    match i
    case 0 => 0x7F
    case 1 => 0x45
    case 2 => 0x4C
    case 3 => 0x46
    case 4 => 1
    case 5 => 1
    case 6 => 1
    case 16 => 2
    case 18 => 3
    case 20 => 1
    case 24 => 1
    case 28 => 0xE0
    case 29 => 0xFF
    case 30 => 0xFF
    case 31 => 0xFF
    case 40 => 52
    case 42 => 32
    case 44 => 1
    case _ => 0
  }

  function WrappedFile(): (b: seq<u8>)
    ensures |b| == EHDR_SIZE && forall i :: 0 <= i < EHDR_SIZE ==> b[i] == WrappedByte(i)
  {
    seq(EHDR_SIZE, i requires i >= 0 => WrappedByte(i))
  }

  /** The check lets it through although its table lies outside of it. */
  lemma WrappedTable()
    ensures Validates(WrappedFile()) && EhdrOf(WrappedFile()) == Ehdr(2, 3, 1, 0xFFFF_FFE0, 32, 1)
    ensures EhdrOf(WrappedFile()).phoff + PHDR_SIZE > |WrappedFile()|
  {
    var b := WrappedFile();
    assert b[16..18] == [2, 0] && b[18..20] == [3, 0] && b[42..44] == [32, 0] && b[44..46] == [1, 0];
    assert b[24..28] == [1, 0, 0, 0] && b[28..32] == [0xE0, 0xFF, 0xFF, 0xFF];
  }

  // ----- Program headers

  datatype Phdr = Phdr(kind: u32, offset: u32, vaddr: u32, filesz: u32, memsz: u32, flags: u32)

  function PhdrAt(b: seq<u8>, off: nat): (p: Phdr)
    requires off + PHDR_SIZE <= |b|
  {
    Phdr(WordAt(b, off), WordAt(b, off + 4), WordAt(b, off + 8), WordAt(b, off + 16), WordAt(b, off + 20), WordAt(b, off + 24))
  }

  predicate TableFits(b: seq<u8>, h: Ehdr) {
    PHDR_SIZE <= h.phentsize && h.phoff + h.phnum * h.phentsize <= |b|
  }

  lemma EntryInTable(b: seq<u8>, h: Ehdr, i: nat)
    requires TableFits(b, h) && i < h.phnum
    ensures h.phoff + i * h.phentsize + PHDR_SIZE <= |b|
  {
    assert (i + 1) * h.phentsize <= h.phnum * h.phentsize;
    assert (i + 1) * h.phentsize == i * h.phentsize + h.phentsize;
  }

  /** The program header table. */
  function Phdrs(b: seq<u8>, h: Ehdr): (ps: seq<Phdr>)
    requires TableFits(b, h)
    ensures |ps| == h.phnum
  {
    seq(h.phnum, i requires 0 <= i < h.phnum => EntryInTable(b, h, i); PhdrAt(b, h.phoff + i * h.phentsize))
  }

  predicate Loads(p: Phdr) {
    p.kind == 1 && p.memsz != 0
  }

  predicate Writes(p: Phdr) {
    p.flags / 2 % 2 == 1
  }

  /** The checks load_segments makes on a loadable segment. */
  predicate Checks(p: Phdr, size: nat) {
    p.filesz <= p.memsz && Wrap32(p.offset + p.filesz) <= size && p.vaddr >= USER_BASE
  }

  /** This sum wraps too: a segment that passes reads inside the file exactly when its end does not wrap. */
  lemma FileRange(p: Phdr, size: nat)
    requires Checks(p, size) && size < TWO_32
    ensures p.offset + p.filesz <= size <==> p.offset + p.filesz < TWO_32
  {
  }

  /** A segment the checks let through although its contents lie outside a file of 100 bytes. */
  lemma WrappedSegment()
    ensures var p := Phdr(1, 0xFFFF_F000, 0x804_8000, 0x1000, 0x1000, 4);
            Loads(p) && Checks(p, 100) && p.offset > 100
  {
  }

  // ----- Pages of a segment

  function FirstPage(p: Phdr): (q: nat) {
    p.vaddr / 0x1000
  }

  /** One past the last page, in 32-bit arithmetic. */
  function EndPage(p: Phdr): (q: nat) {
    Wrap32(p.vaddr + p.memsz + 4095) / 0x1000
  }

  predicate OnPage(p: Phdr, q: nat) {
    FirstPage(p) <= q < EndPage(p)
  }

  /** Some byte of the segment lies on page `q`. */
  predicate Touches(p: Phdr, q: nat) {
    p.vaddr < 4096 * q + 4096 && 4096 * q < p.vaddr + p.memsz
  }

  /** The loop visits the pages the segment touches exactly when its end, rounded up, is below 4 GB. */
  lemma PagesAreTouched(p: Phdr)
    requires Loads(p)
    ensures (forall q: nat :: OnPage(p, q) <==> Touches(p, q)) <==> p.vaddr + p.memsz + 4095 < TWO_32
  {
    if p.vaddr + p.memsz + 4095 >= TWO_32 {
      var last := (p.vaddr + p.memsz - 1) / 0x1000;
      assert Touches(p, last);
      assert EndPage(p) <= 0xF_FFFF <= last;
    }
  }

  /** A segment ending in the last page of memory is accepted and not loaded at all. */
  lemma LastPageNotLoaded()
    ensures var p := Phdr(1, 0, 0xFFFF_F000, 0, 4096, 4);
            Loads(p) && Checks(p, 0) && Touches(p, 0xF_FFFF) && forall q: nat :: !OnPage(p, q)
  {
  }

  // ----- The flat image

  /** The byte the file format puts at address `v` of the segment: file contents, then zeros. */
  function FileByte(file: seq<u8>, p: Phdr, v: nat): (b: u8)
    requires p.offset + p.filesz <= |file|
  {
    if p.vaddr <= v < p.vaddr + p.filesz then file[p.offset + (v - p.vaddr)] else 0
  }

  /** The byte load_segments stores for address `v`; the end of the file contents is computed modulo 2^32. */
  function LoadedByte(file: seq<u8>, p: Phdr, v: nat): (b: u8)
    requires p.offset + p.filesz <= |file|
  {
    if p.vaddr <= v < Wrap32(p.vaddr + p.filesz) then file[p.offset + (v - p.vaddr)] else 0
  }

  /** That is the byte the format asks for, in every segment whose pages are all loaded. */
  lemma LoadedIsFile(file: seq<u8>, p: Phdr, v: nat)
    requires p.offset + p.filesz <= |file| && p.filesz <= p.memsz && p.vaddr + p.memsz + 4095 < TWO_32
    ensures LoadedByte(file, p, v) == FileByte(file, p, v)
  {
  }

  function PageBytes(file: seq<u8>, p: Phdr, q: nat): (b: seq<u8>)
    requires p.offset + p.filesz <= |file|
    ensures |b| == 4096 && forall o :: 0 <= o < 4096 ==> b[o] == LoadedByte(file, p, 4096 * q + o)
  {
    seq<u8>(4096, o requires 0 <= o < 4096 => LoadedByte(file, p, 4096 * q + o))
  }

  /** A loadable segment that passes the checks reads inside the file. */
  predicate InFile(p: Phdr, size: nat) {
    Loads(p) && Checks(p, size) ==> p.offset + p.filesz < TWO_32
  }

  predicate Apart(p: Phdr, p': Phdr) {
    Loads(p) && Loads(p') ==> EndPage(p) <= FirstPage(p') || EndPage(p') <= FirstPage(p)
  }

  /** No two segments share a page. */
  predicate PageDisjoint(ps: seq<Phdr>) {
    forall k, l :: 0 <= k < l < |ps| ==> Apart(ps[k], ps[l])
  }

  predicate AllPass(ps: seq<Phdr>, n: nat, size: nat)
    requires n <= |ps|
  {
    forall k :: 0 <= k < n && Loads(ps[k]) ==> Checks(ps[k], size) && ps[k].offset + ps[k].filesz <= size
  }

  /** What the process sees at page `q` once the first `n` segments are loaded. */
  function SegView(file: seq<u8>, ps: seq<Phdr>, n: nat, q: nat): (v: View)
    requires n <= |ps| && AllPass(ps, n, |file|)
  {
    if n == 0 then Unmapped
    else if Loads(ps[n - 1]) && OnPage(ps[n - 1], q) then Page(PageBytes(file, ps[n - 1], q), Writes(ps[n - 1]), true)
    else SegView(file, ps, n - 1, q)
  }

  /** The last of the first `n` segments that is loaded on page `q`, or -1. */
  function LastOn(ps: seq<Phdr>, n: nat, q: nat): (k: int)
    requires n <= |ps|
    ensures -1 <= k < n && (k >= 0 ==> Loads(ps[k]) && OnPage(ps[k], q))
    ensures forall l :: k < l < n ==> !(Loads(ps[l]) && OnPage(ps[l], q))
  {
    if n == 0 then -1 else if Loads(ps[n - 1]) && OnPage(ps[n - 1], q) then n - 1 else LastOn(ps, n - 1, q)
  }

  /** Each mapping replaces the one before: a page shows the last segment loaded there. */
  lemma {:induction false} SegViewLast(file: seq<u8>, ps: seq<Phdr>, n: nat, q: nat)
    requires n <= |ps| && AllPass(ps, n, |file|)
    ensures SegView(file, ps, n, q) ==
              var k := LastOn(ps, n, q);
              if k < 0 then Unmapped else Page(PageBytes(file, ps[k], q), Writes(ps[k]), true)
  {
    if n > 0 {
      SegViewLast(file, ps, n - 1, q);
    }
  }

  // ----- Reading through a directory

  function ViewAt(mem: Phys, d: nat, q: nat): (v: View)
    requires q < 0x10_0000
  {
    PageAt(mem, d, q / 1024, q % 1024)
  }

  /** The byte a process reads at `v`, 0 where nothing is mapped. */
  function ByteAt(mem: Phys, d: nat, v: u32): (b: u8) {
    var page := ViewAt(mem, d, v / 0x1000);
    if page.Page? && |page.bytes| == 4096 then page.bytes[v % 0x1000] else 0
  }

  /** The process sees the segments, above them its stack page, and nothing else above the kernel range. */
  ghost predicate ImageIs(file: seq<u8>, ps: seq<Phdr>, stack: seq<u8>, mem: Phys, d: nat)
    requires AllPass(ps, |ps|, |file|)
  {
    forall q: nat :: 4096 <= q < 0x10_0000 ==>
      ViewAt(mem, d, q) == if q == STACK_PAGE then Page(stack, true, true) else SegView(file, ps, |ps|, q)
  }

  /** A later segment is loaded on the page of `v` and puts another byte there than segment `k` has. */
  predicate Overlaid(file: seq<u8>, ps: seq<Phdr>, k: nat, v: u32)
    requires k < |ps| && AllPass(ps, |ps|, |file|) && Loads(ps[k])
  {
    var l := LastOn(ps, |ps|, v / 0x1000);
    k < l && LoadedByte(file, ps[l], v) != FileByte(file, ps[k], v)
  }

  /**
   A finished image holds the bytes of a loadable segment, file contents and then
   zeros up to p_memsz, exactly where no later segment has replaced the page with
   other bytes.
   */
  lemma FlatImage(file: seq<u8>, ps: seq<Phdr>, stack: seq<u8>, mem: Phys, d: nat, k: nat, v: u32)
    requires AllPass(ps, |ps|, |file|) && ImageIs(file, ps, stack, mem, d) && k < |ps| && Loads(ps[k])
    requires ps[k].vaddr <= v < ps[k].vaddr + ps[k].memsz && ps[k].vaddr + ps[k].memsz + 4095 < TWO_32 && v / 0x1000 != STACK_PAGE
    ensures ViewAt(mem, d, v / 0x1000).Page? && ViewAt(mem, d, v / 0x1000).user
    ensures ByteAt(mem, d, v) == FileByte(file, ps[k], v) <==> !Overlaid(file, ps, k, v)
  {
    var q := v / 0x1000;
    assert v == 4096 * q + v % 0x1000;
    assert OnPage(ps[k], q);
    var l := LastOn(ps, |ps|, q);
    SegViewLast(file, ps, |ps|, q);
    LoadedIsFile(file, ps[k], v);
    assert ByteAt(mem, d, v) == LoadedByte(file, ps[l], v);
  }

  /** So with segments on pages of their own every byte is the file's. */
  lemma FlatImageApart(file: seq<u8>, ps: seq<Phdr>, k: nat, v: u32)
    requires AllPass(ps, |ps|, |file|) && PageDisjoint(ps) && k < |ps| && Loads(ps[k])
    requires ps[k].vaddr <= v < ps[k].vaddr + ps[k].memsz && ps[k].vaddr + ps[k].memsz + 4095 < TWO_32
    ensures !Overlaid(file, ps, k, v)
  {
    var q := v / 0x1000;
    assert OnPage(ps[k], q);
    forall l | k < l < |ps| ensures !(Loads(ps[l]) && OnPage(ps[l], q)) {
      assert Apart(ps[k], ps[l]);
    }
  }

  /** Code and data of a small program on one page: the data segment wipes the code out. */
  lemma SharedPage(file: seq<u8>)
    requires |file| >= 32 && file[0] != 0
    ensures var ps := [Phdr(1, 0, 0x804_8000, 16, 16, 5), Phdr(1, 16, 0x804_8800, 16, 16, 6)];
            && Loads(ps[0]) && AllPass(ps, 2, |file|) && FileByte(file, ps[0], 0x804_8000) == file[0]
            && LastOn(ps, 2, 0x8048) == 1 && LoadedByte(file, ps[1], 0x804_8000) == 0 && Overlaid(file, ps, 0, 0x804_8000)
  {
    var ps := [Phdr(1, 0, 0x804_8000, 16, 16, 5), Phdr(1, 16, 0x804_8800, 16, 16, 6)];
    assert OnPage(ps[1], 0x8048);
  }

  // ----- Frames a load takes

  /** Page tables and pages present, frames left, whether an allocation was refused, whether a page was lost, pages replaced. */
  datatype Tally = Tally(tables: set<nat>, pages: set<nat>, free: nat, failed: bool, lost: bool, replaced: nat)

  /** One page: a frame, and one more for its table if that is new; with one frame left for both the page is lost. */
  function TakePage(t: Tally, q: nat): (r: Tally) {
    if t.failed then t
    else if t.free == 0 then t.(failed := true)
    else if q / 1024 in t.tables then
      t.(free := t.free - 1, pages := t.pages + {q}, replaced := if q in t.pages then t.replaced + 1 else t.replaced)
    else if t.free == 1 then t.(free := 0, lost := true)
    else t.(free := t.free - 2, tables := t.tables + {q / 1024}, pages := t.pages + {q})
  }

  /** The frames no teardown will give back. */
  function Leaks(t: Tally): (n: nat) {
    t.replaced + if t.lost then 1 else 0
  }

  function TakePages(t: Tally, q: nat, end: nat): (r: Tally)
    decreases end
  {
    if end <= q then t else TakePage(TakePages(t, q, end - 1), end - 1)
  }

  /** The first `n` segments; a segment that fails the checks ends the load. */
  function TakeSegments(t: Tally, ps: seq<Phdr>, size: nat, n: nat): (r: Tally)
    requires n <= |ps|
  {
    if n == 0 then t
    else
      var u := TakeSegments(t, ps, size, n - 1);
      if u.failed || !Loads(ps[n - 1]) then u
      else if !Checks(ps[n - 1], size) then u.(failed := true)
      else TakePages(u, FirstPage(ps[n - 1]), EndPage(ps[n - 1]))
  }

  lemma {:induction false} PagesFailOnce(t: Tally, q: nat, end: nat, e: nat)
    requires end <= e && TakePages(t, q, end).failed
    ensures TakePages(t, q, e) == TakePages(t, q, end)
    decreases e
  {
    if end < e && q < e {
      PagesFailOnce(t, q, end, e - 1);
    }
  }

  lemma {:induction false} SegmentsFailOnce(t: Tally, ps: seq<Phdr>, size: nat, n: nat, m: nat)
    requires n <= m <= |ps| && TakeSegments(t, ps, size, n).failed
    ensures TakeSegments(t, ps, size, m) == TakeSegments(t, ps, size, n)
  {
    if n < m {
      SegmentsFailOnce(t, ps, size, n, m - 1);
    }
  }

  /** A page is lost only by taking the last frame. */
  predicate LostIsLast(t: Tally) {
    t.lost ==> t.free == 0
  }

  lemma {:induction false} PagesLoseLast(t: Tally, q: nat, end: nat)
    requires LostIsLast(t)
    ensures LostIsLast(TakePages(t, q, end))
    decreases end
  {
    if q < end {
      PagesLoseLast(t, q, end - 1);
    }
  }

  lemma {:induction false} SegmentsLoseLast(t: Tally, ps: seq<Phdr>, size: nat, n: nat)
    requires n <= |ps| && LostIsLast(t)
    ensures LostIsLast(TakeSegments(t, ps, size, n))
  {
    if n > 0 {
      SegmentsLoseLast(t, ps, size, n - 1);
      PagesLoseLast(TakeSegments(t, ps, size, n - 1), FirstPage(ps[n - 1]), EndPage(ps[n - 1]));
    }
  }
}
