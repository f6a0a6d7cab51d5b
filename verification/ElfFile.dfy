/**
 Executables written out field by field in the order of the ELF32 format, and
 what the loader makes of them.
 */
module ElfFile {
  import opened Machine
  import opened Words
  import opened PagingSpec
  import opened ProcessBuild
  import opened TaskSpec
  import opened Tasks
  import opened ElfSpec
  import opened ElfImage
  import opened Elf

  /** The fields of the file header the loader does not look at. */
  datatype Rest = Rest(ident: seq<u8>, version: u32, shoff: u32, flags: u32, ehsize: u16, shentsize: u16, shnum: u16, shstrndx: u16)

  /** Elf32_Ehdr: e_ident, e_type, e_machine, e_version, e_entry, e_phoff, e_shoff, e_flags and six half words. */
  function WriteEhdr(h: Ehdr, x: Rest): (b: seq<u8>)
    requires |x.ident| == 16
    ensures |b| == 52
  {
    x.ident + Le16(h.kind) + Le16(h.machine) + Le32(x.version) + Le32(h.entry) + Le32(h.phoff) + Le32(x.shoff) + Le32(x.flags)
    + Le16(x.ehsize) + Le16(h.phentsize) + Le16(h.phnum) + Le16(x.shentsize) + Le16(x.shnum) + Le16(x.shstrndx)
  }

  /** Elf32_Phdr: p_type, p_offset, p_vaddr, p_paddr, p_filesz, p_memsz, p_flags, p_align. */
  function WritePhdr(p: Phdr, paddr: u32, align: u32): (b: seq<u8>)
    ensures |b| == 32
  {
    Le32(p.kind) + Le32(p.offset) + Le32(p.vaddr) + Le32(paddr) + Le32(p.filesz) + Le32(p.memsz) + Le32(p.flags) + Le32(align)
  }

  /** The file starts with this header and has this program header table where the header says. */
  predicate LaidOut(file: seq<u8>, h: Ehdr, x: Rest, ps: seq<Phdr>, paddr: seq<u32>, align: seq<u32>) {
    && |x.ident| == 16 && 52 <= |file| < TWO_32 && file[..52] == WriteEhdr(h, x)
    && |ps| == |paddr| == |align| == h.phnum && TableFits(file, h)
    && forall i :: 0 <= i < |ps| ==> HeaderAt(file, h, i, WritePhdr(ps[i], paddr[i], align[i]))
  }

  predicate HeaderAt(file: seq<u8>, h: Ehdr, i: nat, b: seq<u8>) {
    h.phoff + i * h.phentsize + 32 <= |file| && file[h.phoff + i * h.phentsize..h.phoff + i * h.phentsize + 32] == b
  }

  // ----- Reading the headers back

  lemma SubSlice(b: seq<u8>, o: nat, n: nat, w: seq<u8>, i: nat, j: nat)
    requires o + n <= |b| && b[o..o + n] == w && i <= j <= n
    ensures b[o + i..o + j] == w[i..j]
  {
    forall k | 0 <= k < j - i ensures b[o + i..o + j][k] == w[i..j][k] {
      assert w[i + k] == b[o + (i + k)];
    }
  }

  lemma EhdrRead(file: seq<u8>, h: Ehdr, x: Rest)
    requires |x.ident| == 16 && 52 <= |file| && file[..52] == WriteEhdr(h, x)
    ensures EhdrOf(file) == h && file[..16] == x.ident
  {
    var b := WriteEhdr(h, x);
    EhdrFields(h, x);
    hide WriteEhdr, Le16, Le32, FromLe16, FromLe32;
    assert file[0..52] == b;
    SubSlice(file, 0, 52, b, 0, 16);
    SubSlice(file, 0, 52, b, 16, 18);
    SubSlice(file, 0, 52, b, 18, 20);
    SubSlice(file, 0, 52, b, 24, 28);
    SubSlice(file, 0, 52, b, 28, 32);
    SubSlice(file, 0, 52, b, 42, 44);
    SubSlice(file, 0, 52, b, 44, 46);
    Le16RoundTrip(h.kind);
    Le16RoundTrip(h.machine);
    Le32RoundTrip(h.entry);
    Le32RoundTrip(h.phoff);
    Le16RoundTrip(h.phentsize);
    Le16RoundTrip(h.phnum);
  }

  lemma EhdrFields(h: Ehdr, x: Rest)
    requires |x.ident| == 16
    ensures var b := WriteEhdr(h, x);
            && b[0..16] == x.ident && b[16..18] == Le16(h.kind) && b[18..20] == Le16(h.machine) && b[24..28] == Le32(h.entry)
            && b[28..32] == Le32(h.phoff) && b[42..44] == Le16(h.phentsize) && b[44..46] == Le16(h.phnum)
  {
    hide Le16, Le32;
  }

  lemma PhdrRead(file: seq<u8>, off: nat, p: Phdr, paddr: u32, align: u32)
    requires off + 32 <= |file| && file[off..off + 32] == WritePhdr(p, paddr, align)
    ensures PhdrAt(file, off) == p
  {
    var b := WritePhdr(p, paddr, align);
    PhdrFields(p, paddr, align);
    hide WritePhdr, Le32, FromLe32;
    SubSlice(file, off, 32, b, 0, 4);
    SubSlice(file, off, 32, b, 4, 8);
    SubSlice(file, off, 32, b, 8, 12);
    SubSlice(file, off, 32, b, 16, 20);
    SubSlice(file, off, 32, b, 20, 24);
    SubSlice(file, off, 32, b, 24, 28);
    Le32RoundTrip(p.kind);
    Le32RoundTrip(p.offset);
    Le32RoundTrip(p.vaddr);
    Le32RoundTrip(p.filesz);
    Le32RoundTrip(p.memsz);
    Le32RoundTrip(p.flags);
  }

  lemma PhdrFields(p: Phdr, paddr: u32, align: u32)
    ensures var b := WritePhdr(p, paddr, align);
            && b[0..4] == Le32(p.kind) && b[4..8] == Le32(p.offset) && b[8..12] == Le32(p.vaddr) && b[16..20] == Le32(p.filesz)
            && b[20..24] == Le32(p.memsz) && b[24..28] == Le32(p.flags)
  {
    hide Le32;
  }

  /** Both kinds of headers are read as they were written. */
  lemma HeadersRead(file: seq<u8>, h: Ehdr, x: Rest, ps: seq<Phdr>, paddr: seq<u32>, align: seq<u32>)
    requires LaidOut(file, h, x, ps, paddr, align)
    ensures EhdrOf(file) == h && file[..16] == x.ident && Phdrs(file, h) == ps
  {
    hide WriteEhdr, WritePhdr, EhdrOf, PhdrAt;
    EhdrRead(file, h, x);
    forall i | 0 <= i < |ps| ensures Phdrs(file, h)[i] == ps[i] {
      assert HeaderAt(file, h, i, WritePhdr(ps[i], paddr[i], align[i]));
      PhdrRead(file, h.phoff + i * h.phentsize, ps[i], paddr[i], align[i]);
    }
  }

  /** What the checks on the file header ask for. */
  lemma HeaderChecks(file: seq<u8>, h: Ehdr, x: Rest, ps: seq<Phdr>, paddr: seq<u32>, align: seq<u32>)
    requires LaidOut(file, h, x, ps, paddr, align)
    ensures Validates(file) <==>
              && x.ident[..6] == [0x7F, 0x45, 0x4C, 0x46, 1, 1] && h.kind == 2 && h.machine == 3
              && h.phoff != 0 && ps != [] && h.entry != 0
  {
    hide WriteEhdr, WritePhdr, EhdrOf, PhdrAt, HeaderAt;
    HeadersRead(file, h, x, ps, paddr, align);
    assert forall i :: 0 <= i < 16 ==> file[i] == x.ident[i] by {
      forall i | 0 <= i < 16 ensures file[i] == x.ident[i] {
        assert file[..16][i] == file[i];
      }
    }
    assert x.ident[..6] == [x.ident[0], x.ident[1], x.ident[2], x.ident[3], x.ident[4], x.ident[5]];
  }

  // ----- What the process finds in its memory

  /** The byte of physical memory an access to `v` reaches, 0 where nothing is mapped. */
  function Peek(mem: Phys, d: nat, v: u32): (b: u8) {
    var a := Translate(mem, d, v);
    if Walk(mem, d, PdIndex(v), PtIndex(v)).present && a / 4096 < |mem| && mem[a / 4096].Data? then mem[a / 4096].bytes[a % 4096] else 0
  }

  lemma PeekIsByte(mem: Phys, d: nat, v: u32)
    requires ViewAt(mem, d, v / 0x1000).Page?
    ensures Peek(mem, d, v) == ByteAt(mem, d, v)
  {
    var e := Walk(mem, d, PdIndex(v), PtIndex(v));
    assert (e.frame * 4096 + v % 4096) / 4096 == e.frame && (e.frame * 4096 + v % 4096) % 4096 == v % 4096;
  }

  /** The word at offset 24 of entry `k` of the table is its p_flags. */
  lemma FlagsWord(file: seq<u8>, h: Ehdr, x: Rest, ps: seq<Phdr>, paddr: seq<u32>, align: seq<u32>, k: nat)
    requires LaidOut(file, h, x, ps, paddr, align) && k < |ps|
    ensures h.phoff + k * h.phentsize + 28 <= |file| && WordAt(file, h.phoff + k * h.phentsize + 24) == ps[k].flags
  {
    hide WriteEhdr, WritePhdr, EhdrOf, WordAt;
    HeadersRead(file, h, x, ps, paddr, align);
    EntryInTable(file, h, k);
    assert Phdrs(file, h)[k] == ps[k];
  }

  /** Byte `o` of segment `k` is not on the stack page, and no later segment is loaded on its page. */
  predicate Visible(ps: seq<Phdr>, k: nat, o: nat)
    requires k < |ps|
  {
    && ps[k].kind == 1 && o < ps[k].memsz && ps[k].vaddr + ps[k].memsz + 4095 < TWO_32
    && (ps[k].vaddr + o) / 4096 != 0xB_FFFF
    && forall l :: k < l < |ps| && Loads(ps[l]) ==> !OnPage(ps[l], (ps[k].vaddr + o) / 4096)
  }

  /** Segments on pages of their own are visible wherever the stack page is not. */
  lemma ApartVisible(ps: seq<Phdr>, k: nat, o: nat)
    requires k < |ps| && PageDisjoint(ps) && ps[k].kind == 1 && o < ps[k].memsz && ps[k].vaddr + ps[k].memsz + 4095 < TWO_32
    requires (ps[k].vaddr + o) / 4096 != 0xB_FFFF
    ensures Visible(ps, k, o)
  {
    forall l | k < l < |ps| && Loads(ps[l]) ensures !OnPage(ps[l], (ps[k].vaddr + o) / 4096) {
      assert Apart(ps[k], ps[l]);
    }
  }

  /**
   Ring 3 reads, `o` bytes into the segment, the byte the file has at p_offset + o,
   or 0 past p_filesz, and may write there exactly if bit 1 of `flags` is set.
   */
  predicate Finds(mem: Phys, d: nat, file: seq<u8>, p: Phdr, flags: u32, o: nat) {
    && p.offset + p.filesz <= |file| && p.vaddr + o < TWO_32
    && var v := p.vaddr + o;
    && Peek(mem, d, v) == (if o < p.filesz then file[p.offset + o] else 0)
    && UserAccess(mem, d, PdIndex(v), PtIndex(v)) && (WriteAccess(mem, d, PdIndex(v), PtIndex(v)) <==> flags / 2 % 2 == 1)
  }

  lemma FindsSegment(j: Job, stack: seq<u8>, mem: Phys, k: nat, o: nat)
    requires Reached(j, |j.ps|) && ProcessView(j, stack, mem) && k < |j.ps| && Visible(j.ps, k, o)
    ensures Finds(mem, j.d, j.file, j.ps[k], j.ps[k].flags, o)
  {
    hide PageAt, Walk, UserAccess, WriteAccess, Translate, Peek, ByteAt, PageBytes;
    var p := j.ps[k];
    var v := p.vaddr + o;
    assert Loads(p) && Checks(p, |j.file|);
    assert OnPage(p, v / 4096);
    LastIs(j.ps, k, v / 4096);
    FlatImage(j.file, j.ps, stack, mem, j.d, k, v);
    PeekIsByte(mem, j.d, v);
    ProcessRights(j, stack, mem, v / 4096);
  }

  /** The flags being the word at offset 24 of entry `k` of the table. */
  predicate FindsEntry(mem: Phys, d: nat, file: seq<u8>, h: Ehdr, k: nat, p: Phdr, o: nat) {
    var off := h.phoff + k * h.phentsize;
    off + 28 <= |file| && Finds(mem, d, file, p, WordAt(file, off + 24), o)
  }

  /** So it is in a process started from the file, wherever the segment is visible. */
  lemma ProcessReads(mem: Phys, t: Tcb, file: seq<u8>, argv: seq<seq<u8>>, stack: seq<u8>, s0: Sys, dirs: set<nat>, enterUsermode: u32,
                     h: Ehdr, x: Rest, ps: seq<Phdr>, paddr: seq<u32>, align: seq<u32>, k: nat, o: nat)
    requires WellFormed(file) && Started(mem, t, file, argv, stack, s0, dirs, enterUsermode)
    requires LaidOut(file, h, x, ps, paddr, align) && k < |ps| && Visible(ps, k, o)
    ensures FindsEntry(mem, t.pageDir, file, h, k, ps[k], o)
  {
    hide WriteEhdr, WritePhdr, EhdrOf, LaidOut, StackReady, Stacked, WordAt, Finds, Visible, ProcessView, Reached;
    HeadersRead(file, h, x, ps, paddr, align);
    FlagsWord(file, h, x, ps, paddr, align, k);
    FindsSegment(JobOf(s0, dirs, t.pageDir, file), stack, mem, k, o);
  }

  lemma LastIs(ps: seq<Phdr>, k: nat, q: nat)
    requires k < |ps| && Loads(ps[k]) && OnPage(ps[k], q)
    requires forall l :: k < l < |ps| && Loads(ps[l]) ==> !OnPage(ps[l], q)
    ensures LastOn(ps, |ps|, q) == k
  {
  }

  // ----- Which files are loaded

  /** The pages the loop visits for the first `n` segments. */
  function PageCount(ps: seq<Phdr>, n: nat): (c: nat)
    requires n <= |ps|
  {
    if n == 0 then 0
    else PageCount(ps, n - 1) + if Loads(ps[n - 1]) && FirstPage(ps[n - 1]) < EndPage(ps[n - 1])
                                then EndPage(ps[n - 1]) - FirstPage(ps[n - 1]) else 0
  }

  lemma {:induction false} PagesServed(t: Tally, q: nat, end: nat)
    requires !t.failed && (q < end ==> t.free >= 2 * (end - q))
    ensures var r := TakePages(t, q, end);
            !r.failed && r.free >= t.free - if q < end then 2 * (end - q) else 0
    decreases end
  {
    if q < end {
      PagesServed(t, q, end - 1);
    }
  }

  /** Given two frames a page, the load fails exactly on a segment that does not pass. */
  lemma {:induction false} SegmentsServed(t: Tally, ps: seq<Phdr>, size: nat, n: nat)
    requires n <= |ps| && !t.failed && t.free >= 2 * PageCount(ps, n)
    ensures var r := TakeSegments(t, ps, size, n);
            && (r.failed <==> exists k :: 0 <= k < n && Loads(ps[k]) && !Checks(ps[k], size))
            && (!r.failed ==> r.free >= t.free - 2 * PageCount(ps, n))
  {
    if n > 0 {
      SegmentsServed(t, ps, size, n - 1);
      var u := TakeSegments(t, ps, size, n - 1);
      if !u.failed && Loads(ps[n - 1]) && Checks(ps[n - 1], size) {
        PagesServed(u, FirstPage(ps[n - 1]), EndPage(ps[n - 1]));
      }
    }
  }

  /** An executable with this header and these segments that the loader has no objection to, in a file of `size` bytes. */
  predicate Acceptable(h: Ehdr, x: Rest, ps: seq<Phdr>, size: nat)
    requires |x.ident| == 16
  {
    && x.ident[..6] == [0x7F, 0x45, 0x4C, 0x46, 1, 1] && h.kind == 2 && h.machine == 3
    && h.phoff != 0 && ps != [] && h.entry != 0
    && forall k :: 0 <= k < |ps| && ps[k].kind == 1 && ps[k].memsz > 0 ==>
         ps[k].filesz <= ps[k].memsz && (ps[k].offset + ps[k].filesz) % 0x1_0000_0000 <= size && ps[k].vaddr >= 0x100_0000
  }

  /** The load succeeds exactly if the header is accepted and every segment passes. */
  lemma DemandServed(file: seq<u8>, free: nat, ps: seq<Phdr>)
    requires WellFormed(file) && Validates(file) && ps == Phdrs(file, EhdrOf(file)) && free >= 2 * PageCount(ps, |ps|) + 5
    ensures Succeeds(file, free) <==> forall k :: 0 <= k < |ps| && Loads(ps[k]) ==> Checks(ps[k], |file|)
  {
    hide EhdrOf, PhdrAt, TakeSegments, Loads, Checks, PageCount, TableFits, InFile;
    SegmentsServed(Tally({}, {}, free - 2, false, false, 0), ps, |file|, |ps|);
  }

  lemma AcceptableMeans(h: Ehdr, x: Rest, ps: seq<Phdr>, size: nat)
    requires |x.ident| == 16
    ensures Acceptable(h, x, ps, size) <==>
              && x.ident[..6] == [0x7F, 0x45, 0x4C, 0x46, 1, 1] && h.kind == 2 && h.machine == 3
              && h.phoff != 0 && ps != [] && h.entry != 0
              && forall k :: 0 <= k < |ps| && Loads(ps[k]) ==> Checks(ps[k], size)
  {
  }

  /** With two frames for each page, and five for directory, tables and stacks, exactly these load. */
  lemma LoadsExactly(file: seq<u8>, free: nat, h: Ehdr, x: Rest, ps: seq<Phdr>, paddr: seq<u32>, align: seq<u32>)
    requires WellFormed(file) && LaidOut(file, h, x, ps, paddr, align) && free >= 2 * PageCount(ps, |ps|) + 5
    ensures Succeeds(file, free) <==> Acceptable(h, x, ps, |file|)
  {
    hide WriteEhdr, WritePhdr, EhdrOf, Phdrs, TakeSegments, HeaderAt, WellFormed, Validates, TableFits, Acceptable, Loads, Checks;
    hide Demand, PageCount;
    HeadersRead(file, h, x, ps, paddr, align);
    HeaderChecks(file, h, x, ps, paddr, align);
    AcceptableMeans(h, x, ps, |file|);
    if Validates(file) {
      DemandServed(file, free, ps);
    }
  }
}
