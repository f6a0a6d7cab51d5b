/**
 Paging operations on physical memory, over the frame allocator.
 */
module Paging {
  import opened Machine
  import opened Counting
  import opened Pmm
  import opened PagingSpec
  import opened KernelPaging
  import opened AddressSpace
  import opened Spaces
  import opened ProcessBuild

  /** The table that identity-maps the 4 MB chunk `i`. */
  function ChunkEntries(i: nat): (es: seq<Entry>)
    ensures |es| == ENTRIES && forall j :: 0 <= j < ENTRIES ==> es[j] == Entry(1024 * i + j, true, true, false)
  {
    seq(ENTRIES, j requires 0 <= j < ENTRIES => Entry(1024 * i + j, true, true, false))
  }

  /** Chunks below `n` are mapped and no other slot of the kernel directory is. */
  ghost predicate MappedUpTo(s: Sys, n: nat) {
    && |s.mem| == TOTAL_FRAMES && |s.tables| == ENTRIES && n <= ENTRIES
    && Reserved() <= s.used && (forall f :: f in s.used ==> f < TOTAL_FRAMES)
    && IsTable(s.mem, s.kdir) && s.kdir in s.used && !IsReserved(s.kdir)
    && (forall k: nat :: k < n ==> ChunkMapped(s, k))
    && (forall k: nat :: n <= k < ENTRIES ==> At(s.mem, s.kdir, k) == EMPTY && s.tables[k] == 0)
    && (forall k, l :: 0 <= k < l < n ==> s.tables[k] != s.tables[l])
  }

  predicate ChunkMapped(s: Sys, k: nat)
    requires IsTable(s.mem, s.kdir) && |s.tables| == ENTRIES && k < ENTRIES
  {
    var t := s.tables[k];
    && At(s.mem, s.kdir, k) == Entry(t, true, true, false)
    && t in s.used && !IsReserved(t) && t != s.kdir && t < |s.mem| && s.mem[t] == Table(ChunkEntries(k))
  }

  lemma MappedIsIdentity(s: Sys)
    requires MappedUpTo(s, KERNEL_PDES)
    ensures IdentityMapped(s) && KernelLow(s)
  {
    forall k: nat | k < ENTRIES ensures KernelSlotOk(s, k) {
      assert k < KERNEL_PDES ==> ChunkMapped(s, k);
    }
    forall i: nat, j: nat | i < ENTRIES && j < ENTRIES
      ensures Walk(s.mem, s.kdir, i, j) == if i < KERNEL_PDES then Entry(1024 * i + j, true, true, false) else EMPTY
    {
      assert i < KERNEL_PDES ==> ChunkMapped(s, i);
    }
    forall k: nat | k < KERNEL_PDES ensures s.tables[k] != 0 && !At(s.mem, s.kdir, k).user {
      assert ChunkMapped(s, k);
    }
  }

  lemma NothingMapped(s: Sys)
    requires |s.mem| == TOTAL_FRAMES && |s.tables| == ENTRIES && s.kdir < TOTAL_FRAMES && s.kdir in s.used
    requires Reserved() <= s.used && !IsReserved(s.kdir) && s.mem[s.kdir] == ZeroTable()
    requires forall f :: f in s.used ==> f < TOTAL_FRAMES
    requires forall k :: 0 <= k < ENTRIES ==> s.tables[k] == 0
    ensures MappedUpTo(s, 0)
  {
  }

  /** One more chunk, in a frame that was free. */
  lemma ChunkAdded(s: Sys, k: nat, t: nat, r: Sys)
    requires MappedUpTo(s, k) && k < KERNEL_PDES && t < TOTAL_FRAMES && t !in s.used
    requires r == Sys(s.used + {t}, Put(Fill(s.mem, t, Table(ChunkEntries(k))), s.kdir, k, Entry(t, true, true, false)),
                      s.kdir, s.tables[k := t])
    ensures MappedUpTo(r, k + 1)
  {
    forall l: nat | l < k + 1 ensures ChunkMapped(r, l) {
      assert l < k ==> ChunkMapped(s, l);
    }
    forall l: nat | k + 1 <= l < ENTRIES ensures At(r.mem, r.kdir, l) == EMPTY && r.tables[l] == 0 {
      assert At(s.mem, s.kdir, l) == EMPTY && s.tables[l] == 0;
    }
    forall l, m | 0 <= l < m < k + 1 ensures r.tables[l] != r.tables[m] {
      assert ChunkMapped(s, l);
    }
  }

  lemma ClonePossible(s: Sys, d: nat)
    requires KernelLow(s) && d !in s.used
    ensures KernelTableZero(s) && d != s.kdir && d != s.tables[0] && s.kdir in s.used && s.tables[0] in s.used
  {
    assert KernelSlotOk(s, 0);
  }

  lemma CloneMemory(s: Sys, d: nat, p: nat, m: Phys)
    requires KernelTableZero(s) && d < |s.mem| && p < |s.mem| && d != p && |m| == |s.mem| && IsTable(m, d)
    requires forall g :: 0 <= g < |m| && g != d ==> m[g] == Fill(s.mem, p, s.mem[s.tables[0]])[g]
    requires forall k: nat :: k < ENTRIES ==> At(m, d, k) == CloneEntries(s, p)[k]
    ensures m == Cloned(s, d, p).mem
  {
    assert m[d].entries == CloneEntries(s, p);
  }

  /** Frame `f` hangs off directory slot `i`: its table, or a page mapped through it. */
  ghost predicate HeldBySlot(mem: Phys, d: nat, i: nat, f: nat) {
    HasTable(mem, d, i, f) || exists b: nat :: HasPage(mem, d, i, b, f)
  }

  /** The frames paging_free_directory has released before it reaches slot `i`. */
  ghost predicate HeldBelow(mem: Phys, d: nat, i: nat, f: nat) {
    exists k: nat :: k < i && HeldBySlot(mem, d, k, f)
  }

  /** A page mapped at an index below `j` of the table of slot `i`. */
  ghost predicate MappedBelow(mem: Phys, d: nat, i: nat, j: nat, f: nat) {
    exists b: nat :: b < j && HasPage(mem, d, i, b, f)
  }

  lemma MappedOneMore(mem: Phys, d: nat, i: nat, j: nat)
    requires KERNEL_PDES <= i < ENTRIES && j < ENTRIES
    ensures forall f: nat :: MappedBelow(mem, d, i, j + 1, f) <==> MappedBelow(mem, d, i, j, f) || HasPage(mem, d, i, j, f)
  {
  }

  lemma MappedEnds(mem: Phys, d: nat, i: nat)
    ensures forall f: nat :: !MappedBelow(mem, d, i, 0, f)
    ensures forall f: nat :: MappedBelow(mem, d, i, ENTRIES, f) <==> exists b: nat :: HasPage(mem, d, i, b, f)
  {
    assert forall b: nat, f: nat :: HasPage(mem, d, i, b, f) ==> b < ENTRIES && HasPage(mem, d, i, b, f);
  }

  /** The frames of slot `i` may be handed back to the allocator. */
  ghost predicate Releasable(s: Sys, d: nat, i: nat) {
    && i < ENTRIES && IsTable(s.mem, d)
    && (forall f: nat :: HeldBySlot(s.mem, d, i, f) ==> f < TOTAL_FRAMES && !IsReserved(f))
    && (forall t: nat :: HasTable(s.mem, d, i, t) ==> IsTable(s.mem, t))
  }

  lemma ProcessReleasable(s: Sys, d: nat, i: nat)
    requires ProcOk(s, d) && Private(i) && |s.mem| == TOTAL_FRAMES
    ensures Releasable(s, d, i)
  {
  }

  lemma ReleasableAnyTime(s: Sys, r: Sys, d: nat, i: nat)
    requires Releasable(s, d, i) && r.mem == s.mem
    ensures Releasable(r, d, i)
  {
  }

  lemma HeldAtStart(mem: Phys, d: nat)
    ensures forall f: nat :: HeldBelow(mem, d, KERNEL_PDES, f) <==> HeldBySlot(mem, d, 0, f)
  {
    forall f: nat, k: nat | 0 < k < KERNEL_PDES ensures !HeldBySlot(mem, d, k, f) {
    }
  }

  lemma HeldOneMore(mem: Phys, d: nat, i: nat)
    ensures forall f: nat :: HeldBelow(mem, d, i + 1, f) <==> HeldBelow(mem, d, i, f) || HeldBySlot(mem, d, i, f)
  {
    assert forall f: nat :: HeldBySlot(mem, d, i, f) ==> i < i + 1 && HeldBySlot(mem, d, i, f);
  }

  lemma HeldIsOwned(mem: Phys, d: nat)
    ensures forall f: nat :: f in Owned(mem, d) <==> f < |mem| && (f == d || HeldBelow(mem, d, ENTRIES, f))
  {
    forall f: nat ensures Owns(mem, d, f) <==> f == d || HeldBelow(mem, d, ENTRIES, f) {
      if k: nat :| HasTable(mem, d, k, f) {
        assert HeldBySlot(mem, d, k, f);
      } else if k: nat, b: nat :| HasPage(mem, d, k, b, f) {
        assert HeldBySlot(mem, d, k, f);
      }
    }
  }

  class Mmu {
    const pmm: FrameAllocator
    var mem: Phys
    var kdir: nat
    var tables: seq<nat>

    /** Before paging_init: no kernel directory, no tables. */
    constructor (pmm: FrameAllocator, mem: Phys)
      requires pmm.Valid() && |mem| == TOTAL_FRAMES
      ensures Ready() && this.pmm == pmm && this.mem == mem && kdir == 0 && forall t :: t in tables ==> t == 0
    {
      this.pmm, this.mem, kdir, tables := pmm, mem, 0, seq(ENTRIES, _ => 0);
    }

    ghost predicate Ready()
      reads this, pmm, pmm.bitmap
    {
      pmm.Valid() && |mem| == TOTAL_FRAMES && |tables| == ENTRIES
    }

    ghost function S(): (s: Sys)
      requires pmm.bitmap.Length == BITMAP_WORDS
      reads this, pmm, pmm.bitmap
    {
      Sys(pmm.Used(), mem, kdir, tables)
    }

    /** alloc_page, with the frame number for its address; frame 0 is reserved, so 0 is failure. */
    method AllocFrame() returns (f: nat)
      requires Ready()
      modifies pmm, pmm.bitmap
      ensures Ready()
      ensures f == 0 <==> Full(old(pmm.Used()))
      ensures f == 0 <==> old(pmm.usedFrames) == TOTAL_FRAMES
      ensures pmm.usedFrames <= TOTAL_FRAMES
      ensures f == 0 ==> pmm.Used() == old(pmm.Used()) && pmm.usedFrames == old(pmm.usedFrames)
      ensures f != 0 ==> && Lowest(old(pmm.Used())) == f < TOTAL_FRAMES && f !in old(pmm.Used()) && !IsReserved(f)
                         && pmm.Used() == old(pmm.Used()) + {f} && pmm.usedFrames == old(pmm.usedFrames) + 1
    {
      AllBelow(pmm.Used(), TOTAL_FRAMES);
      var addr := pmm.AllocPage();
      f := FrameOf(addr);
      if addr != 0 {
        LowestIs(old(pmm.Used()), f);
        AllBelow(pmm.Used(), TOTAL_FRAMES);
      }
    }

    /** Maps 0 - 16 MB to itself; succeeds exactly when five frames are free. */
    method Init() returns (ok: bool)
      requires Ready()
      modifies this, pmm, pmm.bitmap
      ensures Ready() && old(pmm.Used()) <= pmm.Used()
      ensures ok <==> old(pmm.usedFrames) + 5 <= TOTAL_FRAMES
      ensures ok ==> IdentityMapped(S()) && KernelLow(S()) && pmm.usedFrames == old(pmm.usedFrames) + 5
    {
      hide MappedUpTo, IdentityMapped, KernelLow;
      var made := InitDirectory();
      if !made {
        return false;
      }
      var i := 0;
      while i < KERNEL_PDES
        invariant i <= KERNEL_PDES && Ready() && MappedUpTo(S(), i)
        invariant old(pmm.Used()) <= pmm.Used() && TOTAL_FRAMES >= pmm.usedFrames == old(pmm.usedFrames) + 1 + i
      {
        var mapped := InitChunk(i);
        if !mapped {
          return false;
        }
        i := i + 1;
      }
      MappedIsIdentity(S());
      return true;
    }

    /** Allocates and clears the directory and the table pointers. */
    method InitDirectory() returns (ok: bool)
      requires Ready()
      modifies this, pmm, pmm.bitmap
      ensures Ready() && old(pmm.Used()) <= pmm.Used()
      ensures ok <==> old(pmm.usedFrames) < TOTAL_FRAMES
      ensures pmm.usedFrames <= TOTAL_FRAMES
      ensures ok ==> MappedUpTo(S(), 0) && pmm.usedFrames == old(pmm.usedFrames) + 1
    {
      hide MappedUpTo;
      var pd := AllocFrame();
      if pd == 0 {
        return false;
      }
      kdir := pd;
      mem := Fill(mem, kdir, ZeroTable());
      tables := seq(ENTRIES, _ => 0);
      NothingMapped(S());
      return true;
    }

    /** Allocates, fills and installs the table of chunk `i`. */
    method InitChunk(i: nat) returns (ok: bool)
      requires Ready() && i < KERNEL_PDES && MappedUpTo(S(), i)
      modifies this, pmm, pmm.bitmap
      ensures Ready() && old(pmm.Used()) <= pmm.Used()
      ensures ok <==> old(pmm.usedFrames) < TOTAL_FRAMES
      ensures pmm.usedFrames <= TOTAL_FRAMES
      ensures ok ==> MappedUpTo(S(), i + 1) && pmm.usedFrames == old(pmm.usedFrames) + 1
    {
      ghost var s := S();
      var t := AllocFrame();
      if t == 0 {
        return false;
      }
      var es := IdentityChunk(i);
      mem := Fill(mem, t, Table(es));
      mem := Put(mem, kdir, i, Entry(t, true, true, false));
      tables := tables[i := t];
      ChunkAdded(s, i, t, S());
      return true;
    }

    method IdentityChunk(i: nat) returns (es: seq<Entry>)
      ensures es == ChunkEntries(i)
    {
      es := [];
      var j := 0;
      while j < ENTRIES
        invariant j <= ENTRIES && |es| == j
        invariant forall k :: 0 <= k < j ==> es[k] == ChunkEntries(i)[k]
      {
        es := es + [Entry(1024 * i + j, true, true, false)];
        j := j + 1;
      }
    }

    /** Maps one page in the kernel directory. */
    method MapPage(virt: u32, phys: u32, writable: bool, user: bool)
      requires Ready() && KernelOk(S())
      modifies this, pmm, pmm.bitmap
      ensures Ready() && KernelOk(S())
      ensures At(old(mem), old(kdir), PdIndex(virt)).present ==>
                IsTable(old(mem), At(old(mem), old(kdir), PdIndex(virt)).frame)
                && At(old(mem), old(kdir), PdIndex(virt)).frame != old(kdir)
      ensures S() == MapKernel(old(S()), PdIndex(virt), PtIndex(virt), Entry(phys / 4096, true, writable, user))
    {
      hide KernelOk, FrameAllocator.Valid, Full, UsedSet, Reserved, IsReserved, PdIndex, PtIndex;
      var i, j := PdIndex(virt), PtIndex(virt);
      ghost var s := S();
      ghost var e := Entry(phys / 4096, true, writable, user);
      KernelFacts(s, i);
      MapKernelKeeps(s, i, j, e);
      if !At(mem, kdir, i).present {
        var t := AllocFrame();
        if t == 0 {
          return;
        }
        mem := Fill(mem, t, ZeroTable());
        mem := Put(mem, kdir, i, Entry(t, true, true, user));
        tables := tables[i := t];
      } else if user {
        mem := Put(mem, kdir, i, At(mem, kdir, i).(user := true));
      }
      mem := Put(mem, tables[i], j, Entry(phys / 4096, true, writable, user));
    }

    method UnmapPage(virt: u32)
      requires Ready() && KernelOk(S())
      modifies this
      ensures Ready() && KernelOk(S())
      ensures At(old(mem), old(kdir), PdIndex(virt)).present ==> IsTable(old(mem), old(tables)[PdIndex(virt)])
      ensures S() == UnmapKernel(old(S()), PdIndex(virt), PtIndex(virt))
    {
      var i, j := PdIndex(virt), PtIndex(virt);
      UnmapKernelKeeps(S(), i, j);
      assert KernelSlotOk(S(), i);
      if !At(mem, kdir, i).present {
        return;
      }
      mem := Put(mem, tables[i], j, EMPTY);
    }

    /** The software walk through the table pointers agrees with the hardware walk. */
    method TranslateAddr(virt: u32) returns (phys: nat)
      requires Ready() && KernelOk(S())
      ensures phys == Translate(mem, kdir, virt)
    {
      var i, j := PdIndex(virt), PtIndex(virt);
      assert KernelSlotOk(S(), i);
      if !At(mem, kdir, i).present {
        return 0;
      }
      var pte := At(mem, tables[i], j);
      if !pte.present {
        return 0;
      }
      phys := pte.frame * 4096 + virt % 4096;
    }

    /** A private copy of the kernel range in two new frames, or nothing when two cannot be had. */
    method CloneDirectory() returns (ok: bool, d: nat, ghost p: nat)
      requires Ready() && KernelLow(S())
      modifies this, pmm, pmm.bitmap
      ensures Ready() && kdir == old(kdir) && tables == old(tables)
      ensures ok ==> && d !in old(pmm.Used()) && p !in old(pmm.Used()) && d != p && d < TOTAL_FRAMES && p < TOTAL_FRAMES
                     && KernelTableZero(old(S())) && S() == Cloned(old(S()), d, p)
      ensures ok <==> old(pmm.usedFrames) + 2 <= TOTAL_FRAMES
      ensures ok ==> pmm.usedFrames == old(pmm.usedFrames) + 2
      ensures !ok ==> pmm.Used() == old(pmm.Used()) && forall f :: f in pmm.Used() ==> mem[f] == old(mem)[f]
    {
      hide KernelLow, Cloned, KernelTableZero;
      ghost var s := S();
      d := AllocFrame();
      if d == 0 {
        return false, 0, 0;
      }
      mem := Fill(mem, d, ZeroTable());
      ClonePossible(s, d);
      var pt0 := AllocFrame();
      if pt0 == 0 {
        FreeFrame(d);
        assert pmm.Used() == old(pmm.Used());
        return false, 0, 0;
      }
      FillClone(d, pt0, s);
      return true, d, pt0;
    }

    /** Writes the private table `p` and the directory `d` around it. */
    method FillClone(d: nat, p: nat, ghost s: Sys)
      requires |s.mem| == TOTAL_FRAMES && KernelTableZero(s) && d < TOTAL_FRAMES && p < TOTAL_FRAMES
      requires d != p && d != s.kdir && p != s.kdir && d != s.tables[0]
      requires mem == Fill(s.mem, d, ZeroTable()) && kdir == s.kdir && tables == s.tables
      modifies this`mem
      ensures |mem| == TOTAL_FRAMES && Sys(s.used + {d} + {p}, mem, kdir, tables) == Cloned(s, d, p)
    {
      mem := Fill(mem, p, mem[tables[0]]);
      mem := Put(mem, d, 0, Entry(p, true, true, false));
      ShareKernelSlots(d);
      CloneMemory(s, d, p, mem);
      assert s.used + {d} + {p} == s.used + {d, p};
    }

    /** Copies directory slots 1 - 3 from the kernel. */
    method ShareKernelSlots(d: nat)
      requires |mem| == TOTAL_FRAMES && IsTable(mem, d) && IsTable(mem, kdir) && d != kdir
      modifies this`mem
      ensures |mem| == TOTAL_FRAMES && IsTable(mem, d)
      ensures forall g :: 0 <= g < TOTAL_FRAMES && g != d ==> mem[g] == old(mem)[g]
      ensures forall k: nat :: k < ENTRIES ==>
                At(mem, d, k) == if 0 < k < KERNEL_PDES then At(old(mem), kdir, k) else At(old(mem), d, k)
    {
      var i := 1;
      while i < KERNEL_PDES
        invariant 1 <= i <= KERNEL_PDES && |mem| == TOTAL_FRAMES && IsTable(mem, d)
        invariant forall g :: 0 <= g < TOTAL_FRAMES && g != d ==> mem[g] == old(mem)[g]
        invariant forall k: nat :: k < ENTRIES ==>
                    At(mem, d, k) == if 0 < k < i then At(old(mem), kdir, k) else At(old(mem), d, k)
      {
        mem := Put(mem, d, i, At(mem, kdir, i));
        i := i + 1;
      }
    }

    /** Maps one page in a given directory; silently does nothing when no frame is left for a table. */
    method MapPageIn(d: nat, virt: u32, frame: nat, writable: bool, user: bool)
      requires Ready() && SlotReady(S(), d, PdIndex(virt))
      modifies this, pmm, pmm.bitmap
      ensures Ready()
      ensures S() == MapIn(old(S()), d, PdIndex(virt), PtIndex(virt), Entry(frame, true, writable, user))
    {
      var i, j := PdIndex(virt), PtIndex(virt);
      ghost var s := S();
      if !At(mem, d, i).present {
        var t := AllocFrame();
        if t == 0 {
          return;
        }
        mem := Fill(mem, t, ZeroTable());
        mem := Put(mem, d, i, Entry(t, true, true, user));
      } else if user {
        mem := Put(mem, d, i, At(mem, d, i).(user := true));
      }
      var table := At(mem, d, i).frame;
      mem := Put(mem, table, j, Entry(frame, true, writable, user));
    }

    /** alloc_page, fill and paging_map_page_in for a process under construction; 0 when no page is left. */
    method PlacePage(d: nat, virt: u32, x: Frame, writable: bool, ghost s0: Sys, ghost dirs: set<nat>, ghost leak: set<nat>)
      returns (f: nat)
      requires Ready() && Building(s0, dirs, S(), d, leak) && x.Data?
      requires KERNEL_PDES <= PdIndex(virt)
      modifies this, pmm, pmm.bitmap
      ensures Ready()
      ensures f == 0 <==> old(pmm.usedFrames) == TOTAL_FRAMES
      ensures f == 0 ==> S() == old(S()) && |pmm.Used()| == TOTAL_FRAMES
      ensures f != 0 ==> && CanPlace(s0, dirs, old(S()), d, leak, PdIndex(virt), PtIndex(virt), f, x)
                         && IsTable(old(mem), d) && SlotReady(Fresh(old(S()), f, x), d, PdIndex(virt))
                         && S() == Placed(old(S()), d, PdIndex(virt), PtIndex(virt), f, x, writable)
                         && (Full(old(pmm.Used()) + {f}) <==> old(pmm.usedFrames) + 1 == TOTAL_FRAMES)
    {
      hide Building, Spare, MapIn, SlotReady, RunsDry, OutOfTables, Replaced;
      ghost var s := S();
      f := AllocFrame();
      if f == 0 {
        return;
      }
      mem := Fill(mem, f, x);
      PlaceReady(s0, dirs, s, d, leak, PdIndex(virt), PtIndex(virt), f, x);
      assert S() == Fresh(s, f, x);
      AllBelow(s.used + {f}, TOTAL_FRAMES);
      MapPageIn(d, virt, f, writable, true);
    }

    method FreeFrame(f: nat)
      requires Ready() && f < TOTAL_FRAMES && !IsReserved(f)
      modifies pmm, pmm.bitmap
      ensures Ready() && pmm.Used() == old(pmm.Used()) - {f}
    {
      FrameAddress(f);
      pmm.FreePage(f * PAGE_SIZE);
    }

    /** Frees the pages mapped through the table of slot `i`. */
    method FreePages(d: nat, i: nat)
      requires Ready() && KERNEL_PDES <= i && Releasable(S(), d, i) && At(mem, d, i).present
      modifies pmm, pmm.bitmap
      ensures Ready()
      ensures forall f: nat :: f in pmm.Used() <==> f in old(pmm.Used()) && !exists b: nat :: HasPage(mem, d, i, b, f)
    {
      var pt := At(mem, d, i).frame;
      assert HasTable(mem, d, i, pt);
      MappedEnds(mem, d, i);
      hide MappedBelow;
      var j := 0;
      while j < ENTRIES
        invariant j <= ENTRIES && Ready()
        invariant forall f: nat :: f in pmm.Used() <==> f in old(pmm.Used()) && !MappedBelow(mem, d, i, j, f)
      {
        var e := At(mem, pt, j);
        assert e == Walk(mem, d, i, j);
        MappedOneMore(mem, d, i, j);
        if e.present {
          assert HasPage(mem, d, i, j, e.frame);
          assert HeldBySlot(mem, d, i, e.frame);
          FreeFrame(e.frame);
        }
        j := j + 1;
      }
    }

    /** Frees what hangs off one private slot; for slot 0 only the table, its pages being the kernel's. */
    method FreeSlot(d: nat, i: nat)
      requires Ready() && Private(i) && Releasable(S(), d, i)
      modifies pmm, pmm.bitmap
      ensures Ready()
      ensures forall f: nat :: f in pmm.Used() <==> f in old(pmm.Used()) && !HeldBySlot(mem, d, i, f)
    {
      if At(mem, d, i).present {
        var pt := At(mem, d, i).frame;
        assert HasTable(mem, d, i, pt);
        assert HeldBySlot(mem, d, i, pt);
        if i != 0 {
          FreePages(d, i);
        }
        FreeFrame(pt);
      }
    }

    /** Frees a process directory: its private tables, the pages above the kernel range, and itself. */
    method FreeDirectory(d: nat)
      requires Ready() && ProcOk(S(), d)
      modifies pmm, pmm.bitmap
      ensures Ready() && S() == Torn(old(S()), d)
    {
      hide HeldBelow, HeldBySlot, Releasable;
      ghost var s := S();
      ProcessReleasable(s, d, 0);
      HeldAtStart(mem, d);
      FreeSlot(d, 0);
      var i := KERNEL_PDES;
      while i < ENTRIES
        invariant KERNEL_PDES <= i <= ENTRIES && Ready()
        invariant forall f: nat :: f in pmm.Used() <==> f in s.used && !HeldBelow(mem, d, i, f)
      {
        ProcessReleasable(s, d, i);
        ReleasableAnyTime(s, S(), d, i);
        FreeSlot(d, i);
        HeldOneMore(mem, d, i);
        i := i + 1;
      }
      HeldIsOwned(mem, d);
      FreeFrame(d);
      assert pmm.Used() == s.used - Owned(mem, d);
    }
  }
}
