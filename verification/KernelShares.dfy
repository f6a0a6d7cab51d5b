/**
 Kernel mappings beside live processes: what a map or unmap in the kernel
 directory does to process directories, and where it shows in them.
 */
module KernelShares {
  import opened PagingSpec
  import opened KernelPaging
  import opened AddressSpace

  /** From `s` to `r` only kernel frames were written, and new kernel frames were free before. */
  ghost predicate KernelWrite(s: Sys, r: Sys) {
    && |r.mem| == |s.mem| && r.kdir == s.kdir && s.used <= r.used && |r.tables| == |s.tables| == ENTRIES
    && (forall g: nat :: g in s.used && g < |s.mem| && !IsKernelFrame(s, g) ==> r.mem[g] == s.mem[g])
    && (forall g: nat :: IsKernelFrame(r, g) ==> IsKernelFrame(s, g) || g !in s.used)
    && (forall a: nat :: 0 < a < KERNEL_PDES && s.tables[a] != 0 ==> r.tables[a] == s.tables[a])
  }

  /** Slots outside 1 to 3 lead a process only through frames of its own. */
  lemma OwnWalk(s: Sys, dirs: set<nat>, r: Sys, d: nat, a: nat, b: nat)
    requires SysOk(s, dirs) && d in dirs && KernelWrite(s, r) && a < ENTRIES && b < ENTRIES
    ensures IsTable(s.mem, d) && IsTable(r.mem, d) && r.mem[d] == s.mem[d] && At(r.mem, d, a) == At(s.mem, d, a)
    ensures Private(a) ==> Walk(r.mem, d, a, b) == Walk(s.mem, d, a, b)
  {
    assert TablesOk(s, d);
    if Private(a) && At(s.mem, d, a).present {
      assert HasTable(s.mem, d, a, At(s.mem, d, a).frame);
    }
  }

  lemma OwnFrames(s: Sys, dirs: set<nat>, r: Sys, d: nat, f: nat)
    requires SysOk(s, dirs) && d in dirs && KernelWrite(s, r)
    ensures forall a: nat :: HasTable(r.mem, d, a, f) <==> HasTable(s.mem, d, a, f)
    ensures forall a: nat, b: nat :: HasPage(r.mem, d, a, b, f) <==> HasPage(s.mem, d, a, b, f)
    ensures Owns(r.mem, d, f) <==> Owns(s.mem, d, f)
  {
    hide KernelWrite, SysOk;
    forall a: nat ensures HasTable(r.mem, d, a, f) <==> HasTable(s.mem, d, a, f) {
      if a < ENTRIES { OwnWalk(s, dirs, r, d, a, 0); }
    }
    forall a: nat, b: nat ensures HasPage(r.mem, d, a, b, f) <==> HasPage(s.mem, d, a, b, f) {
      if a < ENTRIES && b < ENTRIES { OwnWalk(s, dirs, r, d, a, b); }
    }
  }

  lemma ProcKept(s: Sys, dirs: set<nat>, r: Sys, d: nat)
    requires SysOk(s, dirs) && d in dirs && KernelWrite(s, r)
    ensures ProcOk(r, d)
  {
    assert ProcOk(s, d);
    OwnWalk(s, dirs, r, d, 0, 0);
    forall a: nat, t: nat | HasTable(r.mem, d, a, t)
      ensures HasTable(s.mem, d, a, t) && ProcessFrame(r, t) && IsTable(r.mem, t) && t != d
    {
      OwnFrames(s, dirs, r, d, t);
    }
    forall a: nat, b: nat, f: nat | HasPage(r.mem, d, a, b, f) ensures ProcessFrame(r, f) && r.mem[f].Data? {
      OwnFrames(s, dirs, r, d, f);
      assert HasPage(s.mem, d, a, b, f);
    }
    forall a: nat | 0 < a < KERNEL_PDES ensures SharedSlot(r, d, a) {
      assert SharedSlot(s, d, a);
      OwnWalk(s, dirs, r, d, a, 0);
    }
  }

  /** Every process directory stays well formed, and all of them apart. */
  lemma KernelWriteKeeps(s: Sys, dirs: set<nat>, r: Sys)
    requires SysOk(s, dirs) && KernelWrite(s, r) && KernelOk(r)
    ensures SysOk(r, dirs)
  {
    forall d | d in dirs ensures ProcOk(r, d) {
      ProcKept(s, dirs, r, d);
    }
    forall c, d, f: nat | c in dirs && d in dirs && Owns(r.mem, c, f) && Owns(r.mem, d, f) ensures c == d {
      OwnFrames(s, dirs, r, c, f);
      OwnFrames(s, dirs, r, d, f);
    }
  }

  /** Through slots 1 to 3 a process sees what the kernel sees. */
  lemma SharedWalk(s: Sys, dirs: set<nat>, d: nat, a: nat, b: nat)
    requires SysOk(s, dirs) && d in dirs && 0 < a < KERNEL_PDES && b < ENTRIES
    ensures Walk(s.mem, d, a, b) == Walk(s.mem, s.kdir, a, b) && At(s.mem, s.kdir, a).present
  {
    assert SharedSlot(s, d, a) && KernelSlotOk(s, a);
  }

  // ----- Mapping

  lemma MapIsKernelWrite(s: Sys, i: nat, j: nat, e: Entry)
    requires KernelOk(s) && i < ENTRIES && j < ENTRIES
    ensures At(s.mem, s.kdir, i).present ==> IsTable(s.mem, At(s.mem, s.kdir, i).frame) && At(s.mem, s.kdir, i).frame != s.kdir
    ensures KernelWrite(s, MapKernel(s, i, j, e))
  {
    KernelSlotReady(s, i);
    assert KernelSlotOk(s, i);
    if !OutOfTables(s.used, s.mem, s.kdir, i) {
      MapKernelShape(s, i, j, e);
      var r := MapKernel(s, i, j, e);
      hide MapKernel;
      var t := if At(s.mem, s.kdir, i).present then s.tables[i] else Lowest(s.used);
      assert IsKernelFrame(s, s.kdir);
      assert At(s.mem, s.kdir, i).present ==> IsKernelFrame(s, t);
      forall g: nat | IsKernelFrame(r, g) ensures IsKernelFrame(s, g) || g !in s.used {
        if g != s.kdir {
          var k :| 0 <= k < |r.tables| && r.tables[k] == g;
          assert k != i ==> s.tables[k] == g;
        }
      }
    }
  }

  /** A kernel mapping keeps every live process consistent. */
  lemma MapKernelProcesses(s: Sys, dirs: set<nat>, i: nat, j: nat, e: Entry)
    requires SysOk(s, dirs) && i < ENTRIES && j < ENTRIES
    ensures At(s.mem, s.kdir, i).present ==> IsTable(s.mem, At(s.mem, s.kdir, i).frame) && At(s.mem, s.kdir, i).frame != s.kdir
    ensures SysOk(MapKernel(s, i, j, e), dirs)
  {
    hide KernelWrite, MapKernel;
    MapIsKernelWrite(s, i, j, e);
    MapKernelKeeps(s, i, j, e);
    KernelWriteKeeps(s, dirs, MapKernel(s, i, j, e));
  }

  /** It shows in a process exactly at its own page, and only if that page lies in the shared slots 1 to 3. */
  lemma MapKernelShows(s: Sys, dirs: set<nat>, d: nat, i: nat, j: nat, e: Entry, a: nat, b: nat)
    requires SysOk(s, dirs) && d in dirs && i < ENTRIES && j < ENTRIES && a < ENTRIES && b < ENTRIES && e.present
    ensures At(s.mem, s.kdir, i).present ==> IsTable(s.mem, At(s.mem, s.kdir, i).frame) && At(s.mem, s.kdir, i).frame != s.kdir
    ensures Walk(MapKernel(s, i, j, e).mem, d, a, b) ==
              if a == i && b == j && 0 < i < KERNEL_PDES then e else Walk(s.mem, d, a, b)
  {
    MapIsKernelWrite(s, i, j, e);
    MapKernelEffect(s, i, j, e, a, b);
    var r := MapKernel(s, i, j, e);
    hide MapKernel, KernelWrite;
    OwnWalk(s, dirs, r, d, a, b);
    if !Private(a) {
      MapKernelKeeps(s, i, j, e);
      SharedWalk(s, dirs, d, a, b);
      MapKernelProcesses(s, dirs, i, j, e);
      SharedWalk(r, dirs, d, a, b);
      assert SharedSlot(s, d, a) && KernelSlotOk(s, a);
    }
  }

  // ----- Unmapping

  lemma UnmapIsKernelWrite(s: Sys, i: nat, j: nat)
    requires KernelOk(s) && i < ENTRIES && j < ENTRIES
    ensures At(s.mem, s.kdir, i).present ==> IsTable(s.mem, s.tables[i])
    ensures KernelWrite(s, UnmapKernel(s, i, j))
  {
    assert KernelSlotOk(s, i);
    assert s.tables[i] != 0 ==> IsKernelFrame(s, s.tables[i]);
  }

  lemma UnmapKernelProcesses(s: Sys, dirs: set<nat>, i: nat, j: nat)
    requires SysOk(s, dirs) && i < ENTRIES && j < ENTRIES
    ensures At(s.mem, s.kdir, i).present ==> IsTable(s.mem, s.tables[i])
    ensures SysOk(UnmapKernel(s, i, j), dirs)
  {
    hide KernelWrite, UnmapKernel;
    UnmapIsKernelWrite(s, i, j);
    UnmapKernelKeeps(s, i, j);
    KernelWriteKeeps(s, dirs, UnmapKernel(s, i, j));
  }

  /** An unmapping shows in a process exactly at its own page, and only in slots 1 to 3. */
  lemma UnmapKernelShows(s: Sys, dirs: set<nat>, d: nat, i: nat, j: nat, a: nat, b: nat)
    requires SysOk(s, dirs) && d in dirs && i < ENTRIES && j < ENTRIES && a < ENTRIES && b < ENTRIES
    ensures At(s.mem, s.kdir, i).present ==> IsTable(s.mem, s.tables[i])
    ensures Walk(UnmapKernel(s, i, j).mem, d, a, b) ==
              if a == i && b == j && 0 < i < KERNEL_PDES then EMPTY else Walk(s.mem, d, a, b)
  {
    UnmapIsKernelWrite(s, i, j);
    UnmapKernelEffect(s, i, j, a, b);
    var r := UnmapKernel(s, i, j);
    hide UnmapKernel, KernelWrite;
    OwnWalk(s, dirs, r, d, a, b);
    if !Private(a) {
      UnmapKernelProcesses(s, dirs, i, j);
      SharedWalk(s, dirs, d, a, b);
      SharedWalk(r, dirs, d, a, b);
    }
  }
}
