/**
 The kernel's own directory: identity map, map and unmap.
 */
module KernelPaging {
  import opened Machine
  import opened Pmm
  import opened PagingSpec

  lemma KernelSlotReady(s: Sys, i: nat)
    requires KernelOk(s) && i < ENTRIES
    ensures At(s.mem, s.kdir, i).present ==> IsTable(s.mem, At(s.mem, s.kdir, i).frame) && At(s.mem, s.kdir, i).frame != s.kdir
  {
    assert KernelSlotOk(s, i);
  }

  lemma KernelFacts(s: Sys, i: nat)
    requires KernelOk(s) && i < ENTRIES
    ensures IsTable(s.mem, s.kdir) && |s.mem| == TOTAL_FRAMES && |s.tables| == ENTRIES && s.kdir in s.used
    ensures At(s.mem, s.kdir, i).present ==>
              IsTable(s.mem, s.tables[i]) && At(s.mem, s.kdir, i).frame == s.tables[i] && s.tables[i] != s.kdir
  {
    assert KernelSlotOk(s, i);
  }

  function MapKernel(s: Sys, i: nat, j: nat, e: Entry): (r: Sys)
    requires IsTable(s.mem, s.kdir) && i < ENTRIES && j < ENTRIES && |s.mem| == TOTAL_FRAMES && s.kdir in s.used
    requires |s.tables| == ENTRIES
    requires At(s.mem, s.kdir, i).present ==> IsTable(s.mem, At(s.mem, s.kdir, i).frame) && At(s.mem, s.kdir, i).frame != s.kdir
  {
    var (u, m) := MapEntry(s.used, s.mem, s.kdir, i, j, e);
    var grows := !At(s.mem, s.kdir, i).present && !Full(s.used);
    Sys(u, m, s.kdir, if grows then s.tables[i := Lowest(s.used)] else s.tables)
  }

  function UnmapKernel(s: Sys, i: nat, j: nat): (r: Sys)
    requires IsTable(s.mem, s.kdir) && i < ENTRIES && j < ENTRIES && |s.tables| == ENTRIES
    requires At(s.mem, s.kdir, i).present ==> IsTable(s.mem, s.tables[i])
  {
    if !At(s.mem, s.kdir, i).present then s else s.(mem := Put(s.mem, s.tables[i], j, EMPTY))
  }

  lemma MapKernelShape(s: Sys, i: nat, j: nat, e: Entry)
    requires KernelOk(s) && i < ENTRIES && j < ENTRIES && !OutOfTables(s.used, s.mem, s.kdir, i)
    ensures At(s.mem, s.kdir, i).present ==> IsTable(s.mem, At(s.mem, s.kdir, i).frame) && At(s.mem, s.kdir, i).frame != s.kdir
    ensures var r := MapKernel(s, i, j, e);
            var t := if At(s.mem, s.kdir, i).present then s.tables[i] else Lowest(s.used);
            && r.used == s.used + {t} && r.kdir == s.kdir && r.tables == s.tables[i := t] && |r.mem| == TOTAL_FRAMES
            && t < TOTAL_FRAMES && t != s.kdir && t != 0 && !IsReserved(t) && IsTable(r.mem, t) && IsTable(r.mem, s.kdir)
            && (At(s.mem, s.kdir, i).present || t !in s.used)
            && (forall g: nat :: g in s.used && g != s.kdir && g != t ==> r.mem[g] == s.mem[g])
            && (forall k: nat :: k < ENTRIES && k != i ==> At(r.mem, s.kdir, k) == At(s.mem, s.kdir, k))
            && At(r.mem, s.kdir, i).present && At(r.mem, s.kdir, i).frame == t
            && (forall l: nat :: l < ENTRIES ==>
                  At(r.mem, t, l) == if l == j then e else if At(s.mem, s.kdir, i).present then At(s.mem, t, l) else EMPTY)
  {
    KernelSlotReady(s, i);
    assert KernelSlotOk(s, i);
    MapDirectory(s.used, s.mem, s.kdir, i, j, e);
    forall g: nat | g in s.used && g != s.kdir && (At(s.mem, s.kdir, i).present ==> g != s.tables[i])
      ensures MapKernel(s, i, j, e).mem[g] == s.mem[g]
    {
      MapWrites(s.used, s.mem, s.kdir, i, j, e, g);
    }
  }

  /** A kernel mapping changes the translation of exactly one page, and nothing if no table can be had. */
  lemma MapKernelEffect(s: Sys, i: nat, j: nat, e: Entry, a: nat, b: nat)
    requires KernelOk(s) && i < ENTRIES && j < ENTRIES && e.present && a < ENTRIES && b < ENTRIES
    ensures At(s.mem, s.kdir, i).present ==> IsTable(s.mem, At(s.mem, s.kdir, i).frame) && At(s.mem, s.kdir, i).frame != s.kdir
    ensures var r := MapKernel(s, i, j, e);
            && r.kdir == s.kdir
            && Walk(r.mem, s.kdir, a, b) ==
               if a == i && b == j && !OutOfTables(s.used, s.mem, s.kdir, i) then e else Walk(s.mem, s.kdir, a, b)
  {
    KernelSlotReady(s, i);
    if !OutOfTables(s.used, s.mem, s.kdir, i) {
      MapKernelShape(s, i, j, e);
      assert KernelSlotOk(s, a) && KernelSlotOk(s, i);
    }
  }

  /** ... and keeps pd_tables in step with the directory, with no table shared by two slots. */
  lemma MapKernelKeeps(s: Sys, i: nat, j: nat, e: Entry)
    requires KernelOk(s) && i < ENTRIES && j < ENTRIES
    ensures At(s.mem, s.kdir, i).present ==> IsTable(s.mem, At(s.mem, s.kdir, i).frame) && At(s.mem, s.kdir, i).frame != s.kdir
    ensures KernelOk(MapKernel(s, i, j, e))
  {
    KernelSlotReady(s, i);
    if !OutOfTables(s.used, s.mem, s.kdir, i) {
      MapKernelShape(s, i, j, e);
      var r := MapKernel(s, i, j, e);
      forall k: nat | k < ENTRIES ensures KernelSlotOk(r, k) {
        MapKernelSlot(s, i, j, e, k);
      }
      hide MapKernel, Lowest, OutOfTables;
      forall k, l | 0 <= k < l < ENTRIES && r.tables[k] != 0 ensures r.tables[k] != r.tables[l] {
        assert KernelSlotOk(s, k) && KernelSlotOk(s, l);
      }
    }
  }

  lemma MapKernelSlot(s: Sys, i: nat, j: nat, e: Entry, k: nat)
    requires KernelOk(s) && i < ENTRIES && j < ENTRIES && k < ENTRIES && !OutOfTables(s.used, s.mem, s.kdir, i)
    ensures At(s.mem, s.kdir, i).present ==> IsTable(s.mem, At(s.mem, s.kdir, i).frame) && At(s.mem, s.kdir, i).frame != s.kdir
    ensures KernelSlotOk(MapKernel(s, i, j, e), k)
  {
    KernelSlotReady(s, i);
    MapKernelShape(s, i, j, e);
    hide MapKernel, Lowest, OutOfTables;
    assert KernelSlotOk(s, i) && KernelSlotOk(s, k);
  }

  /** Unmapping clears exactly one page. */
  lemma UnmapKernelEffect(s: Sys, i: nat, j: nat, a: nat, b: nat)
    requires KernelOk(s) && i < ENTRIES && j < ENTRIES && a < ENTRIES && b < ENTRIES
    ensures At(s.mem, s.kdir, i).present ==> IsTable(s.mem, s.tables[i])
    ensures Walk(UnmapKernel(s, i, j).mem, s.kdir, a, b) == if a == i && b == j then EMPTY else Walk(s.mem, s.kdir, a, b)
  {
    assert KernelSlotOk(s, i) && KernelSlotOk(s, a);
  }

  lemma UnmapKernelKeeps(s: Sys, i: nat, j: nat)
    requires KernelOk(s) && i < ENTRIES && j < ENTRIES
    ensures At(s.mem, s.kdir, i).present ==> IsTable(s.mem, s.tables[i])
    ensures KernelOk(UnmapKernel(s, i, j))
  {
    assert KernelSlotOk(s, i);
    var r := UnmapKernel(s, i, j);
    forall k: nat | k < ENTRIES ensures KernelSlotOk(r, k) {
      assert KernelSlotOk(s, k);
    }
  }

  // ----- The identity map of 0 - 16 MB

  /** What paging_init sets up. */
  ghost predicate IdentityMapped(s: Sys) {
    && KernelOk(s)
    && forall i: nat, j: nat :: i < ENTRIES && j < ENTRIES ==>
         Walk(s.mem, s.kdir, i, j) == if i < KERNEL_PDES then Entry(1024 * i + j, true, true, false) else EMPTY
  }

  /** After paging_init an address below 16 MB translates to itself and every other address to 0. */
  lemma IdentityTranslation(s: Sys, virt: u32)
    requires IdentityMapped(s)
    ensures Translate(s.mem, s.kdir, virt) == if virt < 0x100_0000 then virt else 0
  {
    var e := Walk(s.mem, s.kdir, PdIndex(virt), PtIndex(virt));
    var q := virt / 0x1000;
    assert q == 1024 * (q / 1024) + q % 1024;
    assert virt == 4096 * q + virt % 4096;
  }

  /** One mapping moves the translation of the addresses of one page, and of no other. */
  lemma MapTranslation(s: Sys, virt: u32, e: Entry, v: u32)
    requires KernelOk(s) && e.present && !OutOfTables(s.used, s.mem, s.kdir, PdIndex(virt))
    ensures At(s.mem, s.kdir, PdIndex(virt)).present ==>
              IsTable(s.mem, At(s.mem, s.kdir, PdIndex(virt)).frame) && At(s.mem, s.kdir, PdIndex(virt)).frame != s.kdir
    ensures var r := MapKernel(s, PdIndex(virt), PtIndex(virt), e);
            Translate(r.mem, s.kdir, v) ==
              if v / 0x1000 == virt / 0x1000 then e.frame * 4096 + v % 4096 else Translate(s.mem, s.kdir, v)
  {
    MapKernelEffect(s, PdIndex(virt), PtIndex(virt), e, PdIndex(v), PtIndex(v));
    PageIndices(v, virt);
  }
}
