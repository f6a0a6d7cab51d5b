/**
 The address space task_create_user builds: code pages of the kernel image, where
 they are, and a stack page.
 */
module UserSpaces {
  import opened Machine
  import opened Pmm
  import opened PagingSpec
  import opened AddressSpace
  import opened Spaces
  import opened SpaceFrames
  import opened ProcessBuild

  /** The addresses `vs`, all below 4 MB, translate to themselves. */
  predicate Identity(mem: Phys, d: nat, vs: seq<u32>) {
    forall k :: 0 <= k < |vs| ==> PdIndex(vs[k]) == 0 && Translate(mem, d, vs[k]) == vs[k]
  }

  /** A zeroed page, which Ring 3 may read and write, at the address of the stack. */
  predicate StackMapped(mem: Phys, d: nat, u: nat) {
    && Translate(mem, d, 0xBFFF_F000) == 4096 * u
    && PageAt(mem, d, PdIndex(0xBFFF_F000), PtIndex(0xBFFF_F000)) == Page(Zeros(4096), true, true)
  }

  /** Ring 3 reaches, and may write to, the code pages and the stack page if there is one, and nothing else. */
  ghost predicate UserSpace(mem: Phys, d: nat, code: seq<u32>, u: nat, stack: bool) {
    && UserPages(mem, d, if stack then code + [0xBFFF_F000] else code)
    && Identity(mem, d, code) && (stack ==> StackMapped(mem, d, u))
  }

  /** The state while a user address space is prepared from `s0`: the code pages mapped so far and no page above 16 MB. */
  ghost predicate Preparing(s0: Sys, dirs: set<nat>, s: Sys, d: nat, vs: seq<u32>) {
    && Building(s0, dirs, s, d, {}) && NoUserPages(s.mem, d) && UserPages(s.mem, d, vs) && Identity(s.mem, d, vs)
    && forall a: nat :: KERNEL_PDES <= a < ENTRIES ==> IsTable(s.mem, d) && !At(s.mem, d, a).present
  }

  lemma PrepareClone(s: Sys, dirs: set<nat>, d: nat, p: nat)
    requires CanClone(s, dirs, d, p)
    ensures Preparing(s, dirs, Cloned(s, d, p), d, [])
  {
    BuildClone(s, dirs, d, p);
  }

  lemma PrepareCode(s0: Sys, dirs: set<nat>, s: Sys, d: nat, vs: seq<u32>, v: u32)
    requires Preparing(s0, dirs, s, d, vs) && PdIndex(v) == 0
    ensures SlotReady(s, d, 0)
    ensures var r := MapIn(s, d, 0, PtIndex(v), UserEntry(v / 4096, true));
            Preparing(s0, dirs, r, d, vs + [v]) && r.used == s.used
  {
    var e := UserEntry(v / 4096, true);
    PrivateSlotReady(s, dirs + {d}, d, 0);
    assert Mappable(s, dirs + {d}, d, 0, PtIndex(v), e);
    assert TablesOk(s, d);
    BuildLow(s0, dirs, s, d, {}, PtIndex(v), e);
    MapOpens(s, dirs + {d}, d, v, e, vs);
    MapInShape(s, dirs + {d}, d, 0, PtIndex(v), e);
    var r := MapIn(s, d, 0, PtIndex(v), e);
    var ws := vs + [v];
    forall k | 0 <= k < |ws| ensures PdIndex(ws[k]) == 0 && Translate(r.mem, d, ws[k]) == ws[k] {
      OnePageChanges(s, dirs + {d}, d, 0, PtIndex(v), e, 0, PtIndex(ws[k]));
      PageIndices(ws[k], v);
      WholeAddress(ws[k]);
      assert k < |vs| ==> ws[k] == vs[k];
    }
  }

  lemma WholeAddress(v: u32)
    ensures v == v / 4096 * 4096 + v % 4096
  {
  }

  /** The stack page completes the address space; with one frame left, it is taken and lost. */
  lemma PrepareStack(s0: Sys, dirs: set<nat>, s: Sys, d: nat, vs: seq<u32>, f: nat)
    requires Preparing(s0, dirs, s, d, vs) && CanPlace(s0, dirs, s, d, {}, 767, 1023, f, ZeroPage())
    ensures IsTable(s.mem, d) && SlotReady(Fresh(s, f, ZeroPage()), d, 767)
    ensures var r := Placed(s, d, 767, 1023, f, ZeroPage(), true);
            if Full(s.used + {f}) then Building(s0, dirs, r, d, {f}) && UserSpace(r.mem, d, vs, f, false)
            else Building(s0, dirs, r, d, {}) && UserSpace(r.mem, d, vs, f, true)
  {
    hide Building, Placed, UserPages, Full, SlotReady, Fresh, Identity, StackMapped;
    StackIndex();
    assert Replaced(s.mem, d, 767, 1023) == {};
    PlaceBuilds(s0, dirs, s, d, {}, 767, 1023, f, ZeroPage(), true);
    PlaceOpens(s0, dirs, s, d, {}, 0xBFFF_F000, f, ZeroPage(), vs);
    StackPlaced(s0, dirs, s, d, vs, f);
    var none: set<nat> := {};
    assert none + {f} == {f} && none + Replaced(s.mem, d, 767, 1023) == none;
  }

  lemma StackIndex()
    ensures PdIndex(0xBFFF_F000) == 767 && PtIndex(0xBFFF_F000) == 1023
  {
  }

  lemma InMemory(s0: Sys, dirs: set<nat>, s: Sys, d: nat, f: nat)
    requires CanPlace(s0, dirs, s, d, {}, 767, 1023, f, ZeroPage())
    ensures f < |s.mem|
  {
  }

  lemma StackPlaced(s0: Sys, dirs: set<nat>, s: Sys, d: nat, vs: seq<u32>, f: nat)
    requires Preparing(s0, dirs, s, d, vs) && CanPlace(s0, dirs, s, d, {}, 767, 1023, f, ZeroPage())
    ensures IsTable(s.mem, d) && SlotReady(Fresh(s, f, ZeroPage()), d, 767)
    ensures var r := Placed(s, d, 767, 1023, f, ZeroPage(), true);
            Identity(r.mem, d, vs) && (!Full(s.used + {f}) ==> StackMapped(r.mem, d, f))
  {
    hide Building, Placed, UserPages, Full, SlotReady, Fresh, CanPlace;
    StackIndex();
    InMemory(s0, dirs, s, d, f);
    PlaceShows(s0, dirs, s, d, {}, 767, 1023, f, ZeroPage(), true, 767, 1023);
    PlaceWalks(s0, dirs, s, d, {}, 767, 1023, f, ZeroPage(), true, 767, 1023);
    forall k | 0 <= k < |vs|
      ensures Translate(Placed(s, d, 767, 1023, f, ZeroPage(), true).mem, d, vs[k]) == Translate(s.mem, d, vs[k])
    {
      PlaceWalks(s0, dirs, s, d, {}, 767, 1023, f, ZeroPage(), true, 0, PtIndex(vs[k]));
    }
  }

  /** Writing a frame of the task that is mapped nowhere changes nothing of this. */
  lemma SpaceWritten(s0: Sys, dirs: set<nat>, s: Sys, d: nat, extra: set<nat>, f: nat, x: Frame, vs: seq<u32>, u: nat, stack: bool)
    requires Building(s0, dirs, s, d, extra) && f in extra && x.Data? && UserSpace(s.mem, d, vs, u, stack)
    ensures f < |s.mem| && UserSpace(Fill(s.mem, f, x), d, vs, u, stack)
  {
    hide Building, UserPages;
    WriteOpens(s0, dirs, s, d, extra, f, x, if stack then vs + [0xBFFF_F000] else vs);
    StackIndex();
    WriteShows(s0, dirs, s, d, extra, f, x, 767, 1023);
    ExtraIsForeign(s0, dirs, s, d, extra, f);
    SameWalk(s0, dirs, s, d, extra, f, x, 767, 1023);
    assert d in dirs + {d} && !Owns(s.mem, d, f);
    assert !HasPage(s.mem, d, 767, 1023, f);
    forall k | 0 <= k < |vs| ensures Translate(Fill(s.mem, f, x), d, vs[k]) == Translate(s.mem, d, vs[k]) {
      SameWalk(s0, dirs, s, d, extra, f, x, 0, PtIndex(vs[k]));
    }
  }

  lemma SameWalk(s0: Sys, dirs: set<nat>, s: Sys, d: nat, extra: set<nat>, f: nat, x: Frame, a: nat, b: nat)
    requires Building(s0, dirs, s, d, extra) && f in extra && x.Data? && a < ENTRIES && b < ENTRIES
    ensures f < |s.mem| && Walk(Fill(s.mem, f, x), d, a, b) == Walk(s.mem, d, a, b)
  {
    WriteForeign(s0, dirs, s, d, extra, f);
    DataWalks(s, dirs + {d}, f, x, d, a, b);
  }

  lemma CloneStarts(s: Sys, dirs: set<nat>, d: nat, p: nat)
    requires SysOk(s, dirs) && KernelLow(s) && KernelTableZero(s)
    requires d !in s.used && p !in s.used && d != p && d < TOTAL_FRAMES && p < TOTAL_FRAMES
    ensures d < |s.mem| && p < |s.mem| && Preparing(s, dirs, Cloned(s, d, p), d, [])
  {
    PrepareClone(s, dirs, d, p);
  }

  lemma PreparedStackFree(s0: Sys, dirs: set<nat>, s: Sys, d: nat, vs: seq<u32>)
    requires Preparing(s0, dirs, s, d, vs)
    ensures Building(s0, dirs, s, d, {}) && PdIndex(USER_STACK_VIRT) == 767 && PtIndex(USER_STACK_VIRT) == 1023 && ProcOk(s, d)
  {
  }
}
