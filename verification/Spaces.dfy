/**
 Building and tearing down process directories, frame by frame.
 */
module Spaces {
  import opened Pmm
  import opened PagingSpec
  import opened AddressSpace

  /** The kernel range is mapped and nothing in it is open to Ring 3. */
  ghost predicate KernelLow(s: Sys) {
    && KernelOk(s)
    && (forall i: nat :: i < KERNEL_PDES ==> s.tables[i] != 0 && !At(s.mem, s.kdir, i).user)
    && (forall i: nat, j: nat :: i < KERNEL_PDES && j < ENTRIES ==> !Walk(s.mem, s.kdir, i, j).user)
  }

  // ----- Cloning

  /** The directory paging_clone_directory builds around the private table `p`. */
  function CloneEntries(s: Sys, p: nat): (es: seq<Entry>)
    requires IsTable(s.mem, s.kdir)
    ensures |es| == ENTRIES && es[0] == Entry(p, true, true, false)
    ensures forall i :: 0 < i < KERNEL_PDES ==> es[i] == At(s.mem, s.kdir, i)
    ensures forall i :: KERNEL_PDES <= i < ENTRIES ==> es[i] == EMPTY
  {
    seq(ENTRIES, i requires 0 <= i < ENTRIES =>
      if i == 0 then Entry(p, true, true, false) else if i < KERNEL_PDES then At(s.mem, s.kdir, i) else EMPTY)
  }

  function Cloned(s: Sys, d: nat, p: nat): (r: Sys)
    requires KernelTableZero(s) && d < |s.mem| && p < |s.mem| && d != p
  {
    s.(used := s.used + {d, p}, mem := Fill(Fill(s.mem, p, s.mem[s.tables[0]]), d, Table(CloneEntries(s, p))))
  }

  predicate KernelTableZero(s: Sys) {
    IsTable(s.mem, s.kdir) && |s.tables| == ENTRIES && IsTable(s.mem, s.tables[0])
  }

  /** Two frames that are free before the clone. */
  ghost predicate CanClone(s: Sys, dirs: set<nat>, d: nat, p: nat) {
    && SysOk(s, dirs) && KernelLow(s) && KernelTableZero(s)
    && d !in s.used && p !in s.used && d != p && d < TOTAL_FRAMES && p < TOTAL_FRAMES
  }

  lemma CloneShape(s: Sys, dirs: set<nat>, d: nat, p: nat)
    requires CanClone(s, dirs, d, p)
    ensures var r := Cloned(s, d, p);
            && |r.mem| == TOTAL_FRAMES && IsTable(r.mem, d) && IsTable(r.mem, p)
            && (forall g: nat :: g in s.used ==> g < TOTAL_FRAMES && r.mem[g] == s.mem[g])
            && (forall i: nat :: i < ENTRIES ==> At(r.mem, d, i) == CloneEntries(s, p)[i])
            && (forall j: nat :: j < ENTRIES ==> At(r.mem, p, j) == At(s.mem, s.tables[0], j))
            && d !in dirs && !IsKernelFrame(s, d) && !IsKernelFrame(s, p) && !IsReserved(d) && !IsReserved(p)
  {
    if IsKernelFrame(s, d) { KernelFrameUsed(s, d); }
    if IsKernelFrame(s, p) { KernelFrameUsed(s, p); }
    assert d in dirs ==> TablesOk(s, d);
  }

  /** Frames in use before the clone keep every walk of the kernel and of existing directories. */
  lemma CloneWalks(s: Sys, dirs: set<nat>, d: nat, p: nat, c: nat, a: nat, b: nat)
    requires CanClone(s, dirs, d, p) && (c == s.kdir || c in dirs) && a < ENTRIES && b < ENTRIES
    ensures var r := Cloned(s, d, p);
            && IsTable(r.mem, c) && IsTable(s.mem, c) && r.mem[c] == s.mem[c] && At(r.mem, c, a) == At(s.mem, c, a)
            && Walk(r.mem, c, a, b) == Walk(s.mem, c, a, b)
  {
    CloneShape(s, dirs, d, p);
    var r := Cloned(s, d, p);
    if c == s.kdir {
      assert KernelSlotOk(s, a);
    } else {
      assert TablesOk(s, c);
      var t := At(s.mem, c, a).frame;
      if At(s.mem, c, a).present {
        if Private(a) {
          assert HasTable(s.mem, c, a, t);
        } else {
          assert SharedSlot(s, c, a);
          assert KernelSlotOk(s, a);
        }
      }
    }
    WalkFrame(s.mem, r.mem, c, a, b);
  }

  /** The clone translates the kernel range as the kernel does and nothing above it; it owns two frames. */
  lemma CloneSees(s: Sys, dirs: set<nat>, d: nat, p: nat, a: nat, b: nat, f: nat)
    requires CanClone(s, dirs, d, p) && a < ENTRIES && b < ENTRIES
    ensures var r := Cloned(s, d, p);
            && Walk(r.mem, d, a, b) == (if a < KERNEL_PDES then Walk(s.mem, s.kdir, a, b) else EMPTY)
            && !UserAccess(r.mem, d, a, b)
            && (Owns(r.mem, d, f) <==> f == d || f == p)
            && (HasTable(r.mem, d, a, f) <==> a == 0 && f == p)
            && !HasPage(r.mem, d, a, b, f)
  {
    CloneShape(s, dirs, d, p);
    var r := Cloned(s, d, p);
    assert KernelSlotOk(s, a) && KernelSlotOk(s, 0);
    assert forall i: nat :: HasTable(r.mem, d, i, f) <==> i == 0 && f == p;
    assert forall i: nat, j: nat :: !HasPage(r.mem, d, i, j, f);
    assert HasTable(r.mem, d, 0, p);
    if 0 < a < KERNEL_PDES {
      assert s.tables[a] in s.used;
    }
  }

  lemma CloneOwnsOther(s: Sys, dirs: set<nat>, d: nat, p: nat, c: nat, f: nat)
    requires CanClone(s, dirs, d, p) && c in dirs
    ensures var r := Cloned(s, d, p);
            && (Owns(r.mem, c, f) <==> Owns(s.mem, c, f))
            && (forall a: nat :: HasTable(r.mem, c, a, f) <==> HasTable(s.mem, c, a, f))
            && (forall a: nat, b: nat :: HasPage(r.mem, c, a, b, f) <==> HasPage(s.mem, c, a, b, f))
  {
    var r := Cloned(s, d, p);
    forall a: nat, b: nat | a < ENTRIES && b < ENTRIES
      ensures At(r.mem, c, a) == At(s.mem, c, a) && IsTable(r.mem, c) && IsTable(s.mem, c)
      ensures Walk(r.mem, c, a, b) == Walk(s.mem, c, a, b)
    {
      CloneWalks(s, dirs, d, p, c, a, b);
    }
    CloneWalks(s, dirs, d, p, c, 0, 0);
    assert forall a: nat :: HasTable(r.mem, c, a, f) <==> HasTable(s.mem, c, a, f) by {
      forall a: nat ensures HasTable(r.mem, c, a, f) <==> HasTable(s.mem, c, a, f) {
        if a < ENTRIES { CloneWalks(s, dirs, d, p, c, a, 0); }
      }
    }
    assert forall a: nat, b: nat :: HasPage(r.mem, c, a, b, f) <==> HasPage(s.mem, c, a, b, f);
  }

  lemma CloneKernel(s: Sys, dirs: set<nat>, d: nat, p: nat)
    requires CanClone(s, dirs, d, p)
    ensures KernelLow(Cloned(s, d, p))
  {
    CloneShape(s, dirs, d, p);
    var r := Cloned(s, d, p);
    forall i: nat | i < ENTRIES ensures KernelSlotOk(r, i) && At(r.mem, s.kdir, i) == At(s.mem, s.kdir, i) {
      assert KernelSlotOk(s, i);
      CloneWalks(s, dirs, d, p, s.kdir, i, 0);
    }
    forall i: nat, j: nat | i < KERNEL_PDES && j < ENTRIES ensures !Walk(r.mem, s.kdir, i, j).user {
      CloneWalks(s, dirs, d, p, s.kdir, i, j);
    }
  }

  lemma CloneOther(s: Sys, dirs: set<nat>, d: nat, p: nat, c: nat)
    requires CanClone(s, dirs, d, p) && c in dirs
    ensures ProcOk(Cloned(s, d, p), c)
  {
    CloneShape(s, dirs, d, p);
    var r := Cloned(s, d, p);
    assert ProcOk(s, c);
    CloneWalks(s, dirs, d, p, c, 0, 0);
    forall a: nat, t: nat | HasTable(r.mem, c, a, t)
      ensures HasTable(s.mem, c, a, t) && ProcessFrame(r, t) && IsTable(r.mem, t) && t != c && At(r.mem, c, a).writable
    {
      CloneOwnsOther(s, dirs, d, p, c, t);
      CloneWalks(s, dirs, d, p, c, a, 0);
      SameKernelFrames(s, r, t);
    }
    forall a: nat, b: nat, f: nat | HasPage(r.mem, c, a, b, f) ensures ProcessFrame(r, f) && r.mem[f].Data? {
      CloneOwnsOther(s, dirs, d, p, c, f);
      SameKernelFrames(s, r, f);
    }
    forall a: nat | 0 < a < KERNEL_PDES ensures SharedSlot(r, c, a) {
      assert SharedSlot(s, c, a);
      CloneWalks(s, dirs, d, p, c, a, 0);
    }
    SameKernelFrames(s, r, c);
  }

  lemma CloneNew(s: Sys, dirs: set<nat>, d: nat, p: nat)
    requires CanClone(s, dirs, d, p)
    ensures ProcOk(Cloned(s, d, p), d) && UserConsistent(Cloned(s, d, p).mem, d)
  {
    CloneShape(s, dirs, d, p);
    var r := Cloned(s, d, p);
    forall a: nat, b: nat, f: nat | a < ENTRIES && b < ENTRIES
      ensures HasTable(r.mem, d, a, f) <==> a == 0 && f == p
      ensures !HasPage(r.mem, d, a, b, f)
    {
      CloneSees(s, dirs, d, p, a, b, f);
    }
    forall a: nat, b: nat | a < ENTRIES && b < ENTRIES ensures !Walk(r.mem, d, a, b).user {
      CloneSees(s, dirs, d, p, a, b, 0);
    }
    forall a: nat | 0 < a < KERNEL_PDES ensures SharedSlot(r, d, a) {
      assert KernelSlotOk(s, a);
    }
    SameKernelFrames(s, r, d);
    SameKernelFrames(s, r, p);
  }

  /** A successful clone keeps the system consistent with one more directory. */
  lemma CloneKeeps(s: Sys, dirs: set<nat>, d: nat, p: nat)
    requires CanClone(s, dirs, d, p)
    ensures d !in dirs && SysOk(Cloned(s, d, p), dirs + {d}) && KernelLow(Cloned(s, d, p))
  {
    var r := Cloned(s, d, p);
    CloneShape(s, dirs, d, p);
    CloneKernel(s, dirs, d, p);
    CloneNew(s, dirs, d, p);
    forall c | c in dirs ensures ProcOk(r, c) {
      CloneOther(s, dirs, d, p, c);
    }
    forall a, b, f: nat | a in dirs + {d} && b in dirs + {d} && Owns(r.mem, a, f) && Owns(r.mem, b, f) ensures a == b {
      CloneSees(s, dirs, d, p, 0, 0, f);
      if a in dirs { CloneOwnsOther(s, dirs, d, p, a, f); }
      if b in dirs { CloneOwnsOther(s, dirs, d, p, b, f); }
      if a in dirs && Owns(s.mem, a, f) { OwnedIsUsed(s, a, f); }
      if b in dirs && Owns(s.mem, b, f) { OwnedIsUsed(s, b, f); }
    }
  }

  // ----- Conservation

  /** All frames of the process. */
  ghost function Owned(mem: Phys, d: nat): (fs: set<nat>)
    ensures forall f: nat :: f in fs <==> f < |mem| && Owns(mem, d, f)
  {
    set f: nat | f < |mem| && Owns(mem, d, f)
  }

  /** The frames in use are those of `u0`, those of the process, and `extra`, without overlap. */
  ghost predicate Built(u0: set<nat>, s: Sys, d: nat, extra: set<nat>) {
    && s.used == u0 + Owned(s.mem, d) + extra
    && u0 !! Owned(s.mem, d) && u0 !! extra && extra !! Owned(s.mem, d)
  }

  /** What paging_free_directory leaves in use. */
  ghost function Torn(s: Sys, d: nat): (r: Sys) {
    s.(used := s.used - Owned(s.mem, d))
  }

  /** Tearing a directory down undoes exactly what was built. */
  lemma TearDownRestores(u0: set<nat>, s: Sys, d: nat, extra: set<nat>)
    requires Built(u0, s, d, extra)
    ensures Torn(s, d).used == u0 + extra
  {
  }

  lemma CloneBuilds(s: Sys, dirs: set<nat>, d: nat, p: nat)
    requires CanClone(s, dirs, d, p)
    ensures Built(s.used, Cloned(s, d, p), d, {})
  {
    var r := Cloned(s, d, p);
    CloneShape(s, dirs, d, p);
    forall f: nat ensures f in Owned(r.mem, d) <==> f == d || f == p {
      CloneSees(s, dirs, d, p, 0, 0, f);
    }
  }

  /** No frame is mapped at two pages above the kernel range. */
  ghost predicate MapsOnce(mem: Phys, d: nat) {
    forall a: nat, b: nat, a': nat, b': nat, f: nat ::
      HasPage(mem, d, a, b, f) && HasPage(mem, d, a', b', f) ==> a == a' && b == b'
  }

  lemma OnceSame(mem: Phys, m': Phys, d: nat)
    requires MapsOnce(mem, d)
    requires forall a: nat, b: nat :: a < ENTRIES && b < ENTRIES ==> Walk(m', d, a, b) == Walk(mem, d, a, b)
    ensures MapsOnce(m', d)
  {
    assert forall a: nat, b: nat, f: nat :: HasPage(m', d, a, b, f) ==> HasPage(mem, d, a, b, f);
  }

  /** The frame a mapping at (`i`, `j`) pushes out of the process, if there is one. */
  function Replaced(mem: Phys, d: nat, i: nat, j: nat): (fs: set<nat>)
    requires i < ENTRIES && j < ENTRIES
  {
    if Walk(mem, d, i, j).present then {Walk(mem, d, i, j).frame} else {}
  }

  /** The process gains the page and the table, and loses what the entry replaced. */
  lemma RemapOwns(s: Sys, dirs: set<nat>, d: nat, i: nat, j: nat, e: Entry, f: nat)
    requires Mappable(s, dirs, d, i, j, e) && KERNEL_PDES <= i && !OutOfTables(s.used, s.mem, d, i)
    requires MapsOnce(s.mem, d) && !Owns(s.mem, d, e.frame)
    ensures Owns(MapIn(s, d, i, j, e).mem, d, f) <==>
              (Owns(s.mem, d, f) && f !in Replaced(s.mem, d, i, j)) || f == e.frame || f == TableFor(s, d, i)
  {
    OwnsAfterMap(s, dirs, d, i, j, e, f);
    TablesAfterMap(s, dirs, d, i, j, e, f);
    var r := MapIn(s, d, i, j, e);
    forall a: nat, b: nat | a < ENTRIES && b < ENTRIES
      ensures Walk(r.mem, d, a, b) == if a == i && b == j then e else Walk(s.mem, d, a, b)
    {
      OnePageChanges(s, dirs, d, i, j, e, a, b);
    }
    if Walk(s.mem, d, i, j).present {
      var g := Walk(s.mem, d, i, j).frame;
      assert HasPage(s.mem, d, i, j, g) && Owns(s.mem, d, g) && ProcOk(s, d);
      forall a: nat, b: nat | HasPage(r.mem, d, a, b, g) ensures a == i && b == j {
        assert (a == i && b == j) || HasPage(s.mem, d, a, b, g);
      }
      forall a: nat, b: nat | HasPage(s.mem, d, a, b, f) && f != g ensures HasPage(r.mem, d, a, b, f) {
      }
      assert forall k: nat :: HasTable(s.mem, d, k, f) ==> HasTable(r.mem, d, k, f);
    }
  }

  /** A frame that was mapped nowhere is afterwards mapped once. */
  lemma RemapOnce(s: Sys, dirs: set<nat>, d: nat, i: nat, j: nat, e: Entry)
    requires Mappable(s, dirs, d, i, j, e) && !OutOfTables(s.used, s.mem, d, i) && MapsOnce(s.mem, d)
    requires i == 0 || !Owns(s.mem, d, e.frame)
    ensures MapsOnce(MapIn(s, d, i, j, e).mem, d)
  {
    var r := MapIn(s, d, i, j, e);
    forall a: nat, b: nat, f: nat | HasPage(r.mem, d, a, b, f)
      ensures (a == i && b == j && f == e.frame) || (!(a == i && b == j) && HasPage(s.mem, d, a, b, f))
    {
      OnePageChanges(s, dirs, d, i, j, e, a, b);
    }
  }

  /** Mapping a fresh page moves it from `extra` into the process, with its table if that is new; what it replaces drops out. */
  lemma MapBuilds(u0: set<nat>, s: Sys, dirs: set<nat>, d: nat, i: nat, j: nat, e: Entry)
    requires Mappable(s, dirs, d, i, j, e) && KERNEL_PDES <= i && MapsOnce(s.mem, d)
    requires Built(u0, s, d, {e.frame}) && !OutOfTables(s.used, s.mem, d, i)
    ensures Built(u0, MapIn(s, d, i, j, e), d, Replaced(s.mem, d, i, j))
  {
    MapInShape(s, dirs, d, i, j, e);
    var r := MapIn(s, d, i, j, e);
    assert e.frame !in Owned(s.mem, d);
    forall f: nat
      ensures f in Owned(r.mem, d) <==>
                (f in Owned(s.mem, d) && f !in Replaced(s.mem, d, i, j)) || f == e.frame || f == TableFor(s, d, i)
    {
      RemapOwns(s, dirs, d, i, j, e, f);
    }
    TableIsNewOrOwned(s, dirs, d, i);
    ReplacedIsPage(s, dirs, d, i, j);
  }

  lemma ReplacedIsPage(s: Sys, dirs: set<nat>, d: nat, i: nat, j: nat)
    requires SysOk(s, dirs) && d in dirs && KERNEL_PDES <= i < ENTRIES && j < ENTRIES
    ensures IsTable(s.mem, d) && Replaced(s.mem, d, i, j) <= Owned(s.mem, d)
    ensures Replaced(s.mem, d, i, j) != {} ==> At(s.mem, d, i).present
    ensures At(s.mem, d, i).present ==> TableFor(s, d, i) !in Replaced(s.mem, d, i, j)
  {
    assert ProcOk(s, d);
    if Walk(s.mem, d, i, j).present {
      var g := Walk(s.mem, d, i, j).frame;
      assert HasPage(s.mem, d, i, j, g) && Owns(s.mem, d, g);
      assert HasTable(s.mem, d, i, TableFor(s, d, i));
      OwnedIsUsed(s, d, g);
    }
  }

  lemma TableIsNewOrOwned(s: Sys, dirs: set<nat>, d: nat, i: nat)
    requires SysOk(s, dirs) && d in dirs && Private(i) && !OutOfTables(s.used, s.mem, d, i)
    ensures TableFor(s, d, i) !in s.used || TableFor(s, d, i) in Owned(s.mem, d)
  {
    if At(s.mem, d, i).present {
      assert HasTable(s.mem, d, i, TableFor(s, d, i));
      OwnedIsUsed(s, d, TableFor(s, d, i));
    }
  }

  /** Mapping a kernel page into the private clone of table 0 takes no frame. */
  lemma MapLowBuilds(u0: set<nat>, s: Sys, dirs: set<nat>, d: nat, j: nat, e: Entry, extra: set<nat>)
    requires Mappable(s, dirs, d, 0, j, e) && Built(u0, s, d, extra)
    ensures !OutOfTables(s.used, s.mem, d, 0) && Built(u0, MapIn(s, d, 0, j, e), d, extra)
  {
    assert TablesOk(s, d);
    MapInShape(s, dirs, d, 0, j, e);
    var r := MapIn(s, d, 0, j, e);
    assert HasTable(s.mem, d, 0, TableFor(s, d, 0));
    forall f: nat ensures f in Owned(r.mem, d) <==> f in Owned(s.mem, d) {
      OwnsAfterMap(s, dirs, d, 0, j, e, f);
      LowMapKeepsPages(s, dirs, d, j, e, f);
    }
    OwnedIsUsed(s, d, TableFor(s, d, 0));
  }

  lemma LowMapKeepsPages(s: Sys, dirs: set<nat>, d: nat, j: nat, e: Entry, f: nat)
    requires Mappable(s, dirs, d, 0, j, e) && !OutOfTables(s.used, s.mem, d, 0)
    ensures Owns(s.mem, d, f) ==> Owns(MapIn(s, d, 0, j, e).mem, d, f)
  {
    var r := MapIn(s, d, 0, j, e);
    TablesAfterMap(s, dirs, d, 0, j, e, f);
    forall a: nat, b: nat | HasPage(s.mem, d, a, b, f) ensures HasPage(r.mem, d, a, b, f) {
      OnePageChanges(s, dirs, d, 0, j, e, a, b);
    }
  }

  /**
   paging_map_page_in reports nothing when it finds no frame for a table, and it
   overwrites an entry without freeing the page it pointed to. Tearing the
   directory down restores the frames in use exactly when the table existed or
   could be had and the page was not mapped before; otherwise one frame is lost.
   */
  lemma SilentFailureLeaks(u0: set<nat>, s: Sys, dirs: set<nat>, d: nat, i: nat, j: nat, e: Entry)
    requires Mappable(s, dirs, d, i, j, e) && KERNEL_PDES <= i && MapsOnce(s.mem, d)
    requires Built(u0, s, d, {e.frame})
    ensures Torn(MapIn(s, d, i, j, e), d).used == u0 <==>
              !OutOfTables(s.used, s.mem, d, i) && !Walk(s.mem, d, i, j).present
    ensures Torn(MapIn(s, d, i, j, e), d).used ==
              u0 + if OutOfTables(s.used, s.mem, d, i) then {e.frame} else Replaced(s.mem, d, i, j)
  {
    if OutOfTables(s.used, s.mem, d, i) {
      assert MapIn(s, d, i, j, e) == s;
      TearDownRestores(u0, s, d, {e.frame});
      assert e.frame in u0 + {e.frame};
    } else {
      MapBuilds(u0, s, dirs, d, i, j, e);
      TearDownRestores(u0, MapIn(s, d, i, j, e), d, Replaced(s.mem, d, i, j));
      if Walk(s.mem, d, i, j).present {
        assert Walk(s.mem, d, i, j).frame in Replaced(s.mem, d, i, j);
      }
    }
  }
}
