/**
 Per-process page directories: what each one owns, and why mapping in one
 never shows in another.
 */
module AddressSpace {
  import opened Pmm
  import opened PagingSpec

  /** Slots whose tables belong to the process: 0 is a private clone, 4 and up are its own. */
  predicate Private(i: nat) {
    i == 0 || KERNEL_PDES <= i < ENTRIES
  }

  ghost predicate IsKernelFrame(s: Sys, f: nat) {
    f == s.kdir || (f != 0 && f in s.tables)
  }

  predicate HasTable(mem: Phys, d: nat, i: nat, t: nat) {
    Private(i) && IsTable(mem, d) && At(mem, d, i).present && At(mem, d, i).frame == t
  }

  predicate HasPage(mem: Phys, d: nat, i: nat, j: nat, p: nat) {
    KERNEL_PDES <= i < ENTRIES && j < ENTRIES && Walk(mem, d, i, j).present && Walk(mem, d, i, j).frame == p
  }

  /** Frame `f` is the directory, one of its private tables, or a page mapped above the kernel range. */
  ghost predicate Owns(mem: Phys, d: nat, f: nat) {
    || f == d
    || (exists i: nat :: HasTable(mem, d, i, f))
    || (exists i: nat, j: nat :: HasPage(mem, d, i, j, f))
  }

  /** A frame only this process may hold. */
  ghost predicate ProcessFrame(s: Sys, f: nat) {
    f in s.used && f < |s.mem| && !IsReserved(f) && !IsKernelFrame(s, f)
  }

  ghost predicate TablesOk(s: Sys, d: nat) {
    && ProcessFrame(s, d) && IsTable(s.mem, d) && At(s.mem, d, 0).present
    && (forall i: nat, t: nat :: HasTable(s.mem, d, i, t) ==>
          ProcessFrame(s, t) && IsTable(s.mem, t) && t != d && At(s.mem, d, i).writable)
    && (forall i: nat, j: nat, t: nat :: HasTable(s.mem, d, i, t) && HasTable(s.mem, d, j, t) ==> i == j)
    && (forall i: nat :: 0 < i < KERNEL_PDES ==> SharedSlot(s, d, i))
  }

  /** Slots 1 to 3 point at the kernel's own tables, supervisor-only and writable. */
  predicate SharedSlot(s: Sys, d: nat, i: nat)
    requires IsTable(s.mem, d) && i < ENTRIES
  {
    && At(s.mem, d, i).present && !At(s.mem, d, i).user && At(s.mem, d, i).writable
    && i < |s.tables| && s.tables[i] != 0 && At(s.mem, d, i).frame == s.tables[i]
  }

  ghost predicate PagesOk(s: Sys, d: nat) {
    forall i: nat, j: nat, p: nat :: HasPage(s.mem, d, i, j, p) ==>
      ProcessFrame(s, p) && s.mem[p].Data?
  }

  ghost predicate ProcOk(s: Sys, d: nat) {
    TablesOk(s, d) && PagesOk(s, d)
  }

  /** Every directory is well formed and no frame belongs to two of them. */
  ghost predicate SysOk(s: Sys, dirs: set<nat>) {
    && KernelOk(s)
    && (forall d :: d in dirs ==> ProcOk(s, d))
    && (forall d, e, f: nat :: d in dirs && e in dirs && Owns(s.mem, d, f) && Owns(s.mem, e, f) ==> d == e)
  }

  lemma KernelFrameUsed(s: Sys, f: nat)
    requires KernelOk(s) && IsKernelFrame(s, f)
    ensures f in s.used && IsTable(s.mem, f)
  {
    if f != s.kdir {
      var i :| 0 <= i < |s.tables| && s.tables[i] == f;
      assert KernelSlotOk(s, i);
    }
  }

  /** A walk depends only on the directory and the tables it names. */
  lemma WalkFrame(mem: Phys, m': Phys, c: nat, a: nat, b: nat)
    requires |m'| == |mem| && IsTable(mem, c) && m'[c] == mem[c] && a < ENTRIES && b < ENTRIES
    requires At(mem, c, a).present && At(mem, c, a).frame < |mem| ==>
               m'[At(mem, c, a).frame] == mem[At(mem, c, a).frame]
    ensures Walk(m', c, a, b) == Walk(mem, c, a, b)
    ensures At(m', c, a) == At(mem, c, a)
  {
  }

  // ----- Mapping

  predicate SlotReady(s: Sys, d: nat, i: nat) {
    && i < ENTRIES && IsTable(s.mem, d) && |s.mem| == TOTAL_FRAMES && d in s.used
    && (At(s.mem, d, i).present ==> IsTable(s.mem, At(s.mem, d, i).frame) && At(s.mem, d, i).frame != d)
  }

  lemma PrivateSlotReady(s: Sys, dirs: set<nat>, d: nat, i: nat)
    requires SysOk(s, dirs) && d in dirs && Private(i)
    ensures SlotReady(s, d, i)
  {
    assert TablesOk(s, d);
    if At(s.mem, d, i).present {
      assert HasTable(s.mem, d, i, At(s.mem, d, i).frame);
    }
  }

  function MapIn(s: Sys, d: nat, i: nat, j: nat, e: Entry): (r: Sys)
    requires SlotReady(s, d, i) && j < ENTRIES
  {
    var (u, m) := MapEntry(s.used, s.mem, d, i, j, e);
    s.(used := u, mem := m)
  }

  /** What the caller of paging_map_page_in provides: a private slot, and for user pages a frame of its own. */
  ghost predicate Mappable(s: Sys, dirs: set<nat>, d: nat, i: nat, j: nat, e: Entry) {
    && SysOk(s, dirs) && d in dirs && Private(i) && SlotReady(s, d, i) && j < ENTRIES && e.present
    && (KERNEL_PDES <= i ==>
          && ProcessFrame(s, e.frame) && s.mem[e.frame].Data?
          && forall c :: c in dirs && Owns(s.mem, c, e.frame) ==> c == d)
  }

  /** The table that ends up holding the entry. */
  function TableFor(s: Sys, d: nat, i: nat): (t: nat)
    requires IsTable(s.mem, d) && i < ENTRIES
  {
    if At(s.mem, d, i).present then At(s.mem, d, i).frame else Lowest(s.used)
  }

  /** The state a mapping produces, slot by slot. */
  lemma MapInShape(s: Sys, dirs: set<nat>, d: nat, i: nat, j: nat, e: Entry)
    requires Mappable(s, dirs, d, i, j, e) && !OutOfTables(s.used, s.mem, d, i)
    ensures var r := MapIn(s, d, i, j, e);
            var t := TableFor(s, d, i);
            && |r.mem| == TOTAL_FRAMES && r.used == s.used + {t} && r.kdir == s.kdir && r.tables == s.tables
            && IsTable(r.mem, d) && IsTable(r.mem, t) && t != d && ProcessFrame(r, t)
            && (forall g: nat :: g < TOTAL_FRAMES && g != d && g != t ==> r.mem[g] == s.mem[g])
            && (forall k: nat :: k < ENTRIES && k != i ==> At(r.mem, d, k) == At(s.mem, d, k))
            && At(r.mem, d, i).present && At(r.mem, d, i).frame == t
            && (At(r.mem, d, i).user <==> e.user || (At(s.mem, d, i).present && At(s.mem, d, i).user)) && At(r.mem, d, i).writable
            && (forall l: nat :: l < ENTRIES ==>
                  At(r.mem, t, l) == if l == j then e else if At(s.mem, d, i).present then At(s.mem, t, l) else EMPTY)
  {
    assert TablesOk(s, d);
    if At(s.mem, d, i).present {
      assert HasTable(s.mem, d, i, At(s.mem, d, i).frame);
    } else if IsKernelFrame(s, Lowest(s.used)) {
      KernelFrameUsed(s, Lowest(s.used));
    }
    MapDirectory(s.used, s.mem, d, i, j, e);
    forall g: nat | g < TOTAL_FRAMES && g != d && g != TableFor(s, d, i)
      ensures MapIn(s, d, i, j, e).mem[g] == s.mem[g]
    {
      if At(s.mem, d, i).present || g in s.used {
        MapWrites(s.used, s.mem, d, i, j, e, g);
      }
    }
  }

  /** Frames of the kernel and of other processes are not written. */
  lemma ForeignFrames(s: Sys, dirs: set<nat>, d: nat, i: nat, j: nat, e: Entry, g: nat)
    requires Mappable(s, dirs, d, i, j, e) && !OutOfTables(s.used, s.mem, d, i)
    requires IsKernelFrame(s, g) || (g in s.used && exists c :: c in dirs && c != d && Owns(s.mem, c, g))
    ensures g < TOTAL_FRAMES && MapIn(s, d, i, j, e).mem[g] == s.mem[g]
  {
    MapInShape(s, dirs, d, i, j, e);
    var t := TableFor(s, d, i);
    if IsKernelFrame(s, g) {
      KernelFrameUsed(s, g);
      assert ProcessFrame(s, d);
      assert At(s.mem, d, i).present ==> HasTable(s.mem, d, i, t);
    } else {
      assert Owns(s.mem, d, d);
      if At(s.mem, d, i).present {
        assert HasTable(s.mem, d, i, t);
        assert Owns(s.mem, d, t);
      }
    }
  }

  /** Mapping in one directory changes no translation of the kernel. */
  lemma KernelUnchanged(s: Sys, dirs: set<nat>, d: nat, i: nat, j: nat, e: Entry, a: nat, b: nat)
    requires Mappable(s, dirs, d, i, j, e) && !OutOfTables(s.used, s.mem, d, i) && a < ENTRIES && b < ENTRIES
    ensures var r := MapIn(s, d, i, j, e);
            Walk(r.mem, s.kdir, a, b) == Walk(s.mem, s.kdir, a, b) && At(r.mem, s.kdir, a) == At(s.mem, s.kdir, a)
  {
    MapInShape(s, dirs, d, i, j, e);
    var r := MapIn(s, d, i, j, e);
    ForeignFrames(s, dirs, d, i, j, e, s.kdir);
    assert KernelSlotOk(s, a);
    if At(s.mem, s.kdir, a).present {
      assert s.tables[a] in s.tables;
      ForeignFrames(s, dirs, d, i, j, e, s.tables[a]);
    }
    WalkFrame(s.mem, r.mem, s.kdir, a, b);
  }

  /** Mapping in one directory changes no translation of another. */
  lemma OthersUnchanged(s: Sys, dirs: set<nat>, d: nat, i: nat, j: nat, e: Entry, c: nat, a: nat, b: nat)
    requires Mappable(s, dirs, d, i, j, e) && !OutOfTables(s.used, s.mem, d, i)
    requires c in dirs && c != d && a < ENTRIES && b < ENTRIES
    ensures var r := MapIn(s, d, i, j, e);
            && IsTable(r.mem, c) && r.mem[c] == s.mem[c]
            && Walk(r.mem, c, a, b) == Walk(s.mem, c, a, b) && At(r.mem, c, a) == At(s.mem, c, a)
  {
    MapInShape(s, dirs, d, i, j, e);
    var r := MapIn(s, d, i, j, e);
    assert TablesOk(s, c) && Owns(s.mem, c, c);
    ForeignFrames(s, dirs, d, i, j, e, c);
    var t := At(s.mem, c, a).frame;
    if At(s.mem, c, a).present {
      if Private(a) {
        assert HasTable(s.mem, c, a, t);
        assert Owns(s.mem, c, t);
      } else {
        assert SharedSlot(s, c, a);
        assert s.tables[a] in s.tables;
      }
      ForeignFrames(s, dirs, d, i, j, e, t);
    }
    WalkFrame(s.mem, r.mem, c, a, b);
  }

  /** In the directory itself exactly one page changes. */
  lemma OnePageChanges(s: Sys, dirs: set<nat>, d: nat, i: nat, j: nat, e: Entry, a: nat, b: nat)
    requires Mappable(s, dirs, d, i, j, e) && !OutOfTables(s.used, s.mem, d, i) && a < ENTRIES && b < ENTRIES
    ensures Walk(MapIn(s, d, i, j, e).mem, d, a, b) == if a == i && b == j then e else Walk(s.mem, d, a, b)
  {
    MapInShape(s, dirs, d, i, j, e);
    var r := MapIn(s, d, i, j, e);
    var t := TableFor(s, d, i);
    if a != i {
      if At(s.mem, d, a).present {
        var f := At(s.mem, d, a).frame;
        if Private(a) {
          assert HasTable(s.mem, d, a, f);
          assert At(s.mem, d, i).present ==> HasTable(s.mem, d, i, t);
          assert f != t;
        } else {
          assert SharedSlot(s, d, a);
          assert s.tables[a] in s.tables;
          ForeignFrames(s, dirs, d, i, j, e, f);
        }
      }
    }
  }

  // ----- Ownership after a mapping

  /** The process gains the table, if it is new, and the mapped page; it loses at most what the entry replaced. */
  lemma OwnsAfterMap(s: Sys, dirs: set<nat>, d: nat, i: nat, j: nat, e: Entry, f: nat)
    requires Mappable(s, dirs, d, i, j, e) && !OutOfTables(s.used, s.mem, d, i)
    ensures var r := MapIn(s, d, i, j, e);
            var gained := f == TableFor(s, d, i) || (KERNEL_PDES <= i && f == e.frame);
            && (Owns(r.mem, d, f) ==> Owns(s.mem, d, f) || gained)
            && (gained ==> Owns(r.mem, d, f))
            && (Owns(s.mem, d, f) && !Walk(s.mem, d, i, j).present ==> Owns(r.mem, d, f))
  {
    MapInShape(s, dirs, d, i, j, e);
    var r := MapIn(s, d, i, j, e);
    var t := TableFor(s, d, i);
    forall a: nat, b: nat | a < ENTRIES && b < ENTRIES
      ensures Walk(r.mem, d, a, b) == if a == i && b == j then e else Walk(s.mem, d, a, b)
    {
      OnePageChanges(s, dirs, d, i, j, e, a, b);
    }
    assert HasTable(r.mem, d, i, t);
    if KERNEL_PDES <= i {
      assert HasPage(r.mem, d, i, j, e.frame);
    }
    TablesAfterMap(s, dirs, d, i, j, e, f);
    PagesAfterMap(s, d, i, j, e, r, f);
  }

  lemma TablesAfterMap(s: Sys, dirs: set<nat>, d: nat, i: nat, j: nat, e: Entry, f: nat)
    requires Mappable(s, dirs, d, i, j, e) && !OutOfTables(s.used, s.mem, d, i)
    ensures var r := MapIn(s, d, i, j, e);
            && (forall k: nat :: HasTable(r.mem, d, k, f) ==> HasTable(s.mem, d, k, f) || (k == i && f == TableFor(s, d, i)))
            && (forall k: nat :: HasTable(s.mem, d, k, f) ==> HasTable(r.mem, d, k, f))
  {
    MapInShape(s, dirs, d, i, j, e);
  }

  lemma PagesAfterMap(s: Sys, d: nat, i: nat, j: nat, e: Entry, r: Sys, f: nat)
    requires i < ENTRIES && j < ENTRIES
    requires forall a: nat, b: nat :: a < ENTRIES && b < ENTRIES ==>
               Walk(r.mem, d, a, b) == if a == i && b == j then e else Walk(s.mem, d, a, b)
    ensures forall a: nat, b: nat :: HasPage(r.mem, d, a, b, f) ==>
              HasPage(s.mem, d, a, b, f) || (KERNEL_PDES <= i && f == e.frame)
    ensures !Walk(s.mem, d, i, j).present ==>
              forall a: nat, b: nat :: HasPage(s.mem, d, a, b, f) ==> HasPage(r.mem, d, a, b, f)
  {
  }

  lemma OwnsOther(s: Sys, dirs: set<nat>, d: nat, i: nat, j: nat, e: Entry, c: nat, f: nat)
    requires Mappable(s, dirs, d, i, j, e) && !OutOfTables(s.used, s.mem, d, i) && c in dirs && c != d
    ensures Owns(MapIn(s, d, i, j, e).mem, c, f) <==> Owns(s.mem, c, f)
    ensures forall a: nat :: HasTable(MapIn(s, d, i, j, e).mem, c, a, f) <==> HasTable(s.mem, c, a, f)
    ensures forall a: nat, b: nat :: HasPage(MapIn(s, d, i, j, e).mem, c, a, b, f) <==> HasPage(s.mem, c, a, b, f)
  {
    var r := MapIn(s, d, i, j, e);
    forall a: nat | a < ENTRIES ensures At(r.mem, c, a) == At(s.mem, c, a) && IsTable(r.mem, c) && IsTable(s.mem, c) {
      OthersUnchanged(s, dirs, d, i, j, e, c, a, 0);
    }
    forall a: nat, b: nat | a < ENTRIES && b < ENTRIES ensures Walk(r.mem, c, a, b) == Walk(s.mem, c, a, b) {
      OthersUnchanged(s, dirs, d, i, j, e, c, a, b);
    }
    assert forall a: nat :: HasTable(r.mem, c, a, f) <==> HasTable(s.mem, c, a, f);
    assert forall a: nat, b: nat :: HasPage(r.mem, c, a, b, f) <==> HasPage(s.mem, c, a, b, f);
  }

  // ----- Invariants kept by a mapping

  lemma SameKernelFrames(s: Sys, r: Sys, f: nat)
    requires r.kdir == s.kdir && r.tables == s.tables
    ensures IsKernelFrame(r, f) <==> IsKernelFrame(s, f)
  {
  }

  lemma KernelKept(s: Sys, dirs: set<nat>, d: nat, i: nat, j: nat, e: Entry)
    requires Mappable(s, dirs, d, i, j, e) && !OutOfTables(s.used, s.mem, d, i)
    ensures KernelOk(MapIn(s, d, i, j, e))
  {
    MapInShape(s, dirs, d, i, j, e);
    var r := MapIn(s, d, i, j, e);
    ForeignFrames(s, dirs, d, i, j, e, s.kdir);
    forall k: nat | k < ENTRIES ensures KernelSlotOk(r, k) {
      assert KernelSlotOk(s, k);
      KernelUnchanged(s, dirs, d, i, j, e, k, 0);
      if s.tables[k] != 0 {
        assert s.tables[k] in s.tables;
        ForeignFrames(s, dirs, d, i, j, e, s.tables[k]);
      }
    }
  }

  lemma OtherKept(s: Sys, dirs: set<nat>, d: nat, i: nat, j: nat, e: Entry, c: nat)
    requires Mappable(s, dirs, d, i, j, e) && !OutOfTables(s.used, s.mem, d, i) && c in dirs && c != d
    ensures ProcOk(MapIn(s, d, i, j, e), c)
  {
    MapInShape(s, dirs, d, i, j, e);
    var r := MapIn(s, d, i, j, e);
    OthersUnchanged(s, dirs, d, i, j, e, c, 0, 0);
    assert ProcOk(s, c);
    forall a: nat | 0 < a < KERNEL_PDES ensures SharedSlot(r, c, a) {
      assert SharedSlot(s, c, a);
      OthersUnchanged(s, dirs, d, i, j, e, c, a, 0);
    }
    forall a: nat, t: nat | HasTable(r.mem, c, a, t)
      ensures ProcessFrame(r, t) && IsTable(r.mem, t) && t != c && At(r.mem, c, a).writable
    {
      OwnsOther(s, dirs, d, i, j, e, c, t);
      OthersUnchanged(s, dirs, d, i, j, e, c, a, 0);
      assert HasTable(s.mem, c, a, t);
      ForeignFrames(s, dirs, d, i, j, e, t);
      SameKernelFrames(s, r, t);
    }
    forall a: nat, b: nat, t: nat | HasTable(r.mem, c, a, t) && HasTable(r.mem, c, b, t) ensures a == b {
      OwnsOther(s, dirs, d, i, j, e, c, t);
      assert HasTable(s.mem, c, a, t) && HasTable(s.mem, c, b, t);
    }
    forall a: nat, b: nat, p: nat | HasPage(r.mem, c, a, b, p) ensures ProcessFrame(r, p) && r.mem[p].Data? {
      OwnsOther(s, dirs, d, i, j, e, c, p);
      assert HasPage(s.mem, c, a, b, p);
      ForeignFrames(s, dirs, d, i, j, e, p);
      SameKernelFrames(s, r, p);
    }
    SameKernelFrames(s, r, c);
  }

  lemma OwnTablesKept(s: Sys, dirs: set<nat>, d: nat, i: nat, j: nat, e: Entry)
    requires Mappable(s, dirs, d, i, j, e) && !OutOfTables(s.used, s.mem, d, i)
    ensures TablesOk(MapIn(s, d, i, j, e), d)
  {
    MapInShape(s, dirs, d, i, j, e);
    var r := MapIn(s, d, i, j, e);
    var t0 := TableFor(s, d, i);
    assert TablesOk(s, d);
    forall k: nat, t: nat | HasTable(r.mem, d, k, t)
      ensures HasTable(s.mem, d, k, t) || (k == i && t == t0)
      ensures ProcessFrame(r, t) && IsTable(r.mem, t) && t != d && At(r.mem, d, k).writable
    {
      TablesAfterMap(s, dirs, d, i, j, e, t);
      SameKernelFrames(s, r, t);
    }
    forall k: nat, l: nat, t: nat | HasTable(r.mem, d, k, t) && HasTable(r.mem, d, l, t) ensures k == l {
      if At(s.mem, d, i).present {
        assert HasTable(s.mem, d, i, t0);
      }
    }
    forall a: nat | 0 < a < KERNEL_PDES ensures SharedSlot(r, d, a) {
      assert SharedSlot(s, d, a);
    }
    SameKernelFrames(s, r, d);
  }

  lemma OwnPagesKept(s: Sys, dirs: set<nat>, d: nat, i: nat, j: nat, e: Entry)
    requires Mappable(s, dirs, d, i, j, e) && !OutOfTables(s.used, s.mem, d, i)
    ensures PagesOk(MapIn(s, d, i, j, e), d)
  {
    MapInShape(s, dirs, d, i, j, e);
    var r := MapIn(s, d, i, j, e);
    assert PagesOk(s, d);
    forall a: nat, b: nat, p: nat | HasPage(r.mem, d, a, b, p) ensures ProcessFrame(r, p) && r.mem[p].Data? {
      OnePageChanges(s, dirs, d, i, j, e, a, b);
      assert HasPage(s.mem, d, a, b, p) || p == e.frame;
      assert ProcessFrame(s, p) && s.mem[p].Data?;
      SameKernelFrames(s, r, p);
    }
  }

  lemma StillDisjoint(s: Sys, dirs: set<nat>, d: nat, i: nat, j: nat, e: Entry, c: nat, f: nat)
    requires Mappable(s, dirs, d, i, j, e) && !OutOfTables(s.used, s.mem, d, i) && c in dirs && c != d
    requires Owns(MapIn(s, d, i, j, e).mem, c, f)
    ensures !Owns(MapIn(s, d, i, j, e).mem, d, f)
  {
    OwnsOther(s, dirs, d, i, j, e, c, f);
    OwnsAfterMap(s, dirs, d, i, j, e, f);
    OwnedIsUsed(s, c, f);
    if At(s.mem, d, i).present {
      assert HasTable(s.mem, d, i, TableFor(s, d, i));
    }
  }

  lemma OwnedIsUsed(s: Sys, c: nat, f: nat)
    requires ProcOk(s, c) && Owns(s.mem, c, f)
    ensures ProcessFrame(s, f)
  {
  }

  /** Mapping keeps every directory well formed and all of them apart. */
  lemma MapInKeeps(s: Sys, dirs: set<nat>, d: nat, i: nat, j: nat, e: Entry)
    requires Mappable(s, dirs, d, i, j, e) && !OutOfTables(s.used, s.mem, d, i)
    ensures SysOk(MapIn(s, d, i, j, e), dirs)
  {
    var r := MapIn(s, d, i, j, e);
    KernelKept(s, dirs, d, i, j, e);
    OwnTablesKept(s, dirs, d, i, j, e);
    OwnPagesKept(s, dirs, d, i, j, e);
    forall c | c in dirs ensures ProcOk(r, c) {
      if c != d {
        OtherKept(s, dirs, d, i, j, e, c);
      }
    }
    forall a, b, f: nat | a in dirs && b in dirs && Owns(r.mem, a, f) && Owns(r.mem, b, f) ensures a == b {
      if a != b {
        if a == d { StillDisjoint(s, dirs, d, i, j, e, b, f); }
        else if b == d { StillDisjoint(s, dirs, d, i, j, e, a, f); }
        else {
          OwnsOther(s, dirs, d, i, j, e, a, f);
          OwnsOther(s, dirs, d, i, j, e, b, f);
        }
      }
    }
  }

  // ----- Access from Ring 3

  /** A user page-table entry sits under a user directory entry. */
  ghost predicate UserConsistent(mem: Phys, d: nat) {
    IsTable(mem, d) && forall a: nat, b: nat :: a < ENTRIES && b < ENTRIES && Walk(mem, d, a, b).user ==> At(mem, d, a).user
  }

  /** After a mapping, Ring 3 reaches the mapped page exactly if it was mapped as a user page, and every other page as before. */
  lemma UserAccessExact(s: Sys, dirs: set<nat>, d: nat, i: nat, j: nat, e: Entry, a: nat, b: nat)
    requires Mappable(s, dirs, d, i, j, e) && !OutOfTables(s.used, s.mem, d, i) && a < ENTRIES && b < ENTRIES
    requires UserConsistent(s.mem, d)
    ensures var r := MapIn(s, d, i, j, e);
            && UserConsistent(r.mem, d)
            && (UserAccess(r.mem, d, a, b) <==> if a == i && b == j then e.user else UserAccess(s.mem, d, a, b))
  {
    MapInShape(s, dirs, d, i, j, e);
    var r := MapIn(s, d, i, j, e);
    forall k: nat, l: nat | k < ENTRIES && l < ENTRIES
      ensures Walk(r.mem, d, k, l) == if k == i && l == j then e else Walk(s.mem, d, k, l)
    {
      OnePageChanges(s, dirs, d, i, j, e, k, l);
    }
  }

  /** It may write to the mapped page exactly if that was mapped as a writable user page, and to every other page as before. */
  lemma WriteAccessExact(s: Sys, dirs: set<nat>, d: nat, i: nat, j: nat, e: Entry, a: nat, b: nat)
    requires Mappable(s, dirs, d, i, j, e) && !OutOfTables(s.used, s.mem, d, i) && a < ENTRIES && b < ENTRIES
    requires UserConsistent(s.mem, d)
    ensures WriteAccess(MapIn(s, d, i, j, e).mem, d, a, b) <==>
              if a == i && b == j then e.user && e.writable else WriteAccess(s.mem, d, a, b)
  {
    MapInShape(s, dirs, d, i, j, e);
    UserAccessExact(s, dirs, d, i, j, e, a, b);
    OnePageChanges(s, dirs, d, i, j, e, a, b);
    assert TablesOk(s, d);
    assert At(s.mem, d, i).present ==> HasTable(s.mem, d, i, At(s.mem, d, i).frame);
  }

  /** ... and no page of another directory becomes reachable or unreachable. */
  lemma UserAccessOther(s: Sys, dirs: set<nat>, d: nat, i: nat, j: nat, e: Entry, c: nat, a: nat, b: nat)
    requires Mappable(s, dirs, d, i, j, e) && !OutOfTables(s.used, s.mem, d, i)
    requires c in dirs && c != d && a < ENTRIES && b < ENTRIES
    ensures UserAccess(MapIn(s, d, i, j, e).mem, c, a, b) <==> UserAccess(s.mem, c, a, b)
    ensures WriteAccess(MapIn(s, d, i, j, e).mem, c, a, b) <==> WriteAccess(s.mem, c, a, b)
  {
    OthersUnchanged(s, dirs, d, i, j, e, c, a, b);
  }
}
