/**
 A process directory under construction: what it holds so far, and that
 nothing else has changed.
 */
module ProcessBuild {
  import opened Machine
  import opened Pmm
  import opened PagingSpec
  import opened AddressSpace
  import opened Spaces
  import opened SpaceFrames

  /** What a process sees at a page, and what Ring 3 may do there: the rights of both levels together. */
  datatype View = Unmapped | Page(bytes: seq<u8>, writable: bool, user: bool)

  function PageAt(mem: Phys, d: nat, i: nat, j: nat): (v: View)
    requires i < ENTRIES && j < ENTRIES
  {
    var e := Walk(mem, d, i, j);
    if e.present && e.frame < |mem| && mem[e.frame].Data?
    then Page(mem[e.frame].bytes, e.writable && At(mem, d, i).writable, e.user && At(mem, d, i).user)
    else Unmapped
  }

  /**
   Directory `d` has been built on top of `s0`: it holds its own frames, `extra`
   are allocated but in no table, and no frame in use before has been written.
   */
  ghost predicate Building(s0: Sys, dirs: set<nat>, s: Sys, d: nat, extra: set<nat>) {
    && SysOk(s0, dirs) && d !in dirs && SysOk(s, dirs + {d}) && KernelLow(s)
    && Built(s0.used, s, d, extra) && SameBelow(s0, s)
    && UserConsistent(s.mem, d) && MapsOnce(s.mem, d)
  }

  ghost predicate SameBelow(s0: Sys, s: Sys) {
    && s.kdir == s0.kdir && s.tables == s0.tables
    && forall f :: f in s0.used ==> f < |s0.mem| && f < |s.mem| && s.mem[f] == s0.mem[f]
  }

  ghost predicate NoUserPages(mem: Phys, d: nat) {
    forall i: nat, j: nat :: KERNEL_PDES <= i < ENTRIES && j < ENTRIES ==> !Walk(mem, d, i, j).present
  }

  lemma BuildClone(s: Sys, dirs: set<nat>, d: nat, p: nat)
    requires CanClone(s, dirs, d, p)
    ensures var r := Cloned(s, d, p);
            && Building(s, dirs, r, d, {}) && NoUserPages(r.mem, d)
            && (forall i: nat :: KERNEL_PDES <= i < ENTRIES ==> At(r.mem, d, i) == EMPTY)
            && (forall i: nat, j: nat :: i < ENTRIES && j < ENTRIES ==> !UserAccess(r.mem, d, i, j))
  {
    CloneKeeps(s, dirs, d, p);
    CloneBuilds(s, dirs, d, p);
    CloneShape(s, dirs, d, p);
    CloneNew(s, dirs, d, p);
    var r := Cloned(s, d, p);
    forall i: nat, j: nat | i < ENTRIES && j < ENTRIES
      ensures KERNEL_PDES <= i ==> Walk(r.mem, d, i, j) == EMPTY
      ensures !UserAccess(r.mem, d, i, j)
    {
      CloneSees(s, dirs, d, p, i, j, 0);
    }
  }

  // ----- Mapping while building

  /** A mapping writes the directory and one table, neither of which was in use before. */
  lemma MapSameBelow(s0: Sys, dirs: set<nat>, s: Sys, d: nat, extra: set<nat>, i: nat, j: nat, e: Entry)
    requires Building(s0, dirs, s, d, extra) && Mappable(s, dirs + {d}, d, i, j, e)
    requires !OutOfTables(s.used, s.mem, d, i)
    ensures SameBelow(s0, MapIn(s, d, i, j, e))
  {
    MapInShape(s, dirs + {d}, d, i, j, e);
    TableIsNewOrOwned(s, dirs + {d}, d, i);
    assert Owns(s.mem, d, d);
  }

  lemma MapKernelLow(s: Sys, dirs: set<nat>, d: nat, i: nat, j: nat, e: Entry)
    requires Mappable(s, dirs, d, i, j, e) && !OutOfTables(s.used, s.mem, d, i) && KernelLow(s)
    ensures KernelLow(MapIn(s, d, i, j, e))
  {
    var r := MapIn(s, d, i, j, e);
    MapInShape(s, dirs, d, i, j, e);
    KernelKept(s, dirs, d, i, j, e);
    forall k: nat, l: nat | k < KERNEL_PDES && l < ENTRIES
      ensures !Walk(r.mem, r.kdir, k, l).user && !At(r.mem, r.kdir, k).user
    {
      KernelUnchanged(s, dirs, d, i, j, e, k, l);
    }
    assert forall k: nat :: k < KERNEL_PDES ==> r.tables[k] != 0 && !Walk(r.mem, r.kdir, k, 0).user && !At(r.mem, r.kdir, k).user;
  }

  /** Mapping a kernel page below 4 MB for the process: no frame is taken and no page above 16 MB changes. */
  lemma BuildLow(s0: Sys, dirs: set<nat>, s: Sys, d: nat, extra: set<nat>, j: nat, e: Entry)
    requires Building(s0, dirs, s, d, extra) && Mappable(s, dirs + {d}, d, 0, j, e)
    ensures var r := MapIn(s, d, 0, j, e);
            && Building(s0, dirs, r, d, extra) && r.used == s.used
            && (forall a: nat :: KERNEL_PDES <= a < ENTRIES ==> At(r.mem, d, a) == At(s.mem, d, a))
            && (NoUserPages(s.mem, d) ==> NoUserPages(r.mem, d))
  {
    var r := MapIn(s, d, 0, j, e);
    MapLowBuilds(s0.used, s, dirs + {d}, d, j, e, extra);
    MapInKeeps(s, dirs + {d}, d, 0, j, e);
    MapKernelLow(s, dirs + {d}, d, 0, j, e);
    MapSameBelow(s0, dirs, s, d, extra, 0, j, e);
    UserAccessExact(s, dirs + {d}, d, 0, j, e, 0, 0);
    RemapOnce(s, dirs + {d}, d, 0, j, e);
    MapInShape(s, dirs + {d}, d, 0, j, e);
    assert TablesOk(s, d);
    forall a: nat, b: nat | KERNEL_PDES <= a < ENTRIES && b < ENTRIES
      ensures Walk(r.mem, d, a, b) == Walk(s.mem, d, a, b)
    {
      OnePageChanges(s, dirs + {d}, d, 0, j, e, a, b);
    }
  }

  /** A fresh frame filled with data, before it is mapped. */
  function Fresh(s: Sys, f: nat, x: Frame): (r: Sys)
    requires f < |s.mem|
  {
    s.(used := s.used + {f}, mem := Fill(s.mem, f, x))
  }

  lemma FreshIsForeign(s: Sys, dirs: set<nat>, f: nat)
    requires SysOk(s, dirs) && f !in s.used
    ensures !IsKernelFrame(s, f) && !IsReserved(f) && forall c :: c in dirs ==> !Owns(s.mem, c, f)
  {
    if IsKernelFrame(s, f) { KernelFrameUsed(s, f); }
    forall c | c in dirs ensures !Owns(s.mem, c, f) {
      if Owns(s.mem, c, f) { OwnedIsUsed(s, c, f); }
    }
  }

  lemma FreshKeeps(s: Sys, dirs: set<nat>, f: nat, x: Frame)
    requires SysOk(s, dirs) && f !in s.used && f < TOTAL_FRAMES && x.Data?
    ensures var r := Fresh(s, f, x);
            && SysOk(r, dirs) && (KernelLow(s) ==> KernelLow(r)) && ProcessFrame(r, f)
            && (forall c :: c in dirs ==> !Owns(r.mem, c, f))
  {
    FreshIsForeign(s, dirs, f);
    AllocKeeps(s, dirs, f);
    var s1 := s.(used := s.used + {f});
    assert NoTable(s1, dirs, f);
    DataKeeps(s1, dirs, f, x);
    SameKernelFrames(s, Fresh(s, f, x), f);
    forall c | c in dirs ensures !Owns(Fresh(s, f, x).mem, c, f) {
      DataOwns(s1, dirs, f, x, c, f);
    }
  }

  /** Filling a fresh frame leaves every walk of a directory as it is. */
  lemma FreshWalks(s: Sys, dirs: set<nat>, f: nat, x: Frame, c: nat, a: nat, b: nat)
    requires SysOk(s, dirs) && f !in s.used && f < TOTAL_FRAMES && x.Data? && c in dirs && a < ENTRIES && b < ENTRIES
    ensures var r := Fresh(s, f, x);
            && Walk(r.mem, c, a, b) == Walk(s.mem, c, a, b)
            && IsTable(s.mem, c) && IsTable(r.mem, c) && At(r.mem, c, a) == At(s.mem, c, a)
            && (KERNEL_PDES <= a ==> PageAt(r.mem, c, a, b) == PageAt(s.mem, c, a, b) && !HasPage(r.mem, c, a, b, f))
  {
    FreshIsForeign(s, dirs, f);
    DataWalks(s, dirs, f, x, c, a, b);
    if KERNEL_PDES <= a && Walk(s.mem, c, a, b).present {
      assert HasPage(s.mem, c, a, b, Walk(s.mem, c, a, b).frame);
      assert PagesOk(s, c);
    }
  }

  lemma BuildFresh(s0: Sys, dirs: set<nat>, s: Sys, d: nat, extra: set<nat>, f: nat, x: Frame)
    requires Building(s0, dirs, s, d, extra) && f !in s.used && f < TOTAL_FRAMES && x.Data?
    ensures Building(s0, dirs, Fresh(s, f, x), d, extra + {f})
    ensures forall a: nat, b: nat :: a < ENTRIES && b < ENTRIES ==> Walk(Fresh(s, f, x).mem, d, a, b) == Walk(s.mem, d, a, b)
    ensures forall a: nat :: a < ENTRIES ==> At(Fresh(s, f, x).mem, d, a) == At(s.mem, d, a)
  {
    hide MapsOnce;
    var r := Fresh(s, f, x);
    FreshKeeps(s, dirs + {d}, f, x);
    FreshIsForeign(s, dirs + {d}, f);
    forall g: nat ensures g in Owned(r.mem, d) <==> g in Owned(s.mem, d) {
      DataOwns(s, dirs + {d}, f, x, d, g);
    }
    assert Owned(r.mem, d) == Owned(s.mem, d);
    forall a: nat, b: nat | a < ENTRIES && b < ENTRIES
      ensures Walk(r.mem, d, a, b) == Walk(s.mem, d, a, b) && At(r.mem, d, a) == At(s.mem, d, a)
    {
      FreshWalks(s, dirs + {d}, f, x, d, a, b);
    }
    assert forall a: nat :: a < ENTRIES ==> Walk(r.mem, d, a, 0) == Walk(s.mem, d, a, 0) && At(r.mem, d, a) == At(s.mem, d, a);
    OnceSame(s.mem, r.mem, d);
    FreshWalks(s, dirs + {d}, f, x, d, 0, 0);
  }

  /** A frame that is allocated, holds data and is mapped by nobody. */
  ghost predicate Spare(s: Sys, dirs: set<nat>, f: nat) {
    ProcessFrame(s, f) && s.mem[f].Data? && forall c :: c in dirs ==> !Owns(s.mem, c, f)
  }

  lemma SpareMappable(s: Sys, dirs: set<nat>, d: nat, i: nat, j: nat, e: Entry)
    requires SysOk(s, dirs) && d in dirs && KERNEL_PDES <= i < ENTRIES && j < ENTRIES && e.present && Spare(s, dirs, e.frame)
    ensures Mappable(s, dirs, d, i, j, e)
  {
    PrivateSlotReady(s, dirs, d, i);
  }

  /** Mapping a spare frame above the kernel range: it joins the process with its table, and what it replaces drops out. */
  lemma BuildMap(s0: Sys, dirs: set<nat>, s: Sys, d: nat, leak: set<nat>, i: nat, j: nat, e: Entry)
    requires Building(s0, dirs, s, d, leak + {e.frame}) && e.frame !in leak && Spare(s, dirs + {d}, e.frame)
    requires KERNEL_PDES <= i < ENTRIES && j < ENTRIES && e.present
    requires !OutOfTables(s.used, s.mem, d, i)
    ensures SlotReady(s, d, i) && Building(s0, dirs, MapIn(s, d, i, j, e), d, leak + Replaced(s.mem, d, i, j))
  {
    SpareMappable(s, dirs + {d}, d, i, j, e);
    var r := MapIn(s, d, i, j, e);
    var u0 := s0.used + leak;
    assert Built(u0, s, d, {e.frame});
    MapBuilds(u0, s, dirs + {d}, d, i, j, e);
    assert Built(s0.used, r, d, leak + Replaced(s.mem, d, i, j));
    RemapOnce(s, dirs + {d}, d, i, j, e);
    MapInKeeps(s, dirs + {d}, d, i, j, e);
    MapKernelLow(s, dirs + {d}, d, i, j, e);
    MapSameBelow(s0, dirs, s, d, leak + {e.frame}, i, j, e);
    UserAccessExact(s, dirs + {d}, d, i, j, e, i, j);
  }

  /** The process sees the new page where it was mapped, and everything else as before. */
  lemma MapShows(s: Sys, dirs: set<nat>, d: nat, i: nat, j: nat, e: Entry, a: nat, b: nat)
    requires Mappable(s, dirs, d, i, j, e) && !OutOfTables(s.used, s.mem, d, i) && KERNEL_PDES <= i && UserConsistent(s.mem, d)
    requires KERNEL_PDES <= a < ENTRIES && b < ENTRIES
    ensures PageAt(MapIn(s, d, i, j, e).mem, d, a, b) ==
              if a == i && b == j then Page(s.mem[e.frame].bytes, e.writable, e.user) else PageAt(s.mem, d, a, b)
  {
    MapInShape(s, dirs, d, i, j, e);
    OnePageChanges(s, dirs, d, i, j, e, a, b);
    var r := MapIn(s, d, i, j, e);
    var t := TableFor(s, d, i);
    assert TablesOk(s, d) && PagesOk(s, d);
    assert At(s.mem, d, i).present ==> HasTable(s.mem, d, i, t);
    var w := Walk(r.mem, d, a, b);
    if w.present && !(a == i && b == j) {
      assert HasPage(s.mem, d, a, b, w.frame);
    }
  }

  // ----- One page from allocation to mapping

  function UserEntry(f: nat, writable: bool): (e: Entry) {
    Entry(f, true, writable, true)
  }

  /** alloc_page, fill, paging_map_page_in. */
  function Placed(s: Sys, d: nat, i: nat, j: nat, f: nat, x: Frame, writable: bool): (r: Sys)
    requires f < |s.mem| && SlotReady(Fresh(s, f, x), d, i) && j < ENTRIES
  {
    MapIn(Fresh(s, f, x), d, i, j, UserEntry(f, writable))
  }

  /** Whether the process lacks a table for slot `i` and none can be had once a page has been taken. */
  ghost predicate RunsDry(s: Sys, d: nat, i: nat, f: nat)
    requires IsTable(s.mem, d) && i < ENTRIES
  {
    !At(s.mem, d, i).present && Full(s.used + {f})
  }

  ghost predicate CanPlace(s0: Sys, dirs: set<nat>, s: Sys, d: nat, leak: set<nat>, i: nat, j: nat, f: nat, x: Frame) {
    && Building(s0, dirs, s, d, leak) && f !in s.used && f < TOTAL_FRAMES && x.Data?
    && KERNEL_PDES <= i < ENTRIES && j < ENTRIES
  }

  lemma PlaceReady(s0: Sys, dirs: set<nat>, s: Sys, d: nat, leak: set<nat>, i: nat, j: nat, f: nat, x: Frame)
    requires CanPlace(s0, dirs, s, d, leak, i, j, f, x)
    ensures var r := Fresh(s, f, x);
            && SlotReady(r, d, i) && IsTable(s.mem, d) && (OutOfTables(r.used, r.mem, d, i) <==> RunsDry(s, d, i, f))
            && Building(s0, dirs, r, d, leak + {f}) && Spare(r, dirs + {d}, f) && Replaced(r.mem, d, i, j) == Replaced(s.mem, d, i, j)
  {
    BuildFresh(s0, dirs, s, d, leak, f, x);
    FreshKeeps(s, dirs + {d}, f, x);
    FreshWalks(s, dirs + {d}, f, x, d, i, j);
    PrivateSlotReady(Fresh(s, f, x), dirs + {d}, d, i);
  }

  /** Placing a page adds it to the process; if the table cannot be had, the page is lost, and so is a page it replaces. */
  lemma PlaceBuilds(s0: Sys, dirs: set<nat>, s: Sys, d: nat, leak: set<nat>, i: nat, j: nat, f: nat, x: Frame, writable: bool)
    requires CanPlace(s0, dirs, s, d, leak, i, j, f, x)
    ensures IsTable(s.mem, d) && SlotReady(Fresh(s, f, x), d, i)
    ensures Building(s0, dirs, Placed(s, d, i, j, f, x, writable), d,
                     leak + if RunsDry(s, d, i, f) then {f} else Replaced(s.mem, d, i, j))
  {
    PlaceReady(s0, dirs, s, d, leak, i, j, f, x);
    if !RunsDry(s, d, i, f) {
      assert f !in leak;
      BuildMap(s0, dirs, Fresh(s, f, x), d, leak, i, j, UserEntry(f, writable));
    }
  }

  /** Every other walk of the directory is as before. */
  lemma PlaceWalks(s0: Sys, dirs: set<nat>, s: Sys, d: nat, leak: set<nat>, i: nat, j: nat, f: nat, x: Frame, writable: bool,
                   a: nat, b: nat)
    requires CanPlace(s0, dirs, s, d, leak, i, j, f, x) && a < ENTRIES && b < ENTRIES
    ensures IsTable(s.mem, d) && SlotReady(Fresh(s, f, x), d, i)
    ensures Walk(Placed(s, d, i, j, f, x, writable).mem, d, a, b) ==
              if a == i && b == j && !RunsDry(s, d, i, f) then UserEntry(f, writable) else Walk(s.mem, d, a, b)
  {
    PlaceReady(s0, dirs, s, d, leak, i, j, f, x);
    FreshWalks(s, dirs + {d}, f, x, d, a, b);
    if !RunsDry(s, d, i, f) {
      SpareMappable(Fresh(s, f, x), dirs + {d}, d, i, j, UserEntry(f, writable));
      OnePageChanges(Fresh(s, f, x), dirs + {d}, d, i, j, UserEntry(f, writable), a, b);
    }
  }

  lemma PlaceShows(s0: Sys, dirs: set<nat>, s: Sys, d: nat, leak: set<nat>, i: nat, j: nat, f: nat, x: Frame, writable: bool,
                   a: nat, b: nat)
    requires CanPlace(s0, dirs, s, d, leak, i, j, f, x) && KERNEL_PDES <= a < ENTRIES && b < ENTRIES
    ensures IsTable(s.mem, d) && SlotReady(Fresh(s, f, x), d, i)
    ensures var r := Placed(s, d, i, j, f, x, writable);
            var here := a == i && b == j && !RunsDry(s, d, i, f);
            && PageAt(r.mem, d, a, b) == (if here then Page(x.bytes, writable, true) else PageAt(s.mem, d, a, b))
            && (HasPage(r.mem, d, a, b, f) <==> here)
            && IsTable(r.mem, d)
            && (At(r.mem, d, a).present <==> At(s.mem, d, a).present || (a == i && !RunsDry(s, d, i, f)))
  {
    PlaceReady(s0, dirs, s, d, leak, i, j, f, x);
    FreshWalks(s, dirs + {d}, f, x, d, a, b);
    if !RunsDry(s, d, i, f) {
      var m := Fresh(s, f, x);
      var e := UserEntry(f, writable);
      SpareMappable(m, dirs + {d}, d, i, j, e);
      MapShows(m, dirs + {d}, d, i, j, e, a, b);
      OnePageChanges(m, dirs + {d}, d, i, j, e, a, b);
      MapInShape(m, dirs + {d}, d, i, j, e);
    }
  }

  // ----- What Ring 3 may reach

  /** Ring 3 reaches exactly the pages of the addresses `vs`, and may write to all of them. */
  ghost predicate UserPages(mem: Phys, d: nat, vs: seq<u32>) {
    forall a: nat, b: nat :: a < ENTRIES && b < ENTRIES ==>
      (UserAccess(mem, d, a, b) <==> Among(vs, a, b)) && (WriteAccess(mem, d, a, b) <==> Among(vs, a, b))
  }

  ghost predicate Among(vs: seq<u32>, a: nat, b: nat) {
    exists k :: 0 <= k < |vs| && PdIndex(vs[k]) == a && PtIndex(vs[k]) == b
  }

  lemma AmongMore(vs: seq<u32>, v: u32, a: nat, b: nat)
    ensures Among(vs + [v], a, b) <==> Among(vs, a, b) || (PdIndex(v) == a && PtIndex(v) == b)
  {
    var ws := vs + [v];
    if Among(vs, a, b) {
      var k :| 0 <= k < |vs| && PdIndex(vs[k]) == a && PtIndex(vs[k]) == b;
      assert ws[k] == vs[k];
    }
    if PdIndex(v) == a && PtIndex(v) == b {
      assert ws[|vs|] == v;
    }
  }

  /** Mapping one more page for the user opens that page only. */
  lemma MapOpens(s: Sys, dirs: set<nat>, d: nat, v: u32, e: Entry, vs: seq<u32>)
    requires Mappable(s, dirs, d, PdIndex(v), PtIndex(v), e) && !OutOfTables(s.used, s.mem, d, PdIndex(v)) && e.user && e.writable
    requires UserConsistent(s.mem, d) && UserPages(s.mem, d, vs)
    ensures UserPages(MapIn(s, d, PdIndex(v), PtIndex(v), e).mem, d, vs + [v])
  {
    var r := MapIn(s, d, PdIndex(v), PtIndex(v), e);
    forall a: nat, b: nat | a < ENTRIES && b < ENTRIES
      ensures UserAccess(r.mem, d, a, b) <==> Among(vs + [v], a, b)
      ensures WriteAccess(r.mem, d, a, b) <==> Among(vs + [v], a, b)
    {
      UserAccessExact(s, dirs, d, PdIndex(v), PtIndex(v), e, a, b);
      WriteAccessExact(s, dirs, d, PdIndex(v), PtIndex(v), e, a, b);
      AmongMore(vs, v, a, b);
    }
  }

  /** Placing a page opens that page and no other. */
  lemma PlaceAccess(s0: Sys, dirs: set<nat>, s: Sys, d: nat, leak: set<nat>, i: nat, j: nat, f: nat, x: Frame, writable: bool,
                    a: nat, b: nat)
    requires CanPlace(s0, dirs, s, d, leak, i, j, f, x) && a < ENTRIES && b < ENTRIES
    ensures IsTable(s.mem, d) && SlotReady(Fresh(s, f, x), d, i)
    ensures UserAccess(Placed(s, d, i, j, f, x, writable).mem, d, a, b) <==>
              UserAccess(s.mem, d, a, b) || (a == i && b == j && !RunsDry(s, d, i, f))
    ensures WriteAccess(Placed(s, d, i, j, f, x, writable).mem, d, a, b) <==>
              if a == i && b == j && !RunsDry(s, d, i, f) then writable else WriteAccess(s.mem, d, a, b)
  {
    var m := Fresh(s, f, x);
    PlaceReady(s0, dirs, s, d, leak, i, j, f, x);
    FreshWalks(s, dirs + {d}, f, x, d, a, b);
    if !RunsDry(s, d, i, f) {
      SpareMappable(m, dirs + {d}, d, i, j, UserEntry(f, writable));
      UserAccessExact(m, dirs + {d}, d, i, j, UserEntry(f, writable), a, b);
      WriteAccessExact(m, dirs + {d}, d, i, j, UserEntry(f, writable), a, b);
    }
  }

  lemma PlaceOpens(s0: Sys, dirs: set<nat>, s: Sys, d: nat, leak: set<nat>, v: u32, f: nat, x: Frame, vs: seq<u32>)
    requires CanPlace(s0, dirs, s, d, leak, PdIndex(v), PtIndex(v), f, x) && UserPages(s.mem, d, vs)
    ensures IsTable(s.mem, d) && SlotReady(Fresh(s, f, x), d, PdIndex(v))
    ensures UserPages(Placed(s, d, PdIndex(v), PtIndex(v), f, x, true).mem, d,
                      if RunsDry(s, d, PdIndex(v), f) then vs else vs + [v])
  {
    PlaceReady(s0, dirs, s, d, leak, PdIndex(v), PtIndex(v), f, x);
    forall a: nat, b: nat | a < ENTRIES && b < ENTRIES
      ensures UserAccess(Placed(s, d, PdIndex(v), PtIndex(v), f, x, true).mem, d, a, b) <==>
                Among(if RunsDry(s, d, PdIndex(v), f) then vs else vs + [v], a, b)
      ensures WriteAccess(Placed(s, d, PdIndex(v), PtIndex(v), f, x, true).mem, d, a, b) <==>
                Among(if RunsDry(s, d, PdIndex(v), f) then vs else vs + [v], a, b)
    {
      PlaceAccess(s0, dirs, s, d, leak, PdIndex(v), PtIndex(v), f, x, true, a, b);
      AmongMore(vs, v, a, b);
    }
  }

  /** Nothing in the kernel range is open to Ring 3. */
  ghost predicate Closed(mem: Phys, d: nat) {
    forall a: nat, b: nat :: a < KERNEL_PDES && b < ENTRIES ==> !UserAccess(mem, d, a, b)
  }

  /** Above the kernel range, what Ring 3 reaches is what it sees. */
  lemma AccessIsView(s0: Sys, dirs: set<nat>, s: Sys, d: nat, extra: set<nat>, a: nat, b: nat)
    requires Building(s0, dirs, s, d, extra) && KERNEL_PDES <= a < ENTRIES && b < ENTRIES
    ensures UserAccess(s.mem, d, a, b) <==> PageAt(s.mem, d, a, b).Page? && PageAt(s.mem, d, a, b).user
    ensures Walk(s.mem, d, a, b).present <==> PageAt(s.mem, d, a, b).Page?
  {
    var e := Walk(s.mem, d, a, b);
    if e.present {
      assert HasPage(s.mem, d, a, b, e.frame);
      assert PagesOk(s, d);
    }
  }

  /** The frames a placement takes. */
  lemma PlaceCount(s0: Sys, dirs: set<nat>, s: Sys, d: nat, leak: set<nat>, i: nat, j: nat, f: nat, x: Frame, writable: bool)
    requires CanPlace(s0, dirs, s, d, leak, i, j, f, x)
    ensures IsTable(s.mem, d) && SlotReady(Fresh(s, f, x), d, i)
    ensures |Placed(s, d, i, j, f, x, writable).used| ==
              |s.used| + if At(s.mem, d, i).present || RunsDry(s, d, i, f) then 1 else 2
  {
    hide KernelLow, UserConsistent, Built, SameBelow, Walk;
    var m := Fresh(s, f, x);
    PlaceReady(s0, dirs, s, d, leak, i, j, f, x);
    FreshWalks(s, dirs + {d}, f, x, d, i, j);
    if !RunsDry(s, d, i, f) {
      SpareMappable(m, dirs + {d}, d, i, j, UserEntry(f, writable));
      MapInShape(m, dirs + {d}, d, i, j, UserEntry(f, writable));
      var t := TableFor(m, d, i);
      if At(m.mem, d, i).present {
        assert HasTable(m.mem, d, i, t) && ProcOk(m, d);
        assert m.used + {t} == m.used;
      }
    }
  }

  // ----- Writes to frames that are not in use

  /** A walk through frames in use sees only frames in use. */
  lemma WalkSame(s: Sys, r: Sys, dirs: set<nat>, d: nat, a: nat, b: nat)
    requires SysOk(s, dirs) && (d == s.kdir || d in dirs) && |r.mem| == |s.mem| && a < ENTRIES && b < ENTRIES
    requires forall g :: g in s.used ==> r.mem[g] == s.mem[g]
    ensures IsTable(s.mem, d) && IsTable(r.mem, d)
    ensures Walk(r.mem, d, a, b) == Walk(s.mem, d, a, b) && At(r.mem, d, a) == At(s.mem, d, a)
  {
    assert KernelSlotOk(s, a);
    if d in dirs {
      assert ProcOk(s, d);
      if At(s.mem, d, a).present {
        var t := At(s.mem, d, a).frame;
        if Private(a) {
          assert HasTable(s.mem, d, a, t);
        } else {
          assert SharedSlot(s, d, a);
        }
      }
    }
    WalkFrame(s.mem, r.mem, d, a, b);
  }

  /** An address space whose frames are untouched is unchanged. */
  lemma SpaceSame(s: Sys, r: Sys, dirs: set<nat>, d: nat, f: nat)
    requires SysOk(s, dirs) && d in dirs && |r.mem| == |s.mem|
    requires forall g :: g in s.used ==> r.mem[g] == s.mem[g]
    ensures Owns(r.mem, d, f) <==> Owns(s.mem, d, f)
    ensures forall a: nat :: HasTable(r.mem, d, a, f) <==> HasTable(s.mem, d, a, f)
    ensures forall a: nat, b: nat :: HasPage(r.mem, d, a, b, f) <==> HasPage(s.mem, d, a, b, f)
  {
    forall a: nat ensures HasTable(r.mem, d, a, f) <==> HasTable(s.mem, d, a, f) {
      if a < ENTRIES { WalkSame(s, r, dirs, d, a, 0); }
    }
    forall a: nat, b: nat ensures HasPage(r.mem, d, a, b, f) <==> HasPage(s.mem, d, a, b, f) {
      if a < ENTRIES && b < ENTRIES { WalkSame(s, r, dirs, d, a, b); }
    }
  }

  lemma ProcSame(s: Sys, r: Sys, dirs: set<nat>, c: nat)
    requires SysOk(s, dirs) && c in dirs && |r.mem| == |s.mem| && r.used == s.used && SameBelow(s, r)
    ensures ProcOk(r, c)
  {
    assert ProcOk(s, c);
    WalkSame(s, r, dirs, c, 0, 0);
    forall a: nat, t: nat | HasTable(r.mem, c, a, t)
      ensures HasTable(s.mem, c, a, t) && ProcessFrame(r, t) && IsTable(r.mem, t) && t != c && At(r.mem, c, a).writable
    {
      SpaceSame(s, r, dirs, c, t);
      WalkSame(s, r, dirs, c, a, 0);
      SameKernelFrames(s, r, t);
    }
    forall a: nat, b: nat, f: nat | HasPage(r.mem, c, a, b, f) ensures ProcessFrame(r, f) && r.mem[f].Data? {
      SpaceSame(s, r, dirs, c, f);
      SameKernelFrames(s, r, f);
    }
    forall a: nat | 0 < a < KERNEL_PDES ensures SharedSlot(r, c, a) {
      assert SharedSlot(s, c, a);
      WalkSame(s, r, dirs, c, a, 0);
    }
    SameKernelFrames(s, r, c);
  }

  /** Writing frames that are not in use changes no address space. */
  lemma UnusedWrites(s: Sys, dirs: set<nat>, r: Sys)
    requires SysOk(s, dirs) && |r.mem| == |s.mem| && r.used == s.used && SameBelow(s, r)
    ensures SysOk(r, dirs) && (KernelLow(s) ==> KernelLow(r))
  {
    forall i: nat | i < ENTRIES ensures KernelSlotOk(r, i) && At(r.mem, s.kdir, i) == At(s.mem, s.kdir, i) {
      assert KernelSlotOk(s, i);
      WalkSame(s, r, dirs, s.kdir, i, 0);
    }
    forall i: nat, j: nat | i < ENTRIES && j < ENTRIES ensures Walk(r.mem, s.kdir, i, j) == Walk(s.mem, s.kdir, i, j) {
      WalkSame(s, r, dirs, s.kdir, i, j);
    }
    forall c | c in dirs ensures ProcOk(r, c) {
      ProcSame(s, r, dirs, c);
    }
    forall a, b, f: nat | a in dirs && b in dirs && Owns(r.mem, a, f) && Owns(r.mem, b, f) ensures a == b {
      SpaceSame(s, r, dirs, a, f);
      SpaceSame(s, r, dirs, b, f);
    }
  }

  // ----- Writing a page in place

  /** A frame of the process that holds bytes, or one that is in no table. */
  ghost predicate Writable(s: Sys, d: nat, extra: set<nat>, f: nat) {
    f in extra || (f in Owned(s.mem, d) && s.mem[f].Data?)
  }

  lemma ExtraIsForeign(s0: Sys, dirs: set<nat>, s: Sys, d: nat, extra: set<nat>, f: nat)
    requires Building(s0, dirs, s, d, extra) && f in extra
    ensures ProcessFrame(s, f) && forall c :: c in dirs + {d} ==> !Owns(s.mem, c, f)
  {
    if IsKernelFrame(s0, f) { KernelFrameUsed(s0, f); }
    SameKernelFrames(s0, s, f);
    forall c | c in dirs + {d} ensures !Owns(s.mem, c, f) {
      if c in dirs {
        SpaceSame(s0, s, dirs, c, f);
        if Owns(s0.mem, c, f) { OwnedIsUsed(s0, c, f); }
      } else {
        assert f !in Owned(s.mem, d);
      }
    }
  }

  lemma WriteForeign(s0: Sys, dirs: set<nat>, s: Sys, d: nat, extra: set<nat>, f: nat)
    requires Building(s0, dirs, s, d, extra) && Writable(s, d, extra, f)
    ensures NoTable(s, dirs + {d}, f) && f !in s0.used
  {
    if f in extra {
      ExtraIsForeign(s0, dirs, s, d, extra, f);
    } else if IsKernelFrame(s, f) {
      KernelFrameUsed(s, f);
    }
  }

  /** Storing bytes in a frame of the process keeps the construction sound. */
  lemma WriteBuilds(s0: Sys, dirs: set<nat>, s: Sys, d: nat, extra: set<nat>, f: nat, x: Frame)
    requires Building(s0, dirs, s, d, extra) && Writable(s, d, extra, f) && x.Data?
    ensures f < |s.mem| && Building(s0, dirs, s.(mem := Fill(s.mem, f, x)), d, extra)
  {
    hide MapsOnce;
    WriteForeign(s0, dirs, s, d, extra, f);
    var r := s.(mem := Fill(s.mem, f, x));
    DataKeeps(s, dirs + {d}, f, x);
    forall g: nat ensures g in Owned(r.mem, d) <==> g in Owned(s.mem, d) {
      DataOwns(s, dirs + {d}, f, x, d, g);
    }
    assert Owned(r.mem, d) == Owned(s.mem, d);
    forall a: nat, b: nat | a < ENTRIES && b < ENTRIES
      ensures Walk(r.mem, d, a, b) == Walk(s.mem, d, a, b) && At(r.mem, d, a) == At(s.mem, d, a)
    {
      DataWalks(s, dirs + {d}, f, x, d, a, b);
    }
    OnceSame(s.mem, r.mem, d);
    DataWalks(s, dirs + {d}, f, x, d, 0, 0);
  }

  /** The bytes show exactly where the frame is mapped. */
  lemma WriteShows(s0: Sys, dirs: set<nat>, s: Sys, d: nat, extra: set<nat>, f: nat, x: Frame, a: nat, b: nat)
    requires Building(s0, dirs, s, d, extra) && Writable(s, d, extra, f) && x.Data?
    requires KERNEL_PDES <= a < ENTRIES && b < ENTRIES
    ensures f < |s.mem|
    ensures PageAt(Fill(s.mem, f, x), d, a, b) ==
              if HasPage(s.mem, d, a, b, f) then Page(x.bytes, Walk(s.mem, d, a, b).writable, Walk(s.mem, d, a, b).user)
              else PageAt(s.mem, d, a, b)
  {
    WriteForeign(s0, dirs, s, d, extra, f);
    DataWalks(s, dirs + {d}, f, x, d, a, b);
    if f in extra {
      ExtraIsForeign(s0, dirs, s, d, extra, f);
      assert !HasPage(s.mem, d, a, b, f);
    }
  }

  lemma WriteOpens(s0: Sys, dirs: set<nat>, s: Sys, d: nat, extra: set<nat>, f: nat, x: Frame, vs: seq<u32>)
    requires Building(s0, dirs, s, d, extra) && Writable(s, d, extra, f) && x.Data? && UserPages(s.mem, d, vs)
    ensures f < |s.mem| && UserPages(Fill(s.mem, f, x), d, vs)
  {
    WriteForeign(s0, dirs, s, d, extra, f);
    forall a: nat, b: nat | a < ENTRIES && b < ENTRIES
      ensures UserAccess(Fill(s.mem, f, x), d, a, b) <==> Among(vs, a, b)
      ensures WriteAccess(Fill(s.mem, f, x), d, a, b) <==> Among(vs, a, b)
    {
      DataWalks(s, dirs + {d}, f, x, d, a, b);
    }
  }

  /** A frame allocated meanwhile. */
  lemma BuildTaken(s0: Sys, dirs: set<nat>, s: Sys, d: nat, extra: set<nat>, k: nat)
    requires Building(s0, dirs, s, d, extra) && k !in s.used && k < TOTAL_FRAMES
    ensures Building(s0, dirs, s.(used := s.used + {k}), d, extra + {k}) && k !in extra
  {
    AllocKeeps(s, dirs + {d}, k);
  }

  /** A frame allocated before the directory was begun counts as held outside it. */
  lemma BuildEarlier(s0: Sys, dirs: set<nat>, s: Sys, d: nat, extra: set<nat>, k: nat)
    requires Building(s0.(used := s0.used + {k}), dirs, s, d, extra) && SysOk(s0, dirs) && k !in s0.used
    ensures Building(s0, dirs, s, d, extra + {k}) && k !in extra
  {
  }

  // ----- Tearing down

  /** Freeing the directory gives back everything but what was lost. */
  lemma TearDown(s0: Sys, dirs: set<nat>, s: Sys, d: nat, leak: set<nat>)
    requires Building(s0, dirs, s, d, leak)
    ensures var r := Torn(s, d);
            r.used == s0.used + leak && SysOk(r, dirs) && KernelLow(r) && SameBelow(s0, r)
  {
    TearDownRestores(s0.used, s, d, leak);
    TearDownKeeps(s, dirs + {d}, d);
    assert dirs + {d} - {d} == dirs;
  }

  /** Giving back a frame taken before the directory was begun restores the original state. */
  lemma GiveBack(s0: Sys, dirs: set<nat>, k: nat, r: Sys)
    requires SysOk(s0, dirs) && k !in s0.used && SysOk(r, dirs) && KernelLow(r)
    requires r.used == s0.used + {k} && SameBelow(s0.(used := s0.used + {k}), r)
    ensures !IsReserved(k)
    ensures var r' := r.(used := r.used - {k});
            r'.used == s0.used && SysOk(r', dirs) && KernelLow(r') && SameBelow(s0, r')
  {
    FreshIsForeign(s0, dirs, k);
    SameKernelFrames(s0, r, k);
    forall c | c in dirs ensures !Owns(r.mem, c, k) {
      SpaceSame(s0, r, dirs, c, k);
    }
    FreeKeeps(r, dirs, k);
  }
}
