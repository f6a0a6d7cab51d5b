/**
 The state of a load in progress, page by page.
 */
module ElfImage {
  import opened Machine
  import opened Counting
  import opened Pmm
  import opened PagingSpec
  import opened AddressSpace
  import opened Spaces
  import opened SpaceFrames
  import opened ProcessBuild
  import opened ElfSpec

  /** A load: the state it started from, the directory it fills, and the file. */
  datatype Job = Job(s0: Sys, dirs: set<nat>, d: nat, file: seq<u8>, ps: seq<Phdr>)

  predicate JobOk(j: Job) {
    |j.file| < TWO_32 && forall k :: 0 <= k < |j.ps| ==> InFile(j.ps[k], |j.file|)
  }

  predicate Reached(j: Job, n: nat) {
    n <= |j.ps| && AllPass(j.ps, n, |j.file|)
  }

  /** The current segment is loadable and has passed its checks. */
  predicate InSegment(j: Job, n: nat) {
    Reached(j, n) && n < |j.ps| && Loads(j.ps[n]) && Checks(j.ps[n], |j.file|) && j.ps[n].offset + j.ps[n].filesz <= |j.file|
  }

  /** What page `q` should show after `n` segments and the pages below `end` of the next. */
  function Expected(j: Job, n: nat, end: nat, q: nat): (v: View)
    requires Reached(j, n)
  {
    if InSegment(j, n) && FirstPage(j.ps[n]) <= q < end && q < EndPage(j.ps[n])
    then Page(PageBytes(j.file, j.ps[n], q), Writes(j.ps[n]), true)
    else SegView(j.file, j.ps, n, q)
  }

  ghost predicate Shows(j: Job, n: nat, end: nat, hole: int, mem: Phys)
    requires Reached(j, n)
  {
    && (forall q: nat :: 4096 <= q < 0x10_0000 ==> ViewAt(mem, j.d, q) == if q == hole then Unmapped else Expected(j, n, end, q))
    && (hole >= 0 ==> 4096 <= hole < 0x10_0000 && Expected(j, n, end, hole).Page?)
  }

  /** The tally agrees with the tables, the pages and the frames in use. */
  ghost predicate Matches(t: Tally, s: Sys, d: nat) {
    && IsTable(s.mem, d) && t.free + |s.used| == TOTAL_FRAMES
    && (forall i: nat :: KERNEL_PDES <= i < ENTRIES ==> (At(s.mem, d, i).present <==> i in t.tables))
    && (forall q: nat :: 4096 <= q < 0x10_0000 ==> (Walk(s.mem, d, q / 1024, q % 1024).present <==> q in t.pages))
  }

  ghost predicate Consistent(t: Tally, hole: int, leak: set<nat>) {
    !t.failed && (t.lost <==> hole >= 0) && |leak| == Leaks(t) && LostIsLast(t)
  }

  ghost predicate Loading(j: Job, n: nat, end: nat, hole: int, leak: set<nat>, t: Tally, s: Sys) {
    && JobOk(j) && Reached(j, n) && Building(j.s0, j.dirs, s, j.d, leak) && Closed(s.mem, j.d)
    && Shows(j, n, end, hole, s.mem) && Matches(t, s, j.d) && Consistent(t, hole, leak)
  }

  lemma PageIndex(q: nat)
    requires q < 0x10_0000
    ensures PdIndex(4096 * q) == q / 1024 && PtIndex(4096 * q) == q % 1024
  {
    assert 4096 * q / 0x1000 == q;
  }

  lemma SamePage(q: nat, r: nat)
    ensures q / 1024 == r / 1024 && q % 1024 == r % 1024 <==> q == r
  {
  }

  // ----- One page

  /** The next page of a segment is inside user space. */
  lemma NextPage(j: Job, n: nat, q: nat)
    requires InSegment(j, n) && OnPage(j.ps[n], q)
    ensures 4096 <= q < 0x10_0000 && KERNEL_PDES <= q / 1024 < ENTRIES
  {
  }

  ghost function PageFrame(j: Job, n: nat, q: nat): (x: Frame)
    requires InSegment(j, n)
  {
    Data(PageBytes(j.file, j.ps[n], q))
  }

  ghost predicate CanLoad(j: Job, n: nat, q: nat, hole: int, leak: set<nat>, t: Tally, s: Sys, f: nat) {
    && Loading(j, n, q, hole, leak, t, s) && InSegment(j, n) && OnPage(j.ps[n], q) && f !in s.used && f < TOTAL_FRAMES
    && 4096 <= q < 0x10_0000
    && CanPlace(j.s0, j.dirs, s, j.d, leak, q / 1024, q % 1024, f, PageFrame(j, n, q))
  }

  /** The page is lost exactly when the tally says so. */
  lemma DryIsLost(t: Tally, s: Sys, d: nat, q: nat, f: nat)
    requires Matches(t, s, d) && KERNEL_PDES <= q / 1024 < ENTRIES && f !in s.used && f < TOTAL_FRAMES && !t.failed
    requires forall g :: g in s.used ==> g < TOTAL_FRAMES
    ensures t.free >= 1 && !TakePage(t, q).failed
    ensures RunsDry(s, d, q / 1024, f) <==> q / 1024 !in t.tables && t.free == 1
  {
    AllBelow(s.used, TOTAL_FRAMES);
    AllBelow(s.used + {f}, TOTAL_FRAMES);
  }

  lemma UsedBounded(s0: Sys, dirs: set<nat>, s: Sys, d: nat, extra: set<nat>)
    requires Building(s0, dirs, s, d, extra)
    ensures |s.mem| == TOTAL_FRAMES && forall g :: g in s.used ==> g < TOTAL_FRAMES
  {
  }

  /** Where a page can still be had, none has been lost so far. */
  lemma NothingLostYet(t: Tally, hole: int, leak: set<nat>, s: Sys, d: nat, f: nat)
    requires Matches(t, s, d) && Consistent(t, hole, leak) && f !in s.used && f < TOTAL_FRAMES
    requires forall g :: g in s.used ==> g < TOTAL_FRAMES
    ensures t.free >= 1 && !t.lost && hole < 0 && |leak| == t.replaced
  {
    AllBelow(s.used + {f}, TOTAL_FRAMES);
  }

  /** Placing page `q`, in the state the tally describes. */
  ghost predicate CanTake(j: Job, q: nat, leak: set<nat>, t: Tally, s: Sys, f: nat, x: Frame) {
    && Building(j.s0, j.dirs, s, j.d, leak) && Matches(t, s, j.d) && !t.failed && 4096 <= q < 0x10_0000
    && CanPlace(j.s0, j.dirs, s, j.d, leak, q / 1024, q % 1024, f, x)
  }

  lemma PlaceFacts(s0: Sys, dirs: set<nat>, s: Sys, d: nat, leak: set<nat>, i: nat, j: nat, f: nat, x: Frame)
    requires CanPlace(s0, dirs, s, d, leak, i, j, f, x)
    ensures f !in s.used && f < TOTAL_FRAMES && |s.mem| == TOTAL_FRAMES && forall g :: g in s.used ==> g < TOTAL_FRAMES
  {
  }

  lemma TakeTables(j: Job, q: nat, leak: set<nat>, t: Tally, s: Sys, f: nat, x: Frame, w: bool)
    requires CanTake(j, q, leak, t, s, f, x)
    ensures IsTable(s.mem, j.d) && SlotReady(Fresh(s, f, x), j.d, q / 1024)
    ensures Matches(TakePage(t, q), Placed(s, j.d, q / 1024, q % 1024, f, x, w), j.d)
  {
    hide Building, CanPlace, Placed, RunsDry, UserAccess, Fresh, SlotReady, Full, Walk, PageAt;
    PlaceFacts(j.s0, j.dirs, s, j.d, leak, q / 1024, q % 1024, f, x);
    PlaceCount(j.s0, j.dirs, s, j.d, leak, q / 1024, q % 1024, f, x, w);
    DryIsLost(t, s, j.d, q, f);
    var r := Placed(s, j.d, q / 1024, q % 1024, f, x, w);
    forall i: nat | KERNEL_PDES <= i < ENTRIES
      ensures IsTable(r.mem, j.d) && (At(r.mem, j.d, i).present <==> i in TakePage(t, q).tables)
    {
      PlaceShows(j.s0, j.dirs, s, j.d, leak, q / 1024, q % 1024, f, x, w, i, 0);
    }
    forall p: nat | 4096 <= p < 0x10_0000
      ensures Walk(r.mem, j.d, p / 1024, p % 1024).present <==> p in TakePage(t, q).pages
    {
      TakeView(j, q, leak, t, s, f, x, w, p);
      PlaceBuilds(j.s0, j.dirs, s, j.d, leak, q / 1024, q % 1024, f, x, w);
      AccessIsView(j.s0, j.dirs, s, j.d, leak, p / 1024, p % 1024);
      AccessIsView(j.s0, j.dirs, r, j.d, leak + if RunsDry(s, j.d, q / 1024, f) then {f} else Replaced(s.mem, j.d, q / 1024, q % 1024),
                   p / 1024, p % 1024);
    }
  }

  /** The page shows where it was placed; every other page is as before. */
  lemma TakeView(j: Job, q: nat, leak: set<nat>, t: Tally, s: Sys, f: nat, x: Frame, w: bool, p: nat)
    requires CanTake(j, q, leak, t, s, f, x) && 4096 <= p < 0x10_0000
    ensures IsTable(s.mem, j.d) && SlotReady(Fresh(s, f, x), j.d, q / 1024)
    ensures ViewAt(Placed(s, j.d, q / 1024, q % 1024, f, x, w).mem, j.d, p) ==
              if p == q && !RunsDry(s, j.d, q / 1024, f) then Page(x.bytes, w, true) else ViewAt(s.mem, j.d, p)
  {
    hide Building, CanPlace, Placed, RunsDry, UserAccess, Fresh, SlotReady, Full, Walk, PageAt, Matches;
    PlaceReady(j.s0, j.dirs, s, j.d, leak, q / 1024, q % 1024, f, x);
    PlaceShows(j.s0, j.dirs, s, j.d, leak, q / 1024, q % 1024, f, x, w, p / 1024, p % 1024);
    SamePage(p, q);
  }

  /** The frames a placement leaves in no table: the page itself without a table for it, or the one it replaced. */
  ghost function Dropped(s: Sys, d: nat, q: nat, f: nat): (fs: set<nat>)
    requires IsTable(s.mem, d) && q < 0x10_0000
  {
    if RunsDry(s, d, q / 1024, f) then {f} else Replaced(s.mem, d, q / 1024, q % 1024)
  }

  lemma DropSize(j: Job, q: nat, leak: set<nat>, t: Tally, s: Sys, f: nat)
    requires Building(j.s0, j.dirs, s, j.d, leak) && Matches(t, s, j.d) && 4096 <= q < 0x10_0000 && f !in s.used
    ensures leak !! Dropped(s, j.d, q, f)
    ensures |Dropped(s, j.d, q, f)| == if RunsDry(s, j.d, q / 1024, f) || q in t.pages then 1 else 0
    ensures q in t.pages ==> q / 1024 in t.tables
  {
    hide SysOk, KernelLow, SameBelow, UserConsistent, MapsOnce, Full;
    ReplacedIsPage(s, j.dirs + {j.d}, j.d, q / 1024, q % 1024);
  }

  lemma LeakCount(t: Tally, q: nat, leak: set<nat>, drop: set<nat>, dry: bool)
    requires !t.failed && !t.lost && t.free >= 1 && |leak| == t.replaced && leak !! drop
    requires (dry <==> q / 1024 !in t.tables && t.free == 1) && (q in t.pages ==> q / 1024 in t.tables)
    requires |drop| == if dry || q in t.pages then 1 else 0
    ensures |leak + drop| == Leaks(TakePage(t, q)) && LostIsLast(TakePage(t, q)) && !TakePage(t, q).failed
    ensures TakePage(t, q).lost <==> dry
  {
  }

  lemma TakeLeaks(j: Job, q: nat, hole: int, leak: set<nat>, t: Tally, s: Sys, f: nat, x: Frame, w: bool)
    requires CanTake(j, q, leak, t, s, f, x) && Consistent(t, hole, leak)
    ensures IsTable(s.mem, j.d) && SlotReady(Fresh(s, f, x), j.d, q / 1024)
    ensures Building(j.s0, j.dirs, Placed(s, j.d, q / 1024, q % 1024, f, x, w), j.d, leak + Dropped(s, j.d, q, f))
    ensures |leak + Dropped(s, j.d, q, f)| == Leaks(TakePage(t, q)) && LostIsLast(TakePage(t, q)) && !TakePage(t, q).failed
    ensures TakePage(t, q).lost <==> RunsDry(s, j.d, q / 1024, f)
  {
    hide Building, CanPlace, Placed, RunsDry, Fresh, SlotReady, TakePage, Leaks, LostIsLast;
    PlaceBuilds(j.s0, j.dirs, s, j.d, leak, q / 1024, q % 1024, f, x, w);
    PlaceFacts(j.s0, j.dirs, s, j.d, leak, q / 1024, q % 1024, f, x);
    NothingLostYet(t, hole, leak, s, j.d, f);
    DryIsLost(t, s, j.d, q, f);
    DropSize(j, q, leak, t, s, f);
    LeakCount(t, q, leak, Dropped(s, j.d, q, f), RunsDry(s, j.d, q / 1024, f));
  }

  /** One page further: the state of the load after alloc, copy and map. */
  lemma LoadPage(j: Job, n: nat, q: nat, hole: int, leak: set<nat>, t: Tally, s: Sys, f: nat)
    requires CanLoad(j, n, q, hole, leak, t, s, f)
    ensures IsTable(s.mem, j.d) && SlotReady(Fresh(s, f, PageFrame(j, n, q)), j.d, q / 1024)
    ensures Loading(j, n, q + 1, if RunsDry(s, j.d, q / 1024, f) then q else hole, leak + Dropped(s, j.d, q, f), TakePage(t, q),
                    Placed(s, j.d, q / 1024, q % 1024, f, PageFrame(j, n, q), Writes(j.ps[n])))
  {
    hide Building, CanPlace, Placed, RunsDry, UserAccess, Fresh, SlotReady, Full, Walk, PageAt, Matches, Dropped, TakePage;
    var x, w := PageFrame(j, n, q), Writes(j.ps[n]);
    UsedBounded(j.s0, j.dirs, s, j.d, leak);
    NothingLostYet(t, hole, leak, s, j.d, f);
    TakeLeaks(j, q, hole, leak, t, s, f, x, w);
    TakeTables(j, q, leak, t, s, f, x, w);
    var r := Placed(s, j.d, q / 1024, q % 1024, f, x, w);
    forall a: nat, b: nat | a < KERNEL_PDES && b < ENTRIES ensures !UserAccess(r.mem, j.d, a, b) {
      PlaceAccess(j.s0, j.dirs, s, j.d, leak, q / 1024, q % 1024, f, x, w, a, b);
    }
    forall p: nat | 4096 <= p < 0x10_0000
      ensures ViewAt(r.mem, j.d, p) ==
                if p == q && !RunsDry(s, j.d, q / 1024, f) then Page(x.bytes, w, true) else ViewAt(s.mem, j.d, p)
    {
      TakeView(j, q, leak, t, s, f, x, w, p);
    }
    DryShows(j, q, leak, t, s, f);
  }

  /** A page that found no table shows nothing, and showed nothing before. */
  lemma DryShows(j: Job, q: nat, leak: set<nat>, t: Tally, s: Sys, f: nat)
    requires Building(j.s0, j.dirs, s, j.d, leak) && Matches(t, s, j.d) && 4096 <= q < 0x10_0000
    ensures RunsDry(s, j.d, q / 1024, f) ==> ViewAt(s.mem, j.d, q) == Unmapped
  {
  }

  // ----- Segments

  lemma EmptySpace(mem: Phys, d: nat, q: nat)
    requires NoUserPages(mem, d) && 4096 <= q < 0x10_0000
    ensures ViewAt(mem, d, q) == Unmapped && !Walk(mem, d, q / 1024, q % 1024).present
  {
  }

  /** A fresh clone shows nothing above the kernel range. */
  lemma LoadStarts(j: Job, r: Sys)
    requires JobOk(j) && Building(j.s0, j.dirs, r, j.d, {}) && NoUserPages(r.mem, j.d) && Closed(r.mem, j.d)
    requires forall i: nat :: KERNEL_PDES <= i < ENTRIES ==> IsTable(r.mem, j.d) && !At(r.mem, j.d, i).present
    ensures |r.used| <= TOTAL_FRAMES && Loading(j, 0, 0, -1, {}, Tally({}, {}, TOTAL_FRAMES - |r.used|, false, false, 0), r)
  {
    hide Building, NoUserPages, Walk, PageAt, Closed;
    CloneIsTable(j.s0, j.dirs, r, j.d);
    AllBelow(r.used, TOTAL_FRAMES);
    forall q: nat | 4096 <= q < 0x10_0000
      ensures ViewAt(r.mem, j.d, q) == Unmapped && !Walk(r.mem, j.d, q / 1024, q % 1024).present
    {
      EmptySpace(r.mem, j.d, q);
    }
  }

  lemma CloneIsTable(s0: Sys, dirs: set<nat>, s: Sys, d: nat)
    requires Building(s0, dirs, s, d, {})
    ensures IsTable(s.mem, d) && forall g :: g in s.used ==> g < TOTAL_FRAMES
  {
    assert ProcOk(s, d);
  }

  lemma SegmentStarts(j: Job, n: nat, hole: int, leak: set<nat>, t: Tally, s: Sys)
    requires Loading(j, n, 0, hole, leak, t, s) && n < |j.ps| && Loads(j.ps[n]) && Checks(j.ps[n], |j.file|)
    ensures InSegment(j, n) && Loading(j, n, FirstPage(j.ps[n]), hole, leak, t, s)
  {
    hide Building, Closed, Matches;
    assert InFile(j.ps[n], |j.file|);
    assert forall q: nat :: Expected(j, n, FirstPage(j.ps[n]), q) == Expected(j, n, 0, q);
  }

  lemma SegmentEnds(j: Job, n: nat, end: nat, hole: int, leak: set<nat>, t: Tally, s: Sys)
    requires InSegment(j, n) && Loading(j, n, end, hole, leak, t, s) && EndPage(j.ps[n]) <= end
    ensures Loading(j, n + 1, 0, hole, leak, t, s)
  {
    hide Building, Closed, Matches;
    assert Reached(j, n + 1);
    assert forall q: nat :: Expected(j, n, end, q) == Expected(j, n + 1, 0, q);
  }

  lemma SegmentSkipped(j: Job, n: nat, hole: int, leak: set<nat>, t: Tally, s: Sys)
    requires Loading(j, n, 0, hole, leak, t, s) && n < |j.ps| && !Loads(j.ps[n])
    ensures Loading(j, n + 1, 0, hole, leak, t, s)
  {
    hide Building, Closed, Matches;
    assert Reached(j, n + 1);
    assert forall q: nat :: Expected(j, n, 0, q) == Expected(j, n + 1, 0, q);
  }

  // ----- The stack page and the finished process

  /** What the finished process sees, and Ring 3 reaches exactly that. */
  ghost predicate ProcessView(j: Job, stack: seq<u8>, mem: Phys)
    requires Reached(j, |j.ps|)
  {
    && ImageIs(j.file, j.ps, stack, mem, j.d)
    && (forall a: nat, b: nat :: a < ENTRIES && b < ENTRIES ==>
          (UserAccess(mem, j.d, a, b) <==> KERNEL_PDES <= a && PageAt(mem, j.d, a, b).Page?))
  }

  /** Ring 3 reaches the stack page and the pages of segments; it may write to the stack page and where the segment has PF_W. */
  lemma ProcessRights(j: Job, stack: seq<u8>, mem: Phys, q: nat)
    requires Reached(j, |j.ps|) && ProcessView(j, stack, mem) && q < 0x10_0000
    ensures UserAccess(mem, j.d, q / 1024, q % 1024) <==> 4096 <= q && (q == STACK_PAGE || LastOn(j.ps, |j.ps|, q) >= 0)
    ensures WriteAccess(mem, j.d, q / 1024, q % 1024) <==>
              4096 <= q && (q == STACK_PAGE || (var k := LastOn(j.ps, |j.ps|, q); k >= 0 && Writes(j.ps[k])))
  {
    SegViewLast(j.file, j.ps, |j.ps|, q);
    assert 4096 <= q ==> ViewAt(mem, j.d, q) == PageAt(mem, j.d, q / 1024, q % 1024);
  }

  /** A state whose walks and pages agree shows the same process. */
  lemma SameView(j: Job, stack: seq<u8>, mem: Phys, mem': Phys)
    requires Reached(j, |j.ps|) && ProcessView(j, stack, mem)
    requires forall a: nat, b: nat :: KERNEL_PDES <= a < ENTRIES && b < ENTRIES ==> PageAt(mem', j.d, a, b) == PageAt(mem, j.d, a, b)
    requires forall a: nat, b: nat :: a < ENTRIES && b < ENTRIES ==> (UserAccess(mem', j.d, a, b) <==> UserAccess(mem, j.d, a, b))
    ensures ProcessView(j, stack, mem')
  {
    assert forall q: nat :: 4096 <= q < 0x10_0000 ==> ViewAt(mem', j.d, q) == ViewAt(mem, j.d, q);
  }

  ghost predicate CanPlaceStack(j: Job, hole: int, leak: set<nat>, t: Tally, s: Sys, f: nat, x: Frame) {
    && Loading(j, |j.ps|, 0, hole, leak, t, s) && x.Data?
    && CanPlace(j.s0, j.dirs, s, j.d, leak, 767, 1023, f, x)
  }

  lemma StackBuilds(j: Job, hole: int, leak: set<nat>, t: Tally, s: Sys, f: nat, x: Frame)
    requires CanPlaceStack(j, hole, leak, t, s, f, x)
    ensures IsTable(s.mem, j.d) && SlotReady(Fresh(s, f, x), j.d, 767)
    ensures var r := Placed(s, j.d, 767, 1023, f, x, true);
            var t' := TakePage(t, STACK_PAGE);
            && Building(j.s0, j.dirs, r, j.d, leak + Dropped(s, j.d, STACK_PAGE, f))
            && |leak + Dropped(s, j.d, STACK_PAGE, f)| == Leaks(t') && |r.used| + t'.free == TOTAL_FRAMES
            && !t'.failed && (t'.lost <==> RunsDry(s, j.d, 767, f))
  {
    hide Building, CanPlace, Placed, RunsDry, Fresh, SlotReady, Full, Walk, Dropped, Shows, Closed;
    TakeLeaks(j, STACK_PAGE, hole, leak, t, s, f, x, true);
    TakeTables(j, STACK_PAGE, leak, t, s, f, x, true);
  }

  /** The stack page goes over whatever a segment had put there. */
  lemma StackShows(j: Job, hole: int, leak: set<nat>, t: Tally, s: Sys, f: nat, x: Frame)
    requires CanPlaceStack(j, hole, leak, t, s, f, x) && IsTable(s.mem, j.d) && !RunsDry(s, j.d, 767, f)
    ensures SlotReady(Fresh(s, f, x), j.d, 767)
    ensures var r := Placed(s, j.d, 767, 1023, f, x, true);
            && ProcessView(j, x.bytes, r.mem)
            && forall a: nat, b: nat :: KERNEL_PDES <= a < ENTRIES && b < ENTRIES ==>
                 (HasPage(r.mem, j.d, a, b, f) <==> a == 767 && b == 1023)
  {
    hide Building, CanPlace, Placed, RunsDry, UserAccess, Fresh, SlotReady, Full, PageAt, Matches, HasPage, Closed;
    PlaceFacts(j.s0, j.dirs, s, j.d, leak, 767, 1023, f, x);
    NothingLostYet(t, hole, leak, s, j.d, f);
    PlaceReady(j.s0, j.dirs, s, j.d, leak, 767, 1023, f, x);
    StackAccess(j, hole, leak, t, s, f, x);
    var r := Placed(s, j.d, 767, 1023, f, x, true);
    forall q: nat | 4096 <= q < 0x10_0000
      ensures ViewAt(r.mem, j.d, q) == if q == STACK_PAGE then Page(x.bytes, true, true) else SegView(j.file, j.ps, |j.ps|, q)
    {
      TakeView(j, STACK_PAGE, leak, t, s, f, x, true, q);
      assert Expected(j, |j.ps|, 0, q) == SegView(j.file, j.ps, |j.ps|, q);
    }
    forall a: nat, b: nat | KERNEL_PDES <= a < ENTRIES && b < ENTRIES
      ensures HasPage(r.mem, j.d, a, b, f) <==> a == 767 && b == 1023
    {
      PlaceShows(j.s0, j.dirs, s, j.d, leak, 767, 1023, f, x, true, a, b);
    }
  }

  lemma StackAccess(j: Job, hole: int, leak: set<nat>, t: Tally, s: Sys, f: nat, x: Frame)
    requires CanPlaceStack(j, hole, leak, t, s, f, x) && IsTable(s.mem, j.d) && !RunsDry(s, j.d, 767, f)
    ensures SlotReady(Fresh(s, f, x), j.d, 767)
    ensures var r := Placed(s, j.d, 767, 1023, f, x, true);
            forall a: nat, b: nat :: a < ENTRIES && b < ENTRIES ==>
              (UserAccess(r.mem, j.d, a, b) <==> KERNEL_PDES <= a && PageAt(r.mem, j.d, a, b).Page?)
  {
    hide CanPlace, Placed, RunsDry, UserAccess, Fresh, SlotReady, Full, PageAt, Matches, HasPage;
    UsedBounded(j.s0, j.dirs, s, j.d, leak);
    PlaceReady(j.s0, j.dirs, s, j.d, leak, 767, 1023, f, x);
    var r := Placed(s, j.d, 767, 1023, f, x, true);
    forall a: nat, b: nat | a < ENTRIES && b < ENTRIES
      ensures UserAccess(r.mem, j.d, a, b) <==> KERNEL_PDES <= a && PageAt(r.mem, j.d, a, b).Page?
    {
      PlaceAccess(j.s0, j.dirs, s, j.d, leak, 767, 1023, f, x, true, a, b);
      if KERNEL_PDES <= a {
        PlaceShows(j.s0, j.dirs, s, j.d, leak, 767, 1023, f, x, true, a, b);
        AccessIsView(j.s0, j.dirs, s, j.d, leak, a, b);
        UserEverywhere(j, hole, leak, t, s, a, b);
      }
    }
  }

  /** Every page loaded so far is a user page. */
  lemma UserEverywhere(j: Job, hole: int, leak: set<nat>, t: Tally, s: Sys, a: nat, b: nat)
    requires Loading(j, |j.ps|, 0, hole, leak, t, s) && KERNEL_PDES <= a < ENTRIES && b < ENTRIES
    ensures PageAt(s.mem, j.d, a, b).Page? ==> PageAt(s.mem, j.d, a, b).user
  {
    hide Building, Matches, Closed, PageAt;
    var q := 1024 * a + b;
    assert q / 1024 == a && q % 1024 == b;
    assert ViewAt(s.mem, j.d, q) == PageAt(s.mem, j.d, a, b);
    SegViewLast(j.file, j.ps, |j.ps|, q);
  }

  /** A frame the process maps holds bytes that may be written. */
  lemma MappedWritable(s0: Sys, dirs: set<nat>, s: Sys, d: nat, extra: set<nat>, i: nat, j: nat, f: nat)
    requires Building(s0, dirs, s, d, extra) && HasPage(s.mem, d, i, j, f)
    ensures Writable(s, d, extra, f)
  {
    assert PagesOk(s, d);
  }

  /** Writing the stack page shows there and nowhere else. */
  lemma StackWritten(j: Job, stack: seq<u8>, s: Sys, leak: set<nat>, f: nat, x: Frame)
    requires Reached(j, |j.ps|) && ProcessView(j, stack, s.mem) && Building(j.s0, j.dirs, s, j.d, leak) && x.Data?
    requires forall a: nat, b: nat :: KERNEL_PDES <= a < ENTRIES && b < ENTRIES ==>
               (HasPage(s.mem, j.d, a, b, f) <==> a == 767 && b == 1023)
    ensures f < |s.mem| && Building(j.s0, j.dirs, s.(mem := Fill(s.mem, f, x)), j.d, leak)
    ensures ProcessView(j, x.bytes, Fill(s.mem, f, x))
  {
    hide Building, Writable, UserAccess, PageAt;
    assert HasPage(s.mem, j.d, 767, 1023, f);
    MappedWritable(j.s0, j.dirs, s, j.d, leak, 767, 1023, f);
    WriteBuilds(j.s0, j.dirs, s, j.d, leak, f, x);
    StackRewritten(j, s, leak, f, x);
    assert ViewAt(s.mem, j.d, STACK_PAGE) == PageAt(s.mem, j.d, 767, 1023);
    var m := Fill(s.mem, f, x);
    forall q: nat | 4096 <= q < 0x10_0000
      ensures ViewAt(m, j.d, q) == if q == STACK_PAGE then Page(x.bytes, true, true) else ViewAt(s.mem, j.d, q)
    {
      SamePage(q, STACK_PAGE);
      StackFlags(j, stack, s);
    }
  }

  lemma StackFlags(j: Job, stack: seq<u8>, s: Sys)
    requires Reached(j, |j.ps|) && ProcessView(j, stack, s.mem)
    ensures Walk(s.mem, j.d, 767, 1023).writable && Walk(s.mem, j.d, 767, 1023).user
  {
    assert ViewAt(s.mem, j.d, STACK_PAGE) == PageAt(s.mem, j.d, 767, 1023);
  }

  lemma StackRewritten(j: Job, s: Sys, leak: set<nat>, f: nat, x: Frame)
    requires Building(j.s0, j.dirs, s, j.d, leak) && Writable(s, j.d, leak, f) && x.Data?
    requires forall a: nat, b: nat :: KERNEL_PDES <= a < ENTRIES && b < ENTRIES ==>
               (HasPage(s.mem, j.d, a, b, f) <==> a == 767 && b == 1023)
    ensures f < |s.mem|
    ensures var m := Fill(s.mem, f, x);
            && (forall a: nat, b: nat :: KERNEL_PDES <= a < ENTRIES && b < ENTRIES ==>
                  PageAt(m, j.d, a, b) == if a == 767 && b == 1023
                                          then Page(x.bytes, Walk(s.mem, j.d, 767, 1023).writable, Walk(s.mem, j.d, 767, 1023).user)
                                          else PageAt(s.mem, j.d, a, b))
            && (forall a: nat, b: nat :: a < ENTRIES && b < ENTRIES ==>
                  (UserAccess(m, j.d, a, b) <==> UserAccess(s.mem, j.d, a, b)))
  {
    hide PageAt, HasPage;
    WriteForeign(j.s0, j.dirs, s, j.d, leak, f);
    var m := Fill(s.mem, f, x);
    forall a: nat, b: nat | a < ENTRIES && b < ENTRIES ensures UserAccess(m, j.d, a, b) <==> UserAccess(s.mem, j.d, a, b) {
      DataWalks(s, j.dirs + {j.d}, f, x, j.d, a, b);
    }
    forall a: nat, b: nat | KERNEL_PDES <= a < ENTRIES && b < ENTRIES
      ensures PageAt(m, j.d, a, b) == if a == 767 && b == 1023
                                      then Page(x.bytes, Walk(s.mem, j.d, 767, 1023).writable, Walk(s.mem, j.d, 767, 1023).user)
                                      else PageAt(s.mem, j.d, a, b)
    {
      WriteShows(j.s0, j.dirs, s, j.d, leak, f, x, a, b);
    }
  }

  /** Filling a frame that is not in use shows nowhere. */
  lemma ViewKept(j: Job, stack: seq<u8>, s: Sys, leak: set<nat>, k: nat, x: Frame)
    requires Reached(j, |j.ps|) && ProcessView(j, stack, s.mem) && Building(j.s0, j.dirs, s, j.d, leak) && x.Data?
    requires k !in s.used && k < TOTAL_FRAMES
    ensures k < |s.mem| && ProcessView(j, stack, Fill(s.mem, k, x))
  {
    hide PageAt, ProcessView;
    UsedBounded(j.s0, j.dirs, s, j.d, leak);
    var m := Fill(s.mem, k, x);
    forall a: nat, b: nat | a < ENTRIES && b < ENTRIES
      ensures KERNEL_PDES <= a ==> PageAt(m, j.d, a, b) == PageAt(s.mem, j.d, a, b)
      ensures UserAccess(m, j.d, a, b) <==> UserAccess(s.mem, j.d, a, b)
    {
      FreshWalks(s, j.dirs + {j.d}, k, x, j.d, a, b);
    }
    SameView(j, stack, s.mem, m);
  }
}
